/**
 * `Array.prototype.sort((a, b) => key(b) - key(a))`: a stable sort into
 * descending key order. JavaScript requires `sort` to be stable, so elements
 * with equal keys keep their relative order.
 */
module Sorting {
  import opened Seqs

  /** Keys never increase from left to right. */
  predicate SortedDesc<T>(xs: seq<T>, key: T -> int)
  {
    forall i, j :: 0 <= i < j < |xs| ==> key(xs[i]) >= key(xs[j])
  }

  /** The elements whose key is `c`, in their original order. */
  function WithKey<T>(xs: seq<T>, key: T -> int, c: int): seq<T>
  {
    if |xs| == 0 then []
    else (if key(xs[0]) == c then [xs[0]] else []) + WithKey(xs[1..], key, c)
  }

  /** Places `x` before the first element whose key is not greater than its own. */
  function Insert<T>(x: T, xs: seq<T>, key: T -> int): seq<T>
  {
    if |xs| == 0 || key(x) >= key(xs[0]) then [x] + xs
    else [xs[0]] + Insert(x, xs[1..], key)
  }

  lemma {:induction false} InsertPermutes<T>(x: T, xs: seq<T>, key: T -> int)
    ensures multiset(Insert(x, xs, key)) == multiset([x] + xs)
  {
    if |xs| > 0 && key(x) < key(xs[0]) {
      InsertPermutes(x, xs[1..], key);
      assert xs == [xs[0]] + xs[1..];
    }
  }

  lemma {:induction false} InsertSorted<T>(x: T, xs: seq<T>, key: T -> int)
    requires SortedDesc(xs, key)
    ensures SortedDesc(Insert(x, xs, key), key)
  {
    if |xs| > 0 && key(x) < key(xs[0]) {
      InsertSorted(x, xs[1..], key);
      var rest := Insert(x, xs[1..], key);
      InsertPermutes(x, xs[1..], key);
      forall j | 0 <= j < |rest| ensures key(xs[0]) >= key(rest[j]) {
        assert rest[j] in multiset([x] + xs[1..]);
        if rest[j] != x {
          assert rest[j] in xs[1..];
        }
      }
    }
  }

  /** Inserting `x` adds it in front of the elements sharing its key and leaves the others alone. */
  lemma {:induction false} InsertWithKey<T>(x: T, xs: seq<T>, key: T -> int, c: int)
    ensures WithKey(Insert(x, xs, key), key, c) ==
      (if key(x) == c then [x] else []) + WithKey(xs, key, c)
  {
    var mine := if key(x) == c then [x] else [];
    if |xs| == 0 || key(x) >= key(xs[0]) {
      assert ([x] + xs)[0] == x;
      assert ([x] + xs)[1..] == xs;
    } else {
      var rest := Insert(x, xs[1..], key);
      var head := if key(xs[0]) == c then [xs[0]] else [];
      InsertWithKey(x, xs[1..], key, c);
      assert ([xs[0]] + rest)[0] == xs[0];
      assert ([xs[0]] + rest)[1..] == rest;
      assert WithKey(Insert(x, xs, key), key, c) == head + (mine + WithKey(xs[1..], key, c));
      assert WithKey(xs, key, c) == head + WithKey(xs[1..], key, c);
      assert head == [] || mine == [];
    }
  }

  /** Stable descending sort by `key`. */
  function SortDesc<T>(xs: seq<T>, key: T -> int): (r: seq<T>)
    ensures multiset(r) == multiset(xs)
    ensures SortedDesc(r, key)
    ensures forall c :: WithKey(r, key, c) == WithKey(xs, key, c)
  {
    if |xs| == 0 then []
    else
      var rest := SortDesc(xs[1..], key);
      InsertPermutes(xs[0], rest, key);
      InsertSorted(xs[0], rest, key);
      assert xs == [xs[0]] + xs[1..];
      assert forall c :: WithKey(Insert(xs[0], rest, key), key, c) == WithKey(xs, key, c) by {
        forall c ensures WithKey(Insert(xs[0], rest, key), key, c) == WithKey(xs, key, c) {
          InsertWithKey(xs[0], rest, key, c);
        }
      }
      Insert(xs[0], rest, key)
  }

  /** Selecting by key keeps the relative order of the selected elements. */
  lemma {:induction false} WithKeyPrecedes<T>(xs: seq<T>, key: T -> int, c: int, a: T, b: T)
    requires a in xs && b in xs && key(a) == c && key(b) == c
    ensures a in WithKey(xs, key, c) && b in WithKey(xs, key, c)
    ensures Precedes(WithKey(xs, key, c), a, b) <==> Precedes(xs, a, b)
  {
    var w := WithKey(xs, key, c);
    var w' := WithKey(xs[1..], key, c);
    if xs[0] == a || xs[0] == b {
      assert w == [xs[0]] + w';
      if a != b && xs[0] == a {
        assert b in xs[1..];
        WithKeyPrecedes(xs[1..], key, c, b, b);
      } else if a != b {
        assert a in xs[1..];
        WithKeyPrecedes(xs[1..], key, c, a, a);
      }
    } else {
      assert a in xs[1..] && b in xs[1..];
      WithKeyPrecedes(xs[1..], key, c, a, b);
      FindCons(xs[0], xs[1..], a);
      FindCons(xs[0], xs[1..], b);
      assert xs == [xs[0]] + xs[1..];
      if key(xs[0]) == c {
        assert w == [xs[0]] + w';
        FindCons(xs[0], w', a);
        FindCons(xs[0], w', b);
      } else {
        assert w == w';
      }
    }
  }

  /**
   * Stability: two elements with equal keys come out in the order they went in.
   */
  lemma StableOrder<T>(xs: seq<T>, key: T -> int, a: T, b: T)
    requires a in xs && b in xs && key(a) == key(b)
    ensures Precedes(SortDesc(xs, key), a, b) <==> Precedes(xs, a, b)
  {
    var r := SortDesc(xs, key);
    assert a in multiset(r) && b in multiset(r);
    WithKeyPrecedes(xs, key, key(a), a, b);
    WithKeyPrecedes(r, key, key(a), a, b);
  }

  /** Sorting a list already in descending order leaves it as it is. */
  lemma {:induction false} SortSorted<T>(xs: seq<T>, key: T -> int)
    requires SortedDesc(xs, key)
    ensures SortDesc(xs, key) == xs
  {
    if |xs| > 0 {
      var rest := xs[1..];
      assert SortedDesc(rest, key) by {
        forall i, j | 0 <= i < j < |rest| ensures key(rest[i]) >= key(rest[j]) {
          assert rest[i] == xs[i + 1] && rest[j] == xs[j + 1];
        }
      }
      SortSorted(rest, key);
      assert xs == [xs[0]] + rest;
    }
  }
}
