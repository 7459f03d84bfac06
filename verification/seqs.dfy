/**
 * Positions and relative order of elements in a sequence, and the
 * `forEach`-and-collect shape every detection channel has.
 */
module Seqs {
  import opened Wrappers

  /** Index of the first occurrence of `x` in `xs`. */
  function Find<T(==)>(xs: seq<T>, x: T): (i: nat)
    requires x in xs
    ensures i < |xs| && xs[i] == x && x !in xs[..i]
  {
    if xs[0] == x then 0
    else
      assert xs == [xs[0]] + xs[1..];
      1 + Find(xs[1..], x)
  }

  /** No element occurs twice. */
  predicate NoDup<T(==)>(xs: seq<T>)
  {
    forall i, j :: 0 <= i < j < |xs| ==> xs[i] != xs[j]
  }

  /** In a duplicate-free sequence an element's position is its only index. */
  lemma FindNoDup<T>(xs: seq<T>, i: nat)
    requires NoDup(xs) && i < |xs|
    ensures Find(xs, xs[i]) == i
  {
    var j := Find(xs, xs[i]);
    assert xs[j] == xs[i];
  }

  /** No element occurs twice exactly when every element occurs at most once in the multiset. */
  lemma {:induction false} NoDupCounts<T>(xs: seq<T>)
    ensures NoDup(xs) <==> forall x :: multiset(xs)[x] <= 1
  {
    if |xs| > 0 {
      var rest := xs[1..];
      assert xs == [xs[0]] + rest;
      NoDupCounts(rest);
      if NoDup(xs) {
        assert NoDup(rest) by {
          forall i, j | 0 <= i < j < |rest| ensures rest[i] != rest[j] {
            assert rest[i] == xs[i + 1] && rest[j] == xs[j + 1];
          }
        }
        assert xs[0] !in rest by {
          forall k | 0 <= k < |rest| ensures rest[k] != xs[0] {
            assert rest[k] == xs[k + 1];
          }
        }
      }
      if forall x :: multiset(xs)[x] <= 1 {
        forall x ensures multiset(rest)[x] <= 1 {
          assert multiset(xs)[x] == multiset([xs[0]])[x] + multiset(rest)[x];
        }
        assert multiset(xs)[xs[0]] == 1 + multiset(rest)[xs[0]];
        forall i, j | 0 <= i < j < |xs| ensures xs[i] != xs[j] {
          if i == 0 {
            assert xs[j] == rest[j - 1];
            assert xs[j] in multiset(rest);
          } else {
            assert xs[i] == rest[i - 1] && xs[j] == rest[j - 1];
          }
        }
      }
    }
  }

  /** Reordering keeps a sequence free of duplicates. */
  lemma NoDupPermutation<T>(xs: seq<T>, ys: seq<T>)
    requires multiset(xs) == multiset(ys) && NoDup(xs)
    ensures NoDup(ys)
  {
    NoDupCounts(xs);
    NoDupCounts(ys);
  }

  /** `a` first occurs strictly before `b` first occurs. */
  predicate Precedes<T(==)>(xs: seq<T>, a: T, b: T)
  {
    a in xs && b in xs && Find(xs, a) < Find(xs, b)
  }

  /** In a duplicate-free sequence, order of first occurrence is order of position. */
  lemma PrecedesIndex<T>(xs: seq<T>, i: nat, j: nat)
    requires NoDup(xs) && i < |xs| && j < |xs|
    ensures Precedes(xs, xs[i], xs[j]) <==> i < j
  {
    FindNoDup(xs, i);
    FindNoDup(xs, j);
  }

  /** An element that first occurs right after `pre` precedes anything that only occurs after it. */
  lemma PrecedesAfter<T>(pre: seq<T>, a: T, later: seq<T>, b: T)
    requires a !in pre && b !in pre && b != a && b in later
    ensures Precedes(pre + [a] + later, a, b)
  {
    var xs := pre + [a] + later;
    assert xs[|pre|] == a;
    var i := Find(xs, a);
    var j := Find(xs, b);
    assert i == |pre| && j > |pre|;
  }

  /** Putting one element in front shifts every other first occurrence by one. */
  lemma FindCons<T>(x: T, ys: seq<T>, a: T)
    requires a in ys && a != x
    ensures Find([x] + ys, a) == 1 + Find(ys, a)
  {
    assert ([x] + ys)[1..] == ys;
  }

  /** A first occurrence inside a prefix is the first occurrence in the whole. */
  lemma FindPrefix<T>(xs: seq<T>, ys: seq<T>, a: T)
    requires a in xs
    ensures Find(xs + ys, a) == Find(xs, a)
  {
    var i := Find(xs, a);
    assert (xs + ys)[i] == a;
    assert (xs + ys)[..i] == xs[..i];
    var j := Find(xs + ys, a);
    assert j <= i;
  }

  /** Membership in a list of at most one element. */
  lemma InOptional<T>(b: bool, x: T, y: T)
    ensures y in (if b then [x] else []) <==> b && y == x
  {
  }

  /** The concatenation of `f(x)` for every `x`, in order. */
  function FlatMap<T, U>(xs: seq<T>, f: T -> seq<U>): seq<U>
  {
    if |xs| == 0 then [] else f(xs[0]) + FlatMap(xs[1..], f)
  }

  /** An element is collected exactly when some input produces it. */
  lemma {:induction false} FlatMapIn<T, U>(xs: seq<T>, f: T -> seq<U>, y: U)
    ensures y in FlatMap(xs, f) <==> exists x :: x in xs && y in f(x)
  {
    if |xs| > 0 {
      FlatMapIn(xs[1..], f, y);
      assert xs == [xs[0]] + xs[1..];
      if y in FlatMap(xs, f) && y !in f(xs[0]) {
        var x :| x in xs[1..] && y in f(x);
        assert x in xs;
      }
    }
  }

  /** Collecting over two runs of inputs is collecting over each, one after the other. */
  lemma {:induction false} FlatMapAppend<T, U>(xs: seq<T>, ys: seq<T>, f: T -> seq<U>)
    ensures FlatMap(xs + ys, f) == FlatMap(xs, f) + FlatMap(ys, f)
  {
    if |xs| > 0 {
      assert (xs + ys)[0] == xs[0];
      assert (xs + ys)[1..] == xs[1..] + ys;
      FlatMapAppend(xs[1..], ys, f);
    } else {
      assert xs + ys == ys;
    }
  }

  /**
   * The same, when each step may throw: the first exception ends the run
   * and is the run's outcome.
   */
  function FlatMapResult<T, U, E>(xs: seq<T>, f: T -> Result<seq<U>, E>): Result<seq<U>, E>
  {
    if |xs| == 0 then Ok([])
    else
      var first :- f(xs[0]);
      var rest :- FlatMapResult(xs[1..], f);
      Ok(first + rest)
  }

  /**
   * A run fails exactly when some step fails, and then with the exception
   * of the first failing step.
   */
  lemma {:induction false} FlatMapResultErr<T, U, E>(xs: seq<T>, f: T -> Result<seq<U>, E>)
    ensures FlatMapResult(xs, f).Err? <==> exists x :: x in xs && f(x).Err?
    ensures FlatMapResult(xs, f).Err? ==>
      exists i :: 0 <= i < |xs| && f(xs[i]) == Err(FlatMapResult(xs, f).error)
        && forall j :: 0 <= j < i ==> f(xs[j]).Ok?
  {
    if |xs| > 0 {
      FlatMapResultErr(xs[1..], f);
      assert xs == [xs[0]] + xs[1..];
      var r := FlatMapResult(xs, f);
      if f(xs[0]).Err? {
        assert f(xs[0 as int]) == Err(r.error);
      } else if r.Err? {
        var i :| 0 <= i < |xs[1..]| && f(xs[1..][i]) == Err(r.error)
          && forall j :: 0 <= j < i ==> f(xs[1..][j]).Ok?;
        assert f(xs[i + 1]) == Err(r.error);
        forall j | 0 <= j < i + 1 ensures f(xs[j]).Ok? {
          if j > 0 {
            assert xs[j] == xs[1..][j - 1];
          }
        }
      } else {
        forall x | x in xs ensures f(x).Ok? {
          if x != xs[0] {
            assert x in xs[1..];
          }
        }
      }
    }
  }

  /** A run that succeeds collects exactly what its steps produce. */
  lemma {:induction false} FlatMapResultIn<T, U, E>(xs: seq<T>, f: T -> Result<seq<U>, E>, y: U)
    requires FlatMapResult(xs, f).Ok?
    ensures forall x :: x in xs ==> f(x).Ok?
    ensures y in FlatMapResult(xs, f).value <==> exists x :: x in xs && y in f(x).value
  {
    FlatMapResultErr(xs, f);
    if |xs| > 0 {
      FlatMapResultIn(xs[1..], f, y);
      assert xs == [xs[0]] + xs[1..];
      if y in FlatMapResult(xs, f).value && y !in f(xs[0]).value {
        var x :| x in xs[1..] && y in f(x).value;
        assert x in xs;
      }
    }
  }

  /** The total of `g` over the elements of `xs`, an element occurring twice counted twice. */
  function Sum<T>(xs: seq<T>, g: T -> nat): nat
  {
    if |xs| == 0 then 0 else g(xs[0]) + Sum(xs[1..], g)
  }

  /** A list of at most one element holds `y` once when it is `[y]`, and otherwise not at all. */
  lemma CountOptional<T>(b: bool, x: T, y: T)
    ensures multiset(if b then [x] else [])[y] == if b && y == x then 1 else 0
  {
  }

  /**
   * How often a collected element occurs: the sum, over the inputs, of how
   * often each input produces it.
   */
  lemma {:induction false} FlatMapCount<T, U>(xs: seq<T>, f: T -> seq<U>, y: U, g: T -> nat)
    requires forall i :: 0 <= i < |xs| ==> multiset(f(xs[i]))[y] == g(xs[i])
    ensures multiset(FlatMap(xs, f))[y] == Sum(xs, g)
  {
    if |xs| > 0 {
      FlatMapCount(xs[1..], f, y, g);
      assert multiset(f(xs[0]) + FlatMap(xs[1..], f)) == multiset(f(xs[0])) + multiset(FlatMap(xs[1..], f));
    }
  }

  /** The same for a run that succeeds: every step succeeded, and the counts add up. */
  lemma {:induction false} FlatMapResultCount<T, U, E>(xs: seq<T>, f: T -> Result<seq<U>, E>, y: U, g: T -> nat)
    requires FlatMapResult(xs, f).Ok?
    requires forall i :: 0 <= i < |xs| && f(xs[i]).Ok? ==> multiset(f(xs[i]).value)[y] == g(xs[i])
    ensures multiset(FlatMapResult(xs, f).value)[y] == Sum(xs, g)
  {
    if |xs| > 0 {
      var first := f(xs[0]).value;
      var rest := FlatMapResult(xs[1..], f).value;
      FlatMapResultCount(xs[1..], f, y, g);
      assert multiset(first + rest) == multiset(first) + multiset(rest);
    }
  }

  /** An input that produces nothing can be dropped from a run. */
  lemma FlatMapSkip<T, U>(xs: seq<T>, x: T, ys: seq<T>, f: T -> seq<U>)
    requires f(x) == []
    ensures FlatMap(xs + [x] + ys, f) == FlatMap(xs + ys, f)
  {
    FlatMapAppend(xs + [x], ys, f);
    FlatMapAppend(xs, [x], f);
    FlatMapAppend(xs, ys, f);
    assert FlatMap([x], f) == f(x) + FlatMap([], f);
  }

  /** A run over `xs + ys` is the run over `xs`, then, if it succeeded, the run over `ys`. */
  lemma {:induction false} FlatMapResultAppend<T, U, E>(xs: seq<T>, ys: seq<T>, f: T -> Result<seq<U>, E>)
    ensures FlatMapResult(xs + ys, f) ==
      match FlatMapResult(xs, f)
      case Err(e) => Err(e)
      case Ok(a) =>
        match FlatMapResult(ys, f)
        case Err(e) => Err(e)
        case Ok(b) => Ok(a + b)
  {
    if |xs| > 0 {
      assert (xs + ys)[0] == xs[0];
      assert (xs + ys)[1..] == xs[1..] + ys;
      FlatMapResultAppend(xs[1..], ys, f);
      if f(xs[0]).Ok? && FlatMapResult(xs[1..], f).Ok? && FlatMapResult(ys, f).Ok? {
        var a0 := f(xs[0]).value;
        ConcatAssoc(a0, FlatMapResult(xs[1..], f).value, FlatMapResult(ys, f).value);
      }
    } else {
      assert xs + ys == ys;
      if FlatMapResult(ys, f).Ok? {
        assert [] + FlatMapResult(ys, f).value == FlatMapResult(ys, f).value;
      }
    }
  }

  /** A step that succeeds with nothing can be dropped from a run that may fail. */
  lemma FlatMapResultSkip<T, U, E>(xs: seq<T>, x: T, ys: seq<T>, f: T -> Result<seq<U>, E>)
    requires f(x) == Ok([])
    ensures FlatMapResult(xs + [x] + ys, f) == FlatMapResult(xs + ys, f)
  {
    FlatMapResultAppend(xs + [x], ys, f);
    FlatMapResultAppend(xs, [x], f);
    FlatMapResultAppend(xs, ys, f);
    assert [x][0] == x && [x][1..] == [];
    assert FlatMapResult([x][1..], f) == Ok([]);
    assert FlatMapResult([x], f) == Ok([] + []);
    assert FlatMapResult([x], f).value == [];
    if FlatMapResult(xs, f).Ok? {
      var a := FlatMapResult(xs, f).value;
      assert a + [] == a;
      assert FlatMapResult(xs + [x], f) == Ok(a);
    }
  }

  lemma ConcatAssoc<T>(a: seq<T>, b: seq<T>, c: seq<T>)
    ensures (a + b) + c == a + (b + c)
  {
  }

  lemma ConcatEmpty<T>(a: seq<T>)
    ensures [] + a == a && a + [] == a
  {
  }
}
