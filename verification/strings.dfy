/**
 * The handful of JavaScript string operations the extension relies on:
 * `split` on one character, `Array.prototype.join`, `trim`, substring
 * search, ASCII case folding and the decimal rendering of integers.
 */
module Strings {

  /** Index of the first occurrence of `c` in `s`. */
  function IndexOf(s: string, c: char): (r: nat)
    requires c in s
    ensures r < |s| && s[r] == c && c !in s[..r]
  {
    if s[0] == c then 0 else 1 + IndexOf(s[1..], c)
  }

  /** Index of the last occurrence of `c` in `s`, or -1 (`lastIndexOf`). */
  function LastIndexOf(s: string, c: char): (r: int)
    ensures -1 <= r < |s|
    ensures r == -1 <==> c !in s
    ensures r >= 0 ==> s[r] == c && c !in s[r + 1..]
  {
    if |s| == 0 then -1
    else if s[|s| - 1] == c then |s| - 1
    else
      assert s[..|s| - 1] + [s[|s| - 1]] == s;
      LastIndexOf(s[..|s| - 1], c)
  }

  /** `s.split(sep)` for a one-character separator: never empty, no part holds `sep`. */
  function Split(s: string, sep: char): (parts: seq<string>)
    ensures |parts| >= 1
    ensures forall k :: 0 <= k < |parts| ==> sep !in parts[k]
    decreases |s|
  {
    if sep !in s then [s]
    else
      var i := IndexOf(s, sep);
      [s[..i]] + Split(s[i + 1..], sep)
  }

  /** `parts.join(sep)`. */
  function Join(parts: seq<string>, sep: string): string
  {
    if |parts| == 0 then ""
    else if |parts| == 1 then parts[0]
    else parts[0] + sep + Join(parts[1..], sep)
  }

  /** A character in neither the parts nor the separator is not in their join. */
  lemma {:induction false} JoinAvoids(parts: seq<string>, sep: string, c: char)
    requires c !in sep && forall k :: 0 <= k < |parts| ==> c !in parts[k]
    ensures c !in Join(parts, sep)
  {
    if |parts| > 1 {
      JoinAvoids(parts[1..], sep, c);
      assert forall s: string, t: string :: c !in s && c !in t ==> c !in s + t;
    }
  }

  /** Joining the parts of a split with the separator gives back the string. */
  lemma {:induction false} JoinSplit(s: string, sep: char)
    ensures Join(Split(s, sep), [sep]) == s
    decreases |s|
  {
    if sep in s {
      var i := IndexOf(s, sep);
      var rest := Split(s[i + 1..], sep);
      JoinSplit(s[i + 1..], sep);
      assert Split(s, sep) == [s[..i]] + rest;
      assert Join(Split(s, sep), [sep]) == s[..i] + [sep] + s[i + 1..];
      assert s[..i] + [sep] + s[i + 1..] == s;
    }
  }

  /** Splitting a join of separator-free parts gives back the parts. */
  lemma {:induction false} SplitJoin(parts: seq<string>, sep: char)
    requires |parts| >= 1
    requires forall k :: 0 <= k < |parts| ==> sep !in parts[k]
    ensures Split(Join(parts, [sep]), sep) == parts
  {
    if |parts| > 1 {
      var tail := Join(parts[1..], [sep]);
      assert Join(parts, [sep]) == parts[0] + [sep] + tail;
      SplitCons(parts[0], tail, sep);
      SplitJoin(parts[1..], sep);
      assert parts == [parts[0]] + parts[1..];
    }
  }

  /** Splitting at a first separator: the part before it, then the split of the rest. */
  lemma SplitCons(a: string, b: string, sep: char)
    requires sep !in a
    ensures Split(a + [sep] + b, sep) == [a] + Split(b, sep)
  {
    var s := a + [sep] + b;
    assert s[|a|] == sep;
    assert s[..|a|] == a;
    assert IndexOf(s, sep) == |a|;
    assert s[|a| + 1..] == b;
  }

  /**
   * Splitting a join whose separator is `sep` followed by padding `pad`
   * gives back the parts, every one after the first carrying the padding.
   * `lead` is text before the first part.
   */
  lemma {:induction false} SplitJoinPadded(lead: string, parts: seq<string>, sep: char, pad: string)
    requires |parts| >= 1 && sep !in lead && sep !in pad
    requires forall k :: 0 <= k < |parts| ==> sep !in parts[k]
    ensures |Split(lead + Join(parts, [sep] + pad), sep)| == |parts|
    ensures Split(lead + Join(parts, [sep] + pad), sep)[0] == lead + parts[0]
    ensures forall k :: 1 <= k < |parts| ==> Split(lead + Join(parts, [sep] + pad), sep)[k] == pad + parts[k]
    decreases |parts|
  {
    var j := Join(parts, [sep] + pad);
    var first := lead + parts[0];
    assert sep !in first;
    if |parts| == 1 {
      assert lead + j == first;
    } else {
      var rest := Join(parts[1..], [sep] + pad);
      assert j == parts[0] + ([sep] + pad) + rest;
      assert lead + j == first + [sep] + (pad + rest);
      SplitCons(first, pad + rest, sep);
      var tail := Split(pad + rest, sep);
      SplitJoinPadded(pad, parts[1..], sep, pad);
      var whole := Split(lead + j, sep);
      assert whole == [first] + tail;
      forall k | 1 <= k < |parts| ensures whole[k] == pad + parts[k] {
        assert whole[k] == tail[k - 1];
        assert parts[1..][k - 1] == parts[k];
      }
    }
  }

  /**
   * The characters `String.prototype.trim` removes: ECMAScript WhiteSpace
   * (tab, vertical tab, form feed, space, no-break space, byte order mark and
   * the Unicode space separators) and LineTerminator.
   */
  predicate IsJsSpace(c: char)
  {
    || c == '\t' || c == '\U{000B}' || c == '\U{000C}' || c == ' '
    || c == '\U{00A0}' || c == '\U{FEFF}' || c == '\U{1680}'
    || ('\U{2000}' <= c <= '\U{200A}') || c == '\U{202F}' || c == '\U{205F}' || c == '\U{3000}'
    || c == '\n' || c == '\r' || c == '\U{2028}' || c == '\U{2029}'
  }

  /** Drops leading white space: the result is the suffix after a white-space run. */
  function TrimStart(s: string): (r: string)
    ensures |r| <= |s| && r == s[|s| - |r|..]
    ensures forall k :: 0 <= k < |s| - |r| ==> IsJsSpace(s[k])
    ensures |r| > 0 ==> !IsJsSpace(r[0])
  {
    if |s| > 0 && IsJsSpace(s[0]) then TrimStart(s[1..]) else s
  }

  /** Drops trailing white space: the result is the prefix before a white-space run. */
  function TrimEnd(s: string): (r: string)
    ensures |r| <= |s| && r == s[..|r|]
    ensures forall k :: |r| <= k < |s| ==> IsJsSpace(s[k])
    ensures |r| > 0 ==> !IsJsSpace(r[|r| - 1])
  {
    if |s| > 0 && IsJsSpace(s[|s| - 1]) then TrimEnd(s[..|s| - 1]) else s
  }

  /** Trimming the start removes exactly a white-space run before a non-space character. */
  lemma {:induction false} TrimStartRun(lead: string, x: string)
    requires forall k :: 0 <= k < |lead| ==> IsJsSpace(lead[k])
    requires |x| > 0 && !IsJsSpace(x[0])
    ensures TrimStart(lead + x) == x
    decreases |lead|
  {
    var s := lead + x;
    if |lead| == 0 {
      assert s == x;
    } else {
      assert s[0] == lead[0];
      assert s[1..] == lead[1..] + x;
      TrimStartRun(lead[1..], x);
    }
  }

  /** Trimming the end never reaches back past a non-space character. */
  lemma TrimEndKeeps(a: string, c: char, b: string)
    requires !IsJsSpace(c)
    ensures |TrimEnd(a + [c] + b)| > |a|
    ensures TrimEnd(a + [c] + b) == a + [c] + TrimEnd(a + [c] + b)[|a| + 1..]
  {
    var s := a + [c] + b;
    var r := TrimEnd(s);
    assert s[|a|] == c;
    assert |r| > |a|;
    assert r[..|a| + 1] == s[..|a| + 1] == a + [c];
  }

  /** `s.trim()`. */
  function Trim(s: string): (r: string)
    ensures |r| > 0 ==> !IsJsSpace(r[0]) && !IsJsSpace(r[|r| - 1])
    ensures exists i :: OccursAt(s, r, i)
  {
    var t := TrimStart(s);
    var r := TrimEnd(t);
    assert r == s[|s| - |t|..][..|r|] == s[|s| - |t|..|s| - |t| + |r|];
    assert OccursAt(s, r, |s| - |t|);
    r
  }

  /** `p` sits in `t` starting at index `i`. */
  predicate OccursAt(t: string, p: string, i: int)
  {
    0 <= i && i + |p| <= |t| && t[i..i + |p|] == p
  }

  /** `p` is a substring of `t`. */
  predicate Contains(t: string, p: string)
  {
    exists i :: 0 <= i <= |t| - |p| && OccursAt(t, p, i)
  }

  /** A string contains one of its own length only by being equal to it. */
  lemma ContainsSameLength(t: string, p: string)
    requires |t| == |p|
    ensures Contains(t, p) <==> t == p
  {
    if t == p {
      assert t[0..|p|] == t;
      assert OccursAt(t, p, 0);
    }
  }

  /** Simple case folding of one character (ASCII letters only). */
  function Lower(c: char): char
  {
    if 'A' <= c <= 'Z' then (c as int + 32) as char else c
  }

  function LowerAll(s: string): (r: string)
    ensures |r| == |s|
    ensures forall k :: 0 <= k < |s| ==> r[k] == Lower(s[k])
  {
    seq(|s|, k requires 0 <= k < |s| => Lower(s[k]))
  }

  /** Lower-casing twice is lower-casing once. */
  lemma LowerAllIdempotent(s: string)
    ensures LowerAll(LowerAll(s)) == LowerAll(s)
  {
    forall k | 0 <= k < |s| ensures Lower(Lower(s[k])) == Lower(s[k]) {
      if 'A' <= s[k] <= 'Z' {
        assert 'a' <= Lower(s[k]) <= 'z';
      }
    }
  }

  /** `p` occurs in `t` when both are case folded. */
  predicate ContainsIgnoreCase(t: string, p: string)
  {
    Contains(LowerAll(t), LowerAll(p))
  }

  /** The decimal digit character of `d`. */
  function DigitChar(d: nat): char
    requires d < 10
  {
    ('0' as int + d) as char
  }

  predicate IsDigit(c: char)
  {
    '0' <= c <= '9'
  }

  /** The decimal rendering of a natural number, as `String(n)` gives it. */
  function NatToString(n: nat): (r: string)
    ensures |r| >= 1
    ensures forall k :: 0 <= k < |r| ==> IsDigit(r[k])
  {
    if n < 10 then [DigitChar(n)] else NatToString(n / 10) + [DigitChar(n % 10)]
  }

  /** The decimal rendering of an integer, with a leading `-` when negative. */
  function IntToString(i: int): string
  {
    if i < 0 then "-" + NatToString(-i) else NatToString(i)
  }

  /** Reads a string of decimal digits back into its value. */
  function ParseNat(s: string): nat
    requires forall k :: 0 <= k < |s| ==> IsDigit(s[k])
  {
    if |s| == 0 then 0
    else
      assert IsDigit(s[|s| - 1]);
      ParseNat(s[..|s| - 1]) * 10 + (s[|s| - 1] as int - '0' as int)
  }

  /** Reads an optionally negative decimal integer back into its value. */
  function ParseInt(s: string): int
  {
    if |s| > 0 && s[0] == '-' && forall k :: 1 <= k < |s| ==> IsDigit(s[k])
    then 0 - ParseNat(s[1..])
    else if forall k :: 0 <= k < |s| ==> IsDigit(s[k]) then ParseNat(s)
    else 0
  }

  lemma {:induction false} ParseNatToString(n: nat)
    ensures ParseNat(NatToString(n)) == n
  {
    if n >= 10 {
      var r := NatToString(n);
      assert r[..|r| - 1] == NatToString(n / 10);
      ParseNatToString(n / 10);
    }
  }

  /** A minus sign before digits reads as the negated digits. */
  lemma ParseNegative(d: string)
    requires forall k :: 0 <= k < |d| ==> IsDigit(d[k])
    ensures ParseInt("-" + d) == 0 - ParseNat(d)
  {
    var s := "-" + d;
    assert s[0] == '-' && s[1..] == d;
    forall k | 1 <= k < |s| ensures IsDigit(s[k]) {
      assert s[k] == d[k - 1];
    }
  }

  /** Digits alone read as their value. */
  lemma ParseDigits(d: string)
    requires |d| > 0 && forall k :: 0 <= k < |d| ==> IsDigit(d[k])
    ensures ParseInt(d) == ParseNat(d)
  {
    assert IsDigit(d[0]) && d[0] != '-';
  }

  /** Integer rendering is injective: parsing recovers the number. */
  lemma ParseIntToString(i: int)
    ensures ParseInt(IntToString(i)) == i
  {
    if i < 0 {
      ParseNegative(NatToString(-i));
      ParseNatToString(-i);
    } else {
      ParseDigits(NatToString(i));
      ParseNatToString(i);
    }
  }
}
