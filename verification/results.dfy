/**
 * `calculateResults` and `truncateValue`: one ranked result per technology
 * with evidence, its confidence the rounded mean of its items' confidences
 * capped at 100, its evidence values shortened for display.
 */
module Results {
  import opened Seqs
  import opened Sorting
  import opened Evidence

  /** An evidence item as a result shows it: its type and display value. */
  datatype Shown = Shown(kind: Kind, value: string)

  /** `{name, confidence, evidenceCount, evidence}`. */
  datatype TechResult = TechResult(name: string, confidence: int, evidenceCount: nat, evidence: seq<Shown>)

  /** `truncateValue`'s default `maxLength`. */
  const MaxValueLength: nat := 100

  /**
   * `truncateValue`: a value longer than 100 characters is cut to its first
   * 100 and gets `...`; shorter values are shown as they are.
   */
  function TruncateValue(v: string): (r: string)
    ensures |r| <= MaxValueLength + 3
    ensures |v| <= MaxValueLength ==> r == v
    ensures |v| > MaxValueLength ==>
      |r| == MaxValueLength + 3 && r[..MaxValueLength] == v[..MaxValueLength] && r[MaxValueLength..] == "..."
  {
    if |v| > MaxValueLength then v[..MaxValueLength] + "..." else v
  }

  /** Shortening a shortened value changes nothing. */
  lemma TruncateIdempotent(v: string)
    ensures TruncateValue(TruncateValue(v)) == TruncateValue(v)
  {
    var r := TruncateValue(v);
    if |v| > MaxValueLength {
      assert r == r[..MaxValueLength] + r[MaxValueLength..];
    }
  }

  /** The sum of the items' confidences (`reduce((sum, e) => sum + e.confidence, 0)`). */
  function Total(items: seq<Item>): int
  {
    if |items| == 0 then 0 else Total(items[..|items| - 1]) + items[|items| - 1].confidence
  }

  /**
   * `Math.round(sum / n)` for a positive count: the nearest integer to the
   * mean, halves rounded up.
   */
  function RoundedMean(sum: int, n: nat): (r: int)
    requires n > 0
    ensures 2 * n * r <= 2 * sum + n < 2 * n * (r + 1)
  {
    (2 * sum + n) / (2 * n)
  }

  /** The aggregate confidence: the rounded mean, capped at 100. */
  function Aggregate(items: seq<Item>): (c: int)
    requires |items| > 0
    ensures c <= 100
  {
    var m := RoundedMean(Total(items), |items|);
    if m < 100 then m else 100
  }

  /** A sum of `n` terms within `[lo, hi]` lies within `[n * lo, n * hi]`. */
  lemma {:induction false} TotalWithin(items: seq<Item>, lo: int, hi: int)
    requires forall k :: 0 <= k < |items| ==> lo <= items[k].confidence <= hi
    ensures |items| * lo <= Total(items) <= |items| * hi
  {
    if |items| > 0 {
      TotalWithin(items[..|items| - 1], lo, hi);
    }
  }

  /** A rounded mean of values in `[lo, hi]` is in `[lo, hi]`. */
  lemma MeanWithin(sum: int, n: nat, lo: int, hi: int)
    requires n > 0 && n * lo <= sum <= n * hi
    ensures lo <= RoundedMean(sum, n) <= hi
  {
    var r := RoundedMean(sum, n);
    var m := 2 * n;
    assert m * lo == 2 * (n * lo) && m * hi == 2 * (n * hi);
    assert m * (hi + 1) == m * hi + m && m * (r + 1) == m * r + m;
    assert m * r < m * (hi + 1);
    MulStrict(m, r, hi + 1);
    assert m * lo < m * (r + 1);
    MulStrict(m, lo, r + 1);
  }

  /** Multiplying by a positive factor keeps strict order, and only then. */
  lemma {:induction false} MulStrict(c: nat, a: int, b: int)
    requires c > 0
    ensures c * a < c * b <==> a < b
    decreases c
  {
    if c > 1 {
      MulStrict(c - 1, a, b);
      assert c * a == (c - 1) * a + a && c * b == (c - 1) * b + b;
    }
  }

  /**
   * The aggregate confidence lies between the smallest and the largest item
   * confidence whenever those are at most 100.
   */
  lemma AggregateWithin(items: seq<Item>, lo: int, hi: int)
    requires |items| > 0 && hi <= 100
    requires forall k :: 0 <= k < |items| ==> lo <= items[k].confidence <= hi
    ensures lo <= Aggregate(items) <= hi
  {
    TotalWithin(items, lo, hi);
    MeanWithin(Total(items), |items|, lo, hi);
  }

  /** The result of one technology: its items summarised, in order. */
  function Summarize(name: string, items: seq<Item>): (r: TechResult)
    requires |items| > 0
    ensures r.name == name && r.evidenceCount == |items| == |r.evidence|
    ensures forall k :: 0 <= k < |items| ==>
      r.evidence[k].kind == items[k].kind && r.evidence[k].value == TruncateValue(items[k].value)
  {
    TechResult(name, Aggregate(items), |items|,
      seq(|items|, k requires 0 <= k < |items| => Shown(items[k].kind, TruncateValue(items[k].value))))
  }

  function Confidence(r: TechResult): int
  {
    r.confidence
  }

  /** The results before ranking, in the order the names were recorded. */
  function Unranked(s: Store): (u: seq<TechResult>)
    requires Valid(s)
    ensures |u| == |s.detected|
    ensures forall k :: 0 <= k < |u| ==> u[k] == Summarize(s.detected[k], ItemsOf(s, s.detected[k]))
  {
    seq(|s.detected|, k requires 0 <= k < |s.detected| => Summarize(s.detected[k], ItemsOf(s, s.detected[k])))
  }

  /** `calculateResults`: the summaries, stably sorted by descending confidence. */
  function CalculateResults(s: Store): (r: seq<TechResult>)
    requires Valid(s)
    ensures multiset(r) == multiset(Unranked(s))
    ensures SortedDesc(r, Confidence)
  {
    SortDesc(Unranked(s), Confidence)
  }

  /**
   * Exactly one result per recorded name: every result belongs to a recorded
   * name and summarises that name's whole evidence list, and no result
   * occurs twice.
   */
  lemma OneResultPerTech(s: Store)
    requires Valid(s)
    ensures |CalculateResults(s)| == |s.detected|
    ensures NoDup(CalculateResults(s))
    ensures forall x :: x in CalculateResults(s) <==>
      x.name in s.detected && x == Summarize(x.name, ItemsOf(s, x.name))
  {
    var u := Unranked(s);
    var r := CalculateResults(s);
    assert |r| == |multiset(r)| == |multiset(u)| == |u|;
    UnrankedNoDup(s);
    forall x ensures x in r <==> x in u {
      assert x in r <==> x in multiset(r);
      assert x in u <==> x in multiset(u);
    }
    forall x ensures x in u <==> x.name in s.detected && x == Summarize(x.name, ItemsOf(s, x.name)) {
      if x.name in s.detected && x == Summarize(x.name, ItemsOf(s, x.name)) {
        var k := Find(s.detected, x.name);
        assert u[k] == x;
      }
    }
  }

  /** No two summaries of distinct names are equal, before or after ranking. */
  lemma UnrankedNoDup(s: Store)
    requires Valid(s)
    ensures NoDup(Unranked(s)) && NoDup(CalculateResults(s))
  {
    var u := Unranked(s);
    forall i, j | 0 <= i < j < |u| ensures u[i] != u[j] {
      assert u[i].name == s.detected[i] && u[j].name == s.detected[j];
    }
    NoDupPermutation(u, CalculateResults(s));
  }

  /** Before ranking, summaries come in the order their names were recorded. */
  lemma UnrankedPrecedes(s: Store, x: TechResult, y: TechResult)
    requires Valid(s) && x in Unranked(s) && y in Unranked(s)
    ensures Precedes(Unranked(s), x, y) <==> Precedes(s.detected, x.name, y.name)
  {
    var u := Unranked(s);
    UnrankedNoDup(s);
    var a, b := Find(u, x), Find(u, y);
    FindNoDup(s.detected, a);
    FindNoDup(s.detected, b);
    assert u[a].name == s.detected[a] && u[b].name == s.detected[b];
  }

  /**
   * Among results of equal confidence, ranking keeps the order in which the
   * names were recorded.
   */
  lemma TiesKeepRecordedOrder(s: Store, i: nat, j: nat)
    requires Valid(s)
    requires i < |CalculateResults(s)| && j < |CalculateResults(s)|
    requires CalculateResults(s)[i].confidence == CalculateResults(s)[j].confidence
    ensures i < j <==> Precedes(s.detected, CalculateResults(s)[i].name, CalculateResults(s)[j].name)
  {
    var u := Unranked(s);
    var r := CalculateResults(s);
    UnrankedNoDup(s);
    PrecedesIndex(r, i, j);
    var x, y := r[i], r[j];
    assert x in multiset(u) && y in multiset(u);
    StableOrder(u, Confidence, x, y);
    UnrankedPrecedes(s, x, y);
  }

}
