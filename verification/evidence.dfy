/**
 * The evidence store of one detection pass (`addEvidence`): for every
 * technology name, in the order names were first seen, the list of evidence
 * items found for it. The detector keeps the order in `detectedTechnologies`
 * and the lists in `evidence`; both are filled together.
 */
module Evidence {
  import opened Seqs

  /** The six evidence channels, in the order a pass runs them. */
  datatype Kind = JsGlobal | ScriptSrc | Meta | LinkHref | Cookie | HtmlPattern

  /** The confidence a channel reports when the fingerprint gives none. */
  function DefaultConfidence(k: Kind): int
  {
    match k
    case JsGlobal => 80
    case ScriptSrc => 90
    case Meta => 85
    case LinkHref => 75
    case Cookie => 70
    case HtmlPattern => 60
  }

  /** The `type` string an evidence item carries. */
  function TypeName(k: Kind): string
  {
    match k
    case JsGlobal => "js_global"
    case ScriptSrc => "script_src"
    case Meta => "meta"
    case LinkHref => "link_href"
    case Cookie => "cookie"
    case HtmlPattern => "html_pattern"
  }

  /** One evidence item: `{type, value, confidence}`. */
  datatype Item = Item(kind: Kind, value: string, confidence: int)

  /** A call `addEvidence(tech, type, value, confidence)`, as data. */
  datatype Hit = Hit(tech: string, item: Item)

  /** The two maps of the detector: names in insertion order and their evidence lists. */
  datatype Store = Store(detected: seq<string>, evidence: map<string, seq<Item>>)

  /**
   * What `addEvidence` keeps true: each name is recorded once, the two maps
   * have the same keys, and every recorded name has at least one item.
   */
  ghost predicate Valid(s: Store)
  {
    && NoDup(s.detected)
    && (forall n :: n in s.evidence <==> n in s.detected)
    && (forall n :: n in s.evidence ==> |s.evidence[n]| > 0)
  }

  /** The evidence list of `n`, empty when `n` has none. */
  function ItemsOf(s: Store, n: string): seq<Item>
  {
    if n in s.evidence then s.evidence[n] else []
  }

  /** The store after `clear()`. */
  const Empty: Store := Store([], map[])

  /**
   * `addEvidence`: appends the item to the name's list, creating the list
   * (and recording the name last) when the name is new.
   */
  function AddEvidence(s: Store, tech: string, item: Item): (r: Store)
    ensures Valid(s) ==> Valid(r)
    ensures ItemsOf(r, tech) == ItemsOf(s, tech) + [item]
    ensures |s.detected| <= |r.detected| && r.detected[..|s.detected|] == s.detected
    ensures Valid(s) ==> (tech in s.detected <==> r.detected == s.detected)
  {
    if tech in s.evidence then
      Store(s.detected, s.evidence[tech := s.evidence[tech] + [item]])
    else
      var r := Store(s.detected + [tech], s.evidence[tech := [item]]);
      assert r.detected[..|s.detected|] == s.detected;
      r
  }

  /** The technology names of a run of hits, in order. */
  function Techs(hits: seq<Hit>): (r: seq<string>)
    ensures |r| == |hits| && forall k :: 0 <= k < |hits| ==> r[k] == hits[k].tech
  {
    seq(|hits|, k requires 0 <= k < |hits| => hits[k].tech)
  }

  /** The items of the hits for `n`, in order. */
  function ItemsFor(hits: seq<Hit>, n: string): (r: seq<Item>)
    ensures |r| > 0 <==> n in Techs(hits)
  {
    if |hits| == 0 then []
    else
      TechsCons(hits, n);
      (if hits[0].tech == n then [hits[0].item] else []) + ItemsFor(hits[1..], n)
  }

  lemma ItemsForCons(hits: seq<Hit>, n: string)
    requires |hits| > 0
    ensures ItemsFor(hits, n) == (if hits[0].tech == n then [hits[0].item] else []) + ItemsFor(hits[1..], n)
  {
  }

  /** `addEvidence` leaves every other name's list alone and records `tech` if it was new. */
  lemma AddEvidenceOthers(s: Store, tech: string, item: Item, n: string)
    ensures n != tech ==> ItemsOf(AddEvidence(s, tech, item), n) == ItemsOf(s, n)
    ensures Valid(s) ==> (n in AddEvidence(s, tech, item).detected <==> n in s.detected || n == tech)
  {
  }

  lemma AddEvidenceItems(s: Store, h: Hit, n: string)
    ensures ItemsOf(AddEvidence(s, h.tech, h.item), n) == ItemsOf(s, n) + (if h.tech == n then [h.item] else [])
  {
    AddEvidenceOthers(s, h.tech, h.item, n);
  }

  lemma TechsCons(hits: seq<Hit>, n: string)
    requires |hits| > 0
    ensures n in Techs(hits) <==> n == hits[0].tech || n in Techs(hits[1..])
  {
    assert Techs(hits) == [hits[0].tech] + Techs(hits[1..]);
  }

  /** A run of `addEvidence` calls, one per hit, in order. */
  function AddAll(s: Store, hits: seq<Hit>): (r: Store)
    ensures Valid(s) ==> Valid(r)
    ensures |s.detected| <= |r.detected| && r.detected[..|s.detected|] == s.detected
    decreases |hits|
  {
    if |hits| == 0 then s
    else
      var s' := AddEvidence(s, hits[0].tech, hits[0].item);
      var r := AddAll(s', hits[1..]);
      assert r.detected[..|s.detected|] == r.detected[..|s'.detected|][..|s.detected|];
      r
  }

  /** One step of a run: the first hit, then the rest. */
  lemma AddAllCons(s: Store, hits: seq<Hit>)
    requires |hits| > 0
    ensures AddAll(s, hits) == AddAll(AddEvidence(s, hits[0].tech, hits[0].item), hits[1..])
  {
  }

  /**
   * Every item is appended to its name's list, in hit order and without
   * deduplication; the list the name had before is kept as a prefix.
   */
  lemma {:induction false} AddAllItems(s: Store, hits: seq<Hit>, n: string)
    ensures ItemsOf(AddAll(s, hits), n) == ItemsOf(s, n) + ItemsFor(hits, n)
    decreases |hits|
  {
    if |hits| > 0 {
      var h := hits[0];
      var s' := AddEvidence(s, h.tech, h.item);
      var rest := hits[1..];
      AddAllItems(s', rest, n);
      AddEvidenceItems(s, h, n);
      ItemsForCons(hits, n);
      AddAllCons(s, hits);
      var mine := if h.tech == n then [h.item] else [];
      ConcatAssoc(ItemsOf(s, n), mine, ItemsFor(rest, n));
    }
  }

  /** The names recorded after a run are the ones before plus those of the hits. */
  lemma {:induction false} AddAllNames(s: Store, hits: seq<Hit>, n: string)
    requires Valid(s)
    ensures n in AddAll(s, hits).detected <==> n in s.detected || n in Techs(hits)
    decreases |hits|
  {
    if |hits| > 0 {
      var s' := AddEvidence(s, hits[0].tech, hits[0].item);
      AddAllNames(s', hits[1..], n);
      AddEvidenceOthers(s, hits[0].tech, hits[0].item, n);
      TechsCons(hits, n);
      AddAllCons(s, hits);
    }
  }

  /**
   * When `a` is the name just recorded (`s` to `s'`) and `b` is only recorded
   * later (`s'` to `r`), `a` precedes `b`.
   */
  lemma LaterNameAfter(s: Store, s': Store, r: Store, a: string, b: string)
    requires s'.detected == s.detected + [a] && a !in s.detected
    requires |s'.detected| <= |r.detected| && r.detected[..|s'.detected|] == s'.detected
    requires b in r.detected && b !in s'.detected
    ensures Precedes(r.detected, a, b)
  {
    var later := r.detected[|s'.detected|..];
    assert r.detected == s.detected + [a] + later;
    assert b in later;
    PrecedesAfter(s.detected, a, later, b);
  }

  /** A name not yet recorded is recorded last. */
  lemma AddEvidenceNew(s: Store, tech: string, item: Item)
    requires Valid(s) && tech !in s.detected
    ensures AddEvidence(s, tech, item).detected == s.detected + [tech]
  {
  }

  /** When the first hit is `a`'s, `a` is recorded before every name recorded later. */
  lemma FirstHitIsEarlier(s: Store, hits: seq<Hit>, a: string, b: string)
    requires Valid(s) && |hits| > 0 && hits[0].tech == a
    requires a !in s.detected && b !in s.detected && b != a && b in Techs(hits[1..])
    ensures Precedes(AddAll(s, hits).detected, a, b)
  {
    var s' := AddEvidence(s, a, hits[0].item);
    var r := AddAll(s', hits[1..]);
    AddAllCons(s, hits);
    AddEvidenceNew(s, a, hits[0].item);
    AddAllNames(s', hits[1..], b);
    LaterNameAfter(s, s', r, a, b);
  }

  /**
   * Names are recorded in the order of their first hit: a name whose first
   * hit comes earlier is recorded earlier.
   */
  lemma {:induction false} FirstHitOrder(s: Store, hits: seq<Hit>, a: string, b: string)
    requires Valid(s)
    requires a !in s.detected && b !in s.detected
    requires Precedes(Techs(hits), a, b)
    ensures Precedes(AddAll(s, hits).detected, a, b)
    decreases |hits|
  {
    var h := hits[0].tech;
    var rest := hits[1..];
    var ts := Techs(hits);
    assert ts == [h] + Techs(rest);
    if h == a {
      FirstHitIsEarlier(s, hits, a, b);
    } else {
      assert ts[0] == h;
      assert h != b;
      var s' := AddEvidence(s, h, hits[0].item);
      AddEvidenceOthers(s, h, hits[0].item, a);
      AddEvidenceOthers(s, h, hits[0].item, b);
      FindCons(h, Techs(rest), a);
      FindCons(h, Techs(rest), b);
      FirstHitOrder(s', rest, a, b);
      AddAllCons(s, hits);
    }
  }
}
