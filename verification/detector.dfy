/**
 * `detect`: one detection pass. Both maps are emptied, the six channels run
 * in order (globals, scripts, meta, links, cookies, markup), every hit is
 * added to the store, and the store is summarised and ranked.
 */
module Detector {
  import opened Wrappers
  import opened Seqs
  import opened Sorting
  import opened Patterns
  import opened Evidence
  import opened Catalog
  import opened Channels
  import opened Results

  /**
   * The hits of one pass in the order `detect` records them. A pattern of
   * the script, meta or link channel that does not compile ends the pass
   * with its error; the channels after it never run.
   */
  function PassHits(eng: RegexEngine, fps: seq<Fingerprint>, page: Page): Result<seq<Hit>, CompileError>
  {
    var scripts :- UrlChannel(eng, fps, ScriptSrc, page.scriptSrcs);
    var meta :- MetaChannel(eng, fps, page.metaTags);
    var links :- UrlChannel(eng, fps, LinkHref, page.linkHrefs);
    Ok(JsChannel(page.window, fps) + scripts + meta + links
      + CookieChannel(fps, CookieNames(page.cookie)) + HtmlChannel(eng, fps, HtmlBlob(page)))
  }

  /** The ranked results of a run of hits recorded into an emptied store. */
  function Rank(hits: seq<Hit>): (r: seq<TechResult>)
    ensures SortedDesc(r, Confidence)
    ensures forall k :: 0 <= k < |r| ==> r[k].confidence <= 100 && r[k].evidenceCount > 0
  {
    assert Valid(Empty);
    var s := AddAll(Empty, hits);
    var r := CalculateResults(s);
    OneResultPerTech(s);
    assert forall k :: 0 <= k < |r| ==> r[k] in r;
    r
  }

  /** `detect(fingerprints)` on a page. */
  function Detect(eng: RegexEngine, fps: seq<Fingerprint>, page: Page): (r: Result<seq<TechResult>, CompileError>)
    ensures r.Err? <==> PassHits(eng, fps, page).Err?
    ensures r.Ok? ==> SortedDesc(r.value, Confidence)
    ensures r.Ok? ==> forall k :: 0 <= k < |r.value| ==> r.value[k].confidence <= 100 && r.value[k].evidenceCount > 0
  {
    var hits :- PassHits(eng, fps, page);
    Ok(Rank(hits))
  }

  /**
   * A pass fails exactly when a script or link pattern, or a meta pattern
   * that gets compiled, does not compile; markup patterns and throwing
   * getters never fail it.
   */
  lemma PassFails(eng: RegexEngine, fps: seq<Fingerprint>, page: Page)
    ensures PassHits(eng, fps, page).Err? <==>
      || (exists fp, p :: fp in fps && p in PatternsOf(fp, ScriptSrc) && PatternToRegex(eng, p).Err?)
      || (exists fp, rule, t, p :: fp in fps && rule in MetaRulesOf(fp) && t in page.metaTags
            && Selects(t, rule.key) && p in rule.patterns && PatternToRegex(eng, p).Err?)
      || (exists fp, p :: fp in fps && p in PatternsOf(fp, LinkHref) && PatternToRegex(eng, p).Err?)
  {
    UrlChannelErr(eng, fps, ScriptSrc, page.scriptSrcs);
    MetaChannelErr(eng, fps, page.metaTags);
    UrlChannelErr(eng, fps, LinkHref, page.linkHrefs);
  }

  /** A fingerprint that lists no pattern for any channel, as one without `matchers`. */
  predicate Silent(fp: Fingerprint)
  {
    && PatternsOf(fp, JsGlobal) == []
    && PatternsOf(fp, ScriptSrc) == []
    && MetaRulesOf(fp) == []
    && PatternsOf(fp, LinkHref) == []
    && PatternsOf(fp, Cookie) == []
    && PatternsOf(fp, HtmlPattern) == []
  }

  lemma NoMatchersSilent(fp: Fingerprint)
    requires fp.matchers.None?
    ensures Silent(fp)
  {
  }

  /** A fingerprint without patterns can be removed from the catalogue without changing the pass. */
  lemma SilentIgnored(eng: RegexEngine, a: seq<Fingerprint>, fp: Fingerprint, b: seq<Fingerprint>, page: Page)
    requires Silent(fp)
    ensures PassHits(eng, a + [fp] + b, page) == PassHits(eng, a + b, page)
    ensures Detect(eng, a + [fp] + b, page) == Detect(eng, a + b, page)
  {
    FlatMapSkip(a, fp, b, JsHits(page.window));
    FlatMapResultSkip(a, fp, b, UrlHits(eng, ScriptSrc, page.scriptSrcs));
    FlatMapResultSkip(a, fp, b, MetaHits(eng, page.metaTags));
    FlatMapResultSkip(a, fp, b, UrlHits(eng, LinkHref, page.linkHrefs));
    FlatMapSkip(a, fp, b, CookieHits(CookieNames(page.cookie)));
    FlatMapSkip(a, fp, b, HtmlHits(eng, HtmlBlob(page)));
  }

  /**
   * One result per technology with a hit: a result is exactly the summary
   * of all the hits of its name, in hit order, and no two results share a
   * name.
   */
  lemma RankResults(hits: seq<Hit>)
    ensures forall x :: x in Rank(hits) <==>
      x.name in Techs(hits) && x == Summarize(x.name, ItemsFor(hits, x.name))
    ensures forall i, j :: 0 <= i < j < |Rank(hits)| ==> Rank(hits)[i].name != Rank(hits)[j].name
  {
    var s := AddAll(Empty, hits);
    var r := Rank(hits);
    assert Valid(Empty);
    OneResultPerTech(s);
    forall n ensures n in s.detected <==> n in Techs(hits) {
      AddAllNames(Empty, hits, n);
    }
    forall n ensures ItemsOf(s, n) == ItemsFor(hits, n) {
      AddAllItems(Empty, hits, n);
      assert ItemsOf(Empty, n) == [];
    }
    forall i, j | 0 <= i < j < |r| ensures r[i].name != r[j].name {
      assert r[i] in r && r[j] in r;
    }
  }

  /** Two names in a list are ordered one way or the other. */
  lemma PrecedesTotal<T>(xs: seq<T>, a: T, b: T)
    requires a in xs && b in xs && a != b
    ensures Precedes(xs, a, b) || Precedes(xs, b, a)
  {
  }

  /** Names are recorded in the order of their first hit. */
  lemma RecordedInHitOrder(hits: seq<Hit>, a: string, b: string)
    requires a in Techs(hits) && b in Techs(hits)
    ensures Precedes(AddAll(Empty, hits).detected, a, b) <==> Precedes(Techs(hits), a, b)
  {
    assert Valid(Empty);
    if a != b {
      if Precedes(Techs(hits), a, b) {
        FirstHitOrder(Empty, hits, a, b);
      } else {
        PrecedesTotal(Techs(hits), a, b);
        FirstHitOrder(Empty, hits, b, a);
      }
    }
  }

  /**
   * Results of equal confidence come in the order of their technologies'
   * first hits: channel order first, catalogue order within a channel.
   */
  lemma RankTies(hits: seq<Hit>, i: nat, j: nat)
    requires i < |Rank(hits)| && j < |Rank(hits)|
    requires Rank(hits)[i].confidence == Rank(hits)[j].confidence
    ensures i < j <==> Precedes(Techs(hits), Rank(hits)[i].name, Rank(hits)[j].name)
  {
    var s := AddAll(Empty, hits);
    var r := Rank(hits);
    assert Valid(Empty);
    TiesKeepRecordedOrder(s, i, j);
    RankResults(hits);
    assert r[i] in r && r[j] in r;
    RecordedInHitOrder(hits, r[i].name, r[j].name);
  }
}
