/**
 * The six evidence channels of a detection pass (`detectFrom*`). Each walks
 * the catalogue in order and, for every fingerprint, its patterns in order,
 * producing the `addEvidence` calls it would make as a list of hits.
 *
 * The script, link and meta channels compile their patterns outside any
 * `try`, so a pattern that does not compile ends the whole pass; the
 * JavaScript channel swallows a throwing getter and the HTML channel skips
 * a pattern that does not compile.
 */
module Channels {
  import opened Wrappers
  import opened Strings
  import opened Seqs
  import opened Globals
  import opened Patterns
  import opened Evidence
  import opened Catalog

  /** The hit a channel of kind `k` records for `fp`, with the channel's confidence. */
  function HitFor(fp: Fingerprint, k: Kind, value: string): Hit
  {
    Hit(fp.name, Item(k, value, ConfidenceFor(fp, k)))
  }

  // JavaScript globals (`detectFromJavaScript`)

  function GlobalHit(w: Value, fp: Fingerprint): string -> seq<Hit>
  {
    p => if GlobalExists(w, p) == Ok(true) then [HitFor(fp, JsGlobal, p)] else []
  }

  function JsHits(w: Value): Fingerprint -> seq<Hit>
  {
    fp => FlatMap(PatternsOf(fp, JsGlobal), GlobalHit(w, fp))
  }

  function JsChannel(w: Value, fps: seq<Fingerprint>): seq<Hit>
  {
    FlatMap(fps, JsHits(w))
  }

  lemma JsHitsIn(w: Value, fp: Fingerprint, h: Hit)
    ensures h in JsHits(w)(fp) <==>
      exists p :: p in PatternsOf(fp, JsGlobal) && Resolve(w, Split(p, '.')).Reached? && h == HitFor(fp, JsGlobal, p)
  {
    FlatMapIn(PatternsOf(fp, JsGlobal), GlobalHit(w, fp), h);
  }

  /**
   * A `js_globals` pattern is evidence exactly when its dotted path resolves
   * from the global object; the value recorded is the pattern. A path that
   * is missing or whose walk throws records nothing.
   */
  lemma JsChannelIn(w: Value, fps: seq<Fingerprint>, h: Hit)
    ensures h in JsChannel(w, fps) <==>
      exists fp, p :: fp in fps && p in PatternsOf(fp, JsGlobal)
        && Resolve(w, Split(p, '.')).Reached? && h == HitFor(fp, JsGlobal, p)
  {
    FlatMapIn(fps, JsHits(w), h);
    if h in JsChannel(w, fps) {
      var fp :| fp in fps && h in JsHits(w)(fp);
      JsHitsIn(w, fp, h);
    }
    if exists fp, p :: fp in fps && p in PatternsOf(fp, JsGlobal)
        && Resolve(w, Split(p, '.')).Reached? && h == HitFor(fp, JsGlobal, p) {
      var fp, p :| fp in fps && p in PatternsOf(fp, JsGlobal)
        && Resolve(w, Split(p, '.')).Reached? && h == HitFor(fp, JsGlobal, p);
      JsHitsIn(w, fp, h);
    }
  }

  /** 1 when `js_globals` pattern `p` of `fp` resolves and records `h`, else 0. */
  function JsPatternCount(w: Value, fp: Fingerprint, h: Hit): string -> nat
  {
    p => if Resolve(w, Split(p, '.')).Reached? && h == HitFor(fp, JsGlobal, p) then 1 else 0
  }

  /** How many `js_globals` patterns of `fp` resolve and record `h`. */
  function JsCount(w: Value, h: Hit): Fingerprint -> nat
  {
    fp => Sum(PatternsOf(fp, JsGlobal), JsPatternCount(w, fp, h))
  }

  lemma JsHitsCount(w: Value, fp: Fingerprint, h: Hit)
    ensures multiset(JsHits(w)(fp))[h] == JsCount(w, h)(fp)
  {
    var ps := PatternsOf(fp, JsGlobal);
    forall i | 0 <= i < |ps|
      ensures multiset(GlobalHit(w, fp)(ps[i]))[h] == JsPatternCount(w, fp, h)(ps[i])
    {
      CountOptional(GlobalExists(w, ps[i]) == Ok(true), HitFor(fp, JsGlobal, ps[i]), h);
    }
    FlatMapCount(ps, GlobalHit(w, fp), h, JsPatternCount(w, fp, h));
  }

  /**
   * The JavaScript channel records `h` once per fingerprint and
   * `js_globals` pattern that resolves and records it, so a fingerprint
   * listing a path twice has it counted twice.
   */
  lemma JsChannelCount(w: Value, fps: seq<Fingerprint>, h: Hit)
    ensures multiset(JsChannel(w, fps))[h] == Sum(fps, JsCount(w, h))
  {
    forall i | 0 <= i < |fps| ensures multiset(JsHits(w)(fps[i]))[h] == JsCount(w, h)(fps[i]) {
      JsHitsCount(w, fps[i], h);
    }
    FlatMapCount(fps, JsHits(w), h, JsCount(w, h));
  }

  // Script sources and link targets (`detectFromScripts`, `detectFromLinks`)

  function UrlHit(eng: RegexEngine, fp: Fingerprint, k: Kind, rx: RegExp): string -> seq<Hit>
  {
    u => if Test(eng, rx, u) then [HitFor(fp, k, u)] else []
  }

  /** One pattern: compiled once, before any URL is tested, then tested against every URL. */
  function UrlPatternHits(eng: RegexEngine, fp: Fingerprint, k: Kind, urls: seq<string>)
    : string -> Result<seq<Hit>, CompileError>
  {
    p => match PatternToRegex(eng, p)
      case Err(e) => Err(e)
      case Ok(rx) => Ok(FlatMap(urls, UrlHit(eng, fp, k, rx)))
  }

  function UrlHits(eng: RegexEngine, k: Kind, urls: seq<string>): Fingerprint -> Result<seq<Hit>, CompileError>
  {
    fp => FlatMapResult(PatternsOf(fp, k), UrlPatternHits(eng, fp, k, urls))
  }

  /** The script channel (`k` = `ScriptSrc`) or the link channel (`k` = `LinkHref`). */
  function UrlChannel(eng: RegexEngine, fps: seq<Fingerprint>, k: Kind, urls: seq<string>)
    : Result<seq<Hit>, CompileError>
  {
    FlatMapResult(fps, UrlHits(eng, k, urls))
  }

  /** A compiled pattern's outcome on a text, as `Matches` reports it. */
  lemma MatchesCompiled(eng: RegexEngine, p: string, text: string)
    requires PatternToRegex(eng, p).Ok?
    ensures Matches(eng, p, text) == Ok(Test(eng, PatternToRegex(eng, p).value, text))
  {
  }

  lemma UrlPatternErr(eng: RegexEngine, fp: Fingerprint, k: Kind, urls: seq<string>, p: string)
    ensures UrlPatternHits(eng, fp, k, urls)(p).Err? <==> PatternToRegex(eng, p).Err?
    ensures UrlPatternHits(eng, fp, k, urls)(p).Err? ==> UrlPatternHits(eng, fp, k, urls)(p).error == SyntaxError(p)
  {
  }

  lemma UrlHitsErr(eng: RegexEngine, k: Kind, urls: seq<string>, fp: Fingerprint)
    ensures UrlHits(eng, k, urls)(fp).Err? <==>
      exists p :: p in PatternsOf(fp, k) && PatternToRegex(eng, p).Err?
    ensures UrlHits(eng, k, urls)(fp).Err? ==>
      exists p :: p in PatternsOf(fp, k) && UrlHits(eng, k, urls)(fp).error == SyntaxError(p)
  {
    var ps := PatternsOf(fp, k);
    var f := UrlPatternHits(eng, fp, k, urls);
    var r := UrlHits(eng, k, urls)(fp);
    assert r == FlatMapResult(ps, f);
    FlatMapResultErr(ps, f);
    if r.Err? {
      var i :| 0 <= i < |ps| && f(ps[i]) == Err(r.error);
      UrlPatternErr(eng, fp, k, urls, ps[i]);
      assert ps[i] in ps;
    }
    if exists p :: p in ps && PatternToRegex(eng, p).Err? {
      var p :| p in ps && PatternToRegex(eng, p).Err?;
      UrlPatternErr(eng, fp, k, urls, p);
    }
  }

  /**
   * The URL channel fails exactly when one of its patterns does not compile,
   * whether or not there is any URL to test, and then with the error of
   * such a pattern.
   */
  lemma UrlChannelErr(eng: RegexEngine, fps: seq<Fingerprint>, k: Kind, urls: seq<string>)
    ensures UrlChannel(eng, fps, k, urls).Err? <==>
      exists fp, p :: fp in fps && p in PatternsOf(fp, k) && PatternToRegex(eng, p).Err?
    ensures UrlChannel(eng, fps, k, urls).Err? ==>
      exists fp, p :: fp in fps && p in PatternsOf(fp, k) && UrlChannel(eng, fps, k, urls).error == SyntaxError(p)
  {
    var r := UrlChannel(eng, fps, k, urls);
    var f := UrlHits(eng, k, urls);
    FlatMapResultErr(fps, f);
    if r.Err? {
      var i :| 0 <= i < |fps| && f(fps[i]) == Err(r.error);
      UrlHitsErr(eng, k, urls, fps[i]);
      var p :| p in PatternsOf(fps[i], k) && PatternToRegex(eng, p).Err?;
      assert fps[i] in fps;
    }
    if exists fp, p :: fp in fps && p in PatternsOf(fp, k) && PatternToRegex(eng, p).Err? {
      var fp, p :| fp in fps && p in PatternsOf(fp, k) && PatternToRegex(eng, p).Err?;
      UrlHitsErr(eng, k, urls, fp);
    }
  }

  lemma UrlHitIs(eng: RegexEngine, fp: Fingerprint, k: Kind, rx: RegExp, u: string, h: Hit)
    ensures h in UrlHit(eng, fp, k, rx)(u) <==> Test(eng, rx, u) && h == HitFor(fp, k, u)
  {
  }

  lemma UrlPatternUnfold(eng: RegexEngine, fp: Fingerprint, k: Kind, urls: seq<string>, p: string)
    requires PatternToRegex(eng, p).Ok?
    ensures UrlPatternHits(eng, fp, k, urls)(p).value == FlatMap(urls, UrlHit(eng, fp, k, PatternToRegex(eng, p).value))
  {
  }

  lemma UrlPatternIn(eng: RegexEngine, fp: Fingerprint, k: Kind, urls: seq<string>, p: string, h: Hit)
    requires PatternToRegex(eng, p).Ok?
    ensures h in UrlPatternHits(eng, fp, k, urls)(p).value <==>
      exists u :: u in urls && Matches(eng, p, u) == Ok(true) && h == HitFor(fp, k, u)
  {
    var rx := PatternToRegex(eng, p).value;
    var g := UrlHit(eng, fp, k, rx);
    UrlPatternUnfold(eng, fp, k, urls, p);
    if h in FlatMap(urls, g) {
      FlatMapIn(urls, g, h);
      var u :| u in urls && h in g(u);
      UrlHitIs(eng, fp, k, rx, u, h);
      MatchesCompiled(eng, p, u);
    }
    if exists u :: u in urls && Matches(eng, p, u) == Ok(true) && h == HitFor(fp, k, u) {
      var u :| u in urls && Matches(eng, p, u) == Ok(true) && h == HitFor(fp, k, u);
      MatchesCompiled(eng, p, u);
      UrlHitIs(eng, fp, k, rx, u, h);
      FlatMapIn(urls, g, h);
    }
  }

  lemma UrlHitsIn(eng: RegexEngine, k: Kind, urls: seq<string>, fp: Fingerprint, h: Hit)
    requires UrlHits(eng, k, urls)(fp).Ok?
    ensures h in UrlHits(eng, k, urls)(fp).value <==>
      exists p, u :: p in PatternsOf(fp, k) && u in urls && Matches(eng, p, u) == Ok(true) && h == HitFor(fp, k, u)
  {
    var ps := PatternsOf(fp, k);
    var f := UrlPatternHits(eng, fp, k, urls);
    FlatMapResultIn(ps, f, h);
    if h in UrlHits(eng, k, urls)(fp).value {
      var p :| p in ps && h in f(p).value;
      UrlPatternIn(eng, fp, k, urls, p, h);
    }
    if exists p, u :: p in ps && u in urls && Matches(eng, p, u) == Ok(true) && h == HitFor(fp, k, u) {
      var p, u :| p in ps && u in urls && Matches(eng, p, u) == Ok(true) && h == HitFor(fp, k, u);
      UrlPatternIn(eng, fp, k, urls, p, h);
    }
  }

  /**
   * When it succeeds, the URL channel records a hit for every pattern and
   * URL it matches, with the URL as the value, and nothing else.
   */
  lemma UrlChannelIn(eng: RegexEngine, fps: seq<Fingerprint>, k: Kind, urls: seq<string>, h: Hit)
    requires UrlChannel(eng, fps, k, urls).Ok?
    ensures h in UrlChannel(eng, fps, k, urls).value <==>
      exists fp, p, u :: fp in fps && p in PatternsOf(fp, k) && u in urls
        && Matches(eng, p, u) == Ok(true) && h == HitFor(fp, k, u)
  {
    var f := UrlHits(eng, k, urls);
    FlatMapResultIn(fps, f, h);
    if h in UrlChannel(eng, fps, k, urls).value {
      var fp :| fp in fps && h in f(fp).value;
      UrlHitsIn(eng, k, urls, fp, h);
    }
    if exists fp, p, u :: fp in fps && p in PatternsOf(fp, k) && u in urls
        && Matches(eng, p, u) == Ok(true) && h == HitFor(fp, k, u) {
      var fp, p, u :| fp in fps && p in PatternsOf(fp, k) && u in urls
        && Matches(eng, p, u) == Ok(true) && h == HitFor(fp, k, u);
      UrlHitsIn(eng, k, urls, fp, h);
    }
  }

  /** 1 when pattern `p` of `fp` matches URL `u` and records `h`, else 0. */
  function UrlMatchCount(eng: RegexEngine, fp: Fingerprint, k: Kind, p: string, h: Hit): string -> nat
  {
    u => if Matches(eng, p, u) == Ok(true) && h == HitFor(fp, k, u) then 1 else 0
  }

  /** How many URLs pattern `p` of `fp` matches with hit `h`. */
  function UrlPatternCount(eng: RegexEngine, fp: Fingerprint, k: Kind, urls: seq<string>, h: Hit): string -> nat
  {
    p => Sum(urls, UrlMatchCount(eng, fp, k, p, h))
  }

  /** How many (pattern, URL) pairs of `fp` match with hit `h`. */
  function UrlCount(eng: RegexEngine, k: Kind, urls: seq<string>, h: Hit): Fingerprint -> nat
  {
    fp => Sum(PatternsOf(fp, k), UrlPatternCount(eng, fp, k, urls, h))
  }

  lemma UrlPatternCounts(eng: RegexEngine, fp: Fingerprint, k: Kind, urls: seq<string>, p: string, h: Hit)
    requires PatternToRegex(eng, p).Ok?
    ensures multiset(UrlPatternHits(eng, fp, k, urls)(p).value)[h] == UrlPatternCount(eng, fp, k, urls, h)(p)
  {
    var rx := PatternToRegex(eng, p).value;
    var g := UrlHit(eng, fp, k, rx);
    UrlPatternUnfold(eng, fp, k, urls, p);
    forall i | 0 <= i < |urls| ensures multiset(g(urls[i]))[h] == UrlMatchCount(eng, fp, k, p, h)(urls[i]) {
      MatchesCompiled(eng, p, urls[i]);
      CountOptional(Test(eng, rx, urls[i]), HitFor(fp, k, urls[i]), h);
    }
    FlatMapCount(urls, g, h, UrlMatchCount(eng, fp, k, p, h));
  }

  lemma UrlHitsCount(eng: RegexEngine, k: Kind, urls: seq<string>, fp: Fingerprint, h: Hit)
    requires UrlHits(eng, k, urls)(fp).Ok?
    ensures multiset(UrlHits(eng, k, urls)(fp).value)[h] == UrlCount(eng, k, urls, h)(fp)
  {
    var ps := PatternsOf(fp, k);
    var f := UrlPatternHits(eng, fp, k, urls);
    forall i | 0 <= i < |ps| && f(ps[i]).Ok?
      ensures multiset(f(ps[i]).value)[h] == UrlPatternCount(eng, fp, k, urls, h)(ps[i])
    {
      UrlPatternErr(eng, fp, k, urls, ps[i]);
      UrlPatternCounts(eng, fp, k, urls, ps[i], h);
    }
    FlatMapResultCount(ps, f, h, UrlPatternCount(eng, fp, k, urls, h));
  }

  /**
   * When it succeeds, the URL channel records `h` once for every
   * fingerprint, pattern and URL where the pattern matches the URL and the
   * hit is `h`: a URL matched by two patterns, or listed twice, counts twice.
   */
  lemma UrlChannelCount(eng: RegexEngine, fps: seq<Fingerprint>, k: Kind, urls: seq<string>, h: Hit)
    requires UrlChannel(eng, fps, k, urls).Ok?
    ensures multiset(UrlChannel(eng, fps, k, urls).value)[h] == Sum(fps, UrlCount(eng, k, urls, h))
  {
    var f := UrlHits(eng, k, urls);
    forall i | 0 <= i < |fps| && f(fps[i]).Ok?
      ensures multiset(f(fps[i]).value)[h] == UrlCount(eng, k, urls, h)(fps[i])
    {
      UrlHitsCount(eng, k, urls, fps[i], h);
    }
    FlatMapResultCount(fps, f, h, UrlCount(eng, k, urls, h));
  }

  // Meta tags (`detectFromMeta`)

  /** A tag is looked at for a meta entry when its name is the key and its content is non-empty. */
  predicate Selects(t: MetaTag, key: string)
  {
    EffectiveName(t) == Some(key) && HasContent(t)
  }

  function MetaPatternHits(eng: RegexEngine, fp: Fingerprint, key: string, content: string)
    : string -> Result<seq<Hit>, CompileError>
  {
    p => match PatternToRegex(eng, p)
      case Err(e) => Err(e)
      case Ok(rx) => Ok(if Test(eng, rx, content) then [HitFor(fp, Meta, key + "=" + content)] else [])
  }

  /** Patterns are compiled only for a tag the entry selects. */
  function MetaTagHits(eng: RegexEngine, fp: Fingerprint, rule: MetaRule): MetaTag -> Result<seq<Hit>, CompileError>
  {
    t => if Selects(t, rule.key) then FlatMapResult(rule.patterns, MetaPatternHits(eng, fp, rule.key, t.content.value))
      else Ok([])
  }

  function MetaRuleHits(eng: RegexEngine, fp: Fingerprint, tags: seq<MetaTag>): MetaRule -> Result<seq<Hit>, CompileError>
  {
    rule => FlatMapResult(tags, MetaTagHits(eng, fp, rule))
  }

  function MetaHits(eng: RegexEngine, tags: seq<MetaTag>): Fingerprint -> Result<seq<Hit>, CompileError>
  {
    fp => FlatMapResult(MetaRulesOf(fp), MetaRuleHits(eng, fp, tags))
  }

  function MetaChannel(eng: RegexEngine, fps: seq<Fingerprint>, tags: seq<MetaTag>): Result<seq<Hit>, CompileError>
  {
    FlatMapResult(fps, MetaHits(eng, tags))
  }

  lemma MetaPatternErr(eng: RegexEngine, fp: Fingerprint, key: string, content: string, p: string)
    ensures MetaPatternHits(eng, fp, key, content)(p).Err? <==> PatternToRegex(eng, p).Err?
  {
  }

  lemma MetaPatternUnfold(eng: RegexEngine, fp: Fingerprint, key: string, content: string, p: string, rx: RegExp)
    requires PatternToRegex(eng, p) == Ok(rx)
    ensures MetaPatternHits(eng, fp, key, content)(p) ==
      Ok(if Test(eng, rx, content) then [HitFor(fp, Meta, key + "=" + content)] else [])
  {
  }

  lemma MetaPatternIs(eng: RegexEngine, fp: Fingerprint, key: string, content: string, p: string, rx: RegExp, h: Hit)
    requires PatternToRegex(eng, p) == Ok(rx)
    ensures h in MetaPatternHits(eng, fp, key, content)(p).value <==>
      Test(eng, rx, content) && h == HitFor(fp, Meta, key + "=" + content)
  {
    MetaPatternUnfold(eng, fp, key, content, p, rx);
    InOptional(Test(eng, rx, content), HitFor(fp, Meta, key + "=" + content), h);
  }

  lemma MetaPatternIn(eng: RegexEngine, fp: Fingerprint, key: string, content: string, p: string, h: Hit)
    requires PatternToRegex(eng, p).Ok?
    ensures h in MetaPatternHits(eng, fp, key, content)(p).value <==>
      Matches(eng, p, content) == Ok(true) && h == HitFor(fp, Meta, key + "=" + content)
  {
    var rx := PatternToRegex(eng, p).value;
    MetaPatternIs(eng, fp, key, content, p, rx, h);
    MatchesCompiled(eng, p, content);
  }

  lemma MetaTagUnfold(eng: RegexEngine, fp: Fingerprint, rule: MetaRule, t: MetaTag)
    ensures MetaTagHits(eng, fp, rule)(t) ==
      if Selects(t, rule.key) then FlatMapResult(rule.patterns, MetaPatternHits(eng, fp, rule.key, t.content.value))
      else Ok([])
  {
  }

  lemma MetaTagErr(eng: RegexEngine, fp: Fingerprint, rule: MetaRule, t: MetaTag)
    ensures MetaTagHits(eng, fp, rule)(t).Err? <==>
      && Selects(t, rule.key)
      && exists p :: p in rule.patterns && PatternToRegex(eng, p).Err?
  {
    MetaTagUnfold(eng, fp, rule, t);
    if Selects(t, rule.key) {
      var f := MetaPatternHits(eng, fp, rule.key, t.content.value);
      FlatMapResultErr(rule.patterns, f);
      if exists p :: p in rule.patterns && f(p).Err? {
        var p :| p in rule.patterns && f(p).Err?;
        MetaPatternErr(eng, fp, rule.key, t.content.value, p);
      }
      if exists p :: p in rule.patterns && PatternToRegex(eng, p).Err? {
        var p :| p in rule.patterns && PatternToRegex(eng, p).Err?;
        MetaPatternErr(eng, fp, rule.key, t.content.value, p);
      }
    }
  }

  lemma MetaTagIn(eng: RegexEngine, fp: Fingerprint, rule: MetaRule, t: MetaTag, h: Hit)
    requires MetaTagHits(eng, fp, rule)(t).Ok?
    ensures h in MetaTagHits(eng, fp, rule)(t).value <==>
      && Selects(t, rule.key)
      && exists p :: p in rule.patterns && Matches(eng, p, t.content.value) == Ok(true)
           && h == HitFor(fp, Meta, rule.key + "=" + t.content.value)
  {
    MetaTagUnfold(eng, fp, rule, t);
    if Selects(t, rule.key) {
      var c := t.content.value;
      var f := MetaPatternHits(eng, fp, rule.key, c);
      FlatMapResultIn(rule.patterns, f, h);
      if h in MetaTagHits(eng, fp, rule)(t).value {
        var p :| p in rule.patterns && h in f(p).value;
        MetaPatternErr(eng, fp, rule.key, c, p);
        MetaPatternIn(eng, fp, rule.key, c, p, h);
      }
      if exists p :: p in rule.patterns && Matches(eng, p, c) == Ok(true) && h == HitFor(fp, Meta, rule.key + "=" + c) {
        var p :| p in rule.patterns && Matches(eng, p, c) == Ok(true) && h == HitFor(fp, Meta, rule.key + "=" + c);
        MetaPatternErr(eng, fp, rule.key, c, p);
        MetaPatternIn(eng, fp, rule.key, c, p, h);
      }
    }
  }

  lemma MetaRuleErr(eng: RegexEngine, fp: Fingerprint, tags: seq<MetaTag>, rule: MetaRule)
    ensures MetaRuleHits(eng, fp, tags)(rule).Err? <==>
      exists t, p :: t in tags && Selects(t, rule.key) && p in rule.patterns && PatternToRegex(eng, p).Err?
  {
    var f := MetaTagHits(eng, fp, rule);
    FlatMapResultErr(tags, f);
    if exists t :: t in tags && f(t).Err? {
      var t :| t in tags && f(t).Err?;
      MetaTagErr(eng, fp, rule, t);
    }
    if exists t, p :: t in tags && Selects(t, rule.key) && p in rule.patterns && PatternToRegex(eng, p).Err? {
      var t, p :| t in tags && Selects(t, rule.key) && p in rule.patterns && PatternToRegex(eng, p).Err?;
      MetaTagErr(eng, fp, rule, t);
    }
  }

  lemma MetaRuleIn(eng: RegexEngine, fp: Fingerprint, tags: seq<MetaTag>, rule: MetaRule, h: Hit)
    requires MetaRuleHits(eng, fp, tags)(rule).Ok?
    ensures h in MetaRuleHits(eng, fp, tags)(rule).value <==>
      exists t, p :: t in tags && Selects(t, rule.key) && p in rule.patterns
        && Matches(eng, p, t.content.value) == Ok(true) && h == HitFor(fp, Meta, rule.key + "=" + t.content.value)
  {
    var f := MetaTagHits(eng, fp, rule);
    FlatMapResultIn(tags, f, h);
    if h in MetaRuleHits(eng, fp, tags)(rule).value {
      var t :| t in tags && h in f(t).value;
      MetaTagIn(eng, fp, rule, t, h);
    }
    if exists t, p :: t in tags && Selects(t, rule.key) && p in rule.patterns
        && Matches(eng, p, t.content.value) == Ok(true) && h == HitFor(fp, Meta, rule.key + "=" + t.content.value) {
      var t, p :| t in tags && Selects(t, rule.key) && p in rule.patterns
        && Matches(eng, p, t.content.value) == Ok(true) && h == HitFor(fp, Meta, rule.key + "=" + t.content.value);
      MetaTagIn(eng, fp, rule, t, h);
    }
  }

  lemma MetaHitsErr(eng: RegexEngine, tags: seq<MetaTag>, fp: Fingerprint)
    ensures MetaHits(eng, tags)(fp).Err? <==>
      exists rule, t, p :: rule in MetaRulesOf(fp) && t in tags && Selects(t, rule.key) && p in rule.patterns
        && PatternToRegex(eng, p).Err?
  {
    var f := MetaRuleHits(eng, fp, tags);
    FlatMapResultErr(MetaRulesOf(fp), f);
    if exists rule :: rule in MetaRulesOf(fp) && f(rule).Err? {
      var rule :| rule in MetaRulesOf(fp) && f(rule).Err?;
      MetaRuleErr(eng, fp, tags, rule);
    }
    if exists rule, t, p :: rule in MetaRulesOf(fp) && t in tags && Selects(t, rule.key) && p in rule.patterns
        && PatternToRegex(eng, p).Err? {
      var rule, t, p :| rule in MetaRulesOf(fp) && t in tags && Selects(t, rule.key) && p in rule.patterns
        && PatternToRegex(eng, p).Err?;
      MetaRuleErr(eng, fp, tags, rule);
    }
  }

  lemma MetaHitsIn(eng: RegexEngine, tags: seq<MetaTag>, fp: Fingerprint, h: Hit)
    requires MetaHits(eng, tags)(fp).Ok?
    ensures h in MetaHits(eng, tags)(fp).value <==>
      exists rule, t, p :: rule in MetaRulesOf(fp) && t in tags && Selects(t, rule.key) && p in rule.patterns
        && Matches(eng, p, t.content.value) == Ok(true) && h == HitFor(fp, Meta, rule.key + "=" + t.content.value)
  {
    var f := MetaRuleHits(eng, fp, tags);
    FlatMapResultIn(MetaRulesOf(fp), f, h);
    if h in MetaHits(eng, tags)(fp).value {
      var rule :| rule in MetaRulesOf(fp) && h in f(rule).value;
      MetaRuleIn(eng, fp, tags, rule, h);
    }
    if exists rule, t, p :: rule in MetaRulesOf(fp) && t in tags && Selects(t, rule.key) && p in rule.patterns
        && Matches(eng, p, t.content.value) == Ok(true) && h == HitFor(fp, Meta, rule.key + "=" + t.content.value) {
      var rule, t, p :| rule in MetaRulesOf(fp) && t in tags && Selects(t, rule.key) && p in rule.patterns
        && Matches(eng, p, t.content.value) == Ok(true) && h == HitFor(fp, Meta, rule.key + "=" + t.content.value);
      MetaRuleIn(eng, fp, tags, rule, h);
    }
  }

  lemma MetaChannelErrFound(eng: RegexEngine, fps: seq<Fingerprint>, tags: seq<MetaTag>)
    requires MetaChannel(eng, fps, tags).Err?
    ensures exists fp, rule, t, p ::
      fp in fps && rule in MetaRulesOf(fp) && t in tags && Selects(t, rule.key)
      && p in rule.patterns && PatternToRegex(eng, p).Err?
  {
    var f := MetaHits(eng, tags);
    FlatMapResultErr(fps, f);
    var fp :| fp in fps && f(fp).Err?;
    MetaHitsErr(eng, tags, fp);
    var rule, t, p :| rule in MetaRulesOf(fp) && t in tags && Selects(t, rule.key) && p in rule.patterns
      && PatternToRegex(eng, p).Err?;
  }

  lemma MetaChannelErrFrom(eng: RegexEngine, fps: seq<Fingerprint>, tags: seq<MetaTag>,
                           fp: Fingerprint, rule: MetaRule, t: MetaTag, p: string)
    requires fp in fps && rule in MetaRulesOf(fp) && t in tags && Selects(t, rule.key)
    requires p in rule.patterns && PatternToRegex(eng, p).Err?
    ensures MetaChannel(eng, fps, tags).Err?
  {
    MetaHitsErr(eng, tags, fp);
    FlatMapResultErr(fps, MetaHits(eng, tags));
  }

  /**
   * The meta channel fails exactly when a pattern it compiles does not:
   * patterns are compiled only for tags whose name is the entry's key and
   * whose content is non-empty, once per such tag.
   */
  lemma MetaChannelErr(eng: RegexEngine, fps: seq<Fingerprint>, tags: seq<MetaTag>)
    ensures MetaChannel(eng, fps, tags).Err? <==>
      exists fp, rule, t, p :: fp in fps && rule in MetaRulesOf(fp) && t in tags && Selects(t, rule.key)
        && p in rule.patterns && PatternToRegex(eng, p).Err?
  {
    if MetaChannel(eng, fps, tags).Err? {
      MetaChannelErrFound(eng, fps, tags);
    }
    if exists fp, rule, t, p :: fp in fps && rule in MetaRulesOf(fp) && t in tags && Selects(t, rule.key)
        && p in rule.patterns && PatternToRegex(eng, p).Err? {
      var fp, rule, t, p :| fp in fps && rule in MetaRulesOf(fp) && t in tags && Selects(t, rule.key)
        && p in rule.patterns && PatternToRegex(eng, p).Err?;
      MetaChannelErrFrom(eng, fps, tags, fp, rule, t, p);
    }
  }

  lemma MetaChannelHitFound(eng: RegexEngine, fps: seq<Fingerprint>, tags: seq<MetaTag>, h: Hit)
    requires MetaChannel(eng, fps, tags).Ok? && h in MetaChannel(eng, fps, tags).value
    ensures exists fp, rule, t, p ::
      fp in fps && rule in MetaRulesOf(fp) && t in tags && Selects(t, rule.key)
      && p in rule.patterns && Matches(eng, p, t.content.value) == Ok(true)
      && h == HitFor(fp, Meta, rule.key + "=" + t.content.value)
  {
    var f := MetaHits(eng, tags);
    FlatMapResultIn(fps, f, h);
    var fp :| fp in fps && h in f(fp).value;
    MetaHitsIn(eng, tags, fp, h);
    var rule, t, p :| rule in MetaRulesOf(fp) && t in tags && Selects(t, rule.key) && p in rule.patterns
      && Matches(eng, p, t.content.value) == Ok(true) && h == HitFor(fp, Meta, rule.key + "=" + t.content.value);
  }

  lemma MetaChannelHitFrom(eng: RegexEngine, fps: seq<Fingerprint>, tags: seq<MetaTag>, h: Hit,
                           fp: Fingerprint, rule: MetaRule, t: MetaTag, p: string)
    requires MetaChannel(eng, fps, tags).Ok?
    requires fp in fps && rule in MetaRulesOf(fp) && t in tags && Selects(t, rule.key)
    requires p in rule.patterns && Matches(eng, p, t.content.value) == Ok(true)
    requires h == HitFor(fp, Meta, rule.key + "=" + t.content.value)
    ensures h in MetaChannel(eng, fps, tags).value
  {
    var f := MetaHits(eng, tags);
    FlatMapResultIn(fps, f, h);
    MetaHitsIn(eng, tags, fp, h);
  }

  /**
   * When it succeeds, the meta channel records `key=content` for every
   * entry, selected tag and pattern matching the tag's content.
   */
  lemma MetaChannelIn(eng: RegexEngine, fps: seq<Fingerprint>, tags: seq<MetaTag>, h: Hit)
    requires MetaChannel(eng, fps, tags).Ok?
    ensures h in MetaChannel(eng, fps, tags).value <==>
      exists fp, rule, t, p :: fp in fps && rule in MetaRulesOf(fp) && t in tags && Selects(t, rule.key)
        && p in rule.patterns && Matches(eng, p, t.content.value) == Ok(true)
        && h == HitFor(fp, Meta, rule.key + "=" + t.content.value)
  {
    if h in MetaChannel(eng, fps, tags).value {
      MetaChannelHitFound(eng, fps, tags, h);
    }
    if exists fp, rule, t, p :: fp in fps && rule in MetaRulesOf(fp) && t in tags && Selects(t, rule.key)
        && p in rule.patterns && Matches(eng, p, t.content.value) == Ok(true)
        && h == HitFor(fp, Meta, rule.key + "=" + t.content.value) {
      var fp, rule, t, p :| fp in fps && rule in MetaRulesOf(fp) && t in tags && Selects(t, rule.key)
        && p in rule.patterns && Matches(eng, p, t.content.value) == Ok(true)
        && h == HitFor(fp, Meta, rule.key + "=" + t.content.value);
      MetaChannelHitFrom(eng, fps, tags, h, fp, rule, t, p);
    }
  }

  /** 1 when pattern `p` matches the content and the hit for `key=content` is `h`, else 0. */
  function MetaPatternCount(eng: RegexEngine, fp: Fingerprint, key: string, content: string, h: Hit): string -> nat
  {
    p => if Matches(eng, p, content) == Ok(true) && h == HitFor(fp, Meta, key + "=" + content) then 1 else 0
  }

  /** For a tag the entry selects, how many of the entry's patterns match its content with hit `h`. */
  function MetaTagCount(eng: RegexEngine, fp: Fingerprint, rule: MetaRule, h: Hit): MetaTag -> nat
  {
    t => if Selects(t, rule.key) then Sum(rule.patterns, MetaPatternCount(eng, fp, rule.key, t.content.value, h)) else 0
  }

  /** How many (tag, pattern) pairs of an entry match with hit `h`. */
  function MetaRuleCount(eng: RegexEngine, fp: Fingerprint, tags: seq<MetaTag>, h: Hit): MetaRule -> nat
  {
    rule => Sum(tags, MetaTagCount(eng, fp, rule, h))
  }

  /** How many (entry, tag, pattern) triples of `fp` match with hit `h`. */
  function MetaCount(eng: RegexEngine, tags: seq<MetaTag>, h: Hit): Fingerprint -> nat
  {
    fp => Sum(MetaRulesOf(fp), MetaRuleCount(eng, fp, tags, h))
  }

  lemma MetaTagCounts(eng: RegexEngine, fp: Fingerprint, rule: MetaRule, t: MetaTag, h: Hit)
    requires MetaTagHits(eng, fp, rule)(t).Ok?
    ensures multiset(MetaTagHits(eng, fp, rule)(t).value)[h] == MetaTagCount(eng, fp, rule, h)(t)
  {
    MetaTagUnfold(eng, fp, rule, t);
    if Selects(t, rule.key) {
      var c := t.content.value;
      var f := MetaPatternHits(eng, fp, rule.key, c);
      var g := MetaPatternCount(eng, fp, rule.key, c, h);
      forall i | 0 <= i < |rule.patterns| && f(rule.patterns[i]).Ok?
        ensures multiset(f(rule.patterns[i]).value)[h] == g(rule.patterns[i])
      {
        var p := rule.patterns[i];
        MetaPatternErr(eng, fp, rule.key, c, p);
        var rx := PatternToRegex(eng, p).value;
        MetaPatternUnfold(eng, fp, rule.key, c, p, rx);
        MatchesCompiled(eng, p, c);
        CountOptional(Test(eng, rx, c), HitFor(fp, Meta, rule.key + "=" + c), h);
      }
      FlatMapResultCount(rule.patterns, f, h, g);
    }
  }

  lemma MetaRuleCounts(eng: RegexEngine, fp: Fingerprint, tags: seq<MetaTag>, rule: MetaRule, h: Hit)
    requires MetaRuleHits(eng, fp, tags)(rule).Ok?
    ensures multiset(MetaRuleHits(eng, fp, tags)(rule).value)[h] == MetaRuleCount(eng, fp, tags, h)(rule)
  {
    var f := MetaTagHits(eng, fp, rule);
    forall i | 0 <= i < |tags| && f(tags[i]).Ok?
      ensures multiset(f(tags[i]).value)[h] == MetaTagCount(eng, fp, rule, h)(tags[i])
    {
      MetaTagCounts(eng, fp, rule, tags[i], h);
    }
    FlatMapResultCount(tags, f, h, MetaTagCount(eng, fp, rule, h));
  }

  lemma MetaHitsCount(eng: RegexEngine, tags: seq<MetaTag>, fp: Fingerprint, h: Hit)
    requires MetaHits(eng, tags)(fp).Ok?
    ensures multiset(MetaHits(eng, tags)(fp).value)[h] == MetaCount(eng, tags, h)(fp)
  {
    var rules := MetaRulesOf(fp);
    var f := MetaRuleHits(eng, fp, tags);
    forall i | 0 <= i < |rules| && f(rules[i]).Ok?
      ensures multiset(f(rules[i]).value)[h] == MetaRuleCount(eng, fp, tags, h)(rules[i])
    {
      MetaRuleCounts(eng, fp, tags, rules[i], h);
    }
    FlatMapResultCount(rules, f, h, MetaRuleCount(eng, fp, tags, h));
  }

  /**
   * When it succeeds, the meta channel records `h` once for every
   * fingerprint, entry, selected tag and matching pattern whose hit is `h`:
   * two patterns of an entry matching the same tag record it twice.
   */
  lemma MetaChannelCount(eng: RegexEngine, fps: seq<Fingerprint>, tags: seq<MetaTag>, h: Hit)
    requires MetaChannel(eng, fps, tags).Ok?
    ensures multiset(MetaChannel(eng, fps, tags).value)[h] == Sum(fps, MetaCount(eng, tags, h))
  {
    var f := MetaHits(eng, tags);
    forall i | 0 <= i < |fps| && f(fps[i]).Ok?
      ensures multiset(f(fps[i]).value)[h] == MetaCount(eng, tags, h)(fps[i])
    {
      MetaHitsCount(eng, tags, fps[i], h);
    }
    FlatMapResultCount(fps, f, h, MetaCount(eng, tags, h));
  }

  // Cookies (`detectFromCookies`)

  /** `c.trim().split('=')[0]`: the name part of one `;`-separated segment. */
  function CookieName(segment: string): (n: string)
    ensures '=' !in n
  {
    Split(Trim(segment), '=')[0]
  }

  /** The cookie names of `document.cookie`: one per `;`-separated segment, in order. */
  function CookieNames(cookie: string): (names: seq<string>)
    ensures |names| == |Split(cookie, ';')| >= 1
    ensures forall k :: 0 <= k < |names| ==> names[k] == CookieName(Split(cookie, ';')[k])
  {
    var segs := Split(cookie, ';');
    seq(|segs|, k requires 0 <= k < |segs| => CookieName(segs[k]))
  }

  /** The `name=value` text of each cookie. */
  function CookiePairs(names: seq<string>, values: seq<string>): (pairs: seq<string>)
    requires |names| == |values|
    ensures |pairs| == |names|
    ensures forall k :: 0 <= k < |names| ==> pairs[k] == names[k] + "=" + values[k]
  {
    seq(|names|, k requires 0 <= k < |names| => names[k] + "=" + values[k])
  }

  /** `name=value` pairs separated by `; `, the way `document.cookie` lists cookies. */
  function CookieHeader(names: seq<string>, values: seq<string>): string
    requires |names| == |values|
  {
    Join(CookiePairs(names, values), "; ")
  }

  /** A name a cookie string can carry: no `=` or `;`, and no leading white space. */
  predicate WellFormedCookieName(n: string)
  {
    '=' !in n && ';' !in n && (|n| > 0 ==> !IsJsSpace(n[0]))
  }

  /** Leading white space is trimmed away and the name ends at the first `=`. */
  lemma CookieNameOfSegment(lead: string, n: string, v: string)
    requires forall k :: 0 <= k < |lead| ==> IsJsSpace(lead[k])
    requires WellFormedCookieName(n)
    ensures CookieName(lead + (n + "=" + v)) == n
  {
    var x := n + ['='] + v;
    assert n + "=" + v == x;
    assert x[0] == if |n| > 0 then n[0] else '=';
    TrimStartRun(lead, x);
    TrimEndKeeps(n, '=', v);
    var r := TrimEnd(x);
    assert Trim(lead + x) == r;
    SplitCons(n, r[|n| + 1..], '=');
  }

  /** The segments of a cookie string are its pairs, each after the first with its leading space. */
  lemma CookieSegments(names: seq<string>, values: seq<string>)
    requires |names| == |values| >= 1
    requires forall k :: 0 <= k < |names| ==> ';' !in names[k] && ';' !in values[k]
    ensures |Split(CookieHeader(names, values), ';')| == |names|
    ensures Split(CookieHeader(names, values), ';')[0] == CookiePairs(names, values)[0]
    ensures forall k :: 1 <= k < |names| ==>
      Split(CookieHeader(names, values), ';')[k] == " " + CookiePairs(names, values)[k]
  {
    var pairs := CookiePairs(names, values);
    forall k | 0 <= k < |pairs| ensures ';' !in pairs[k] {
      assert pairs[k] == names[k] + "=" + values[k];
    }
    var j := Join(pairs, "; ");
    assert "; " == [';'] + " ";
    assert "" + j == j;
    SplitJoinPadded("", pairs, ';', " ");
    assert "" + pairs[0] == pairs[0];
  }

  /**
   * Reading the names back from a cookie string lists exactly the cookies'
   * names, in order, whatever their values.
   */
  lemma CookieNamesOfHeader(names: seq<string>, values: seq<string>)
    requires |names| == |values| >= 1
    requires forall k :: 0 <= k < |names| ==> WellFormedCookieName(names[k]) && ';' !in values[k]
    ensures CookieNames(CookieHeader(names, values)) == names
  {
    CookieSegments(names, values);
    var pairs := CookiePairs(names, values);
    var segs := Split(CookieHeader(names, values), ';');
    var got := CookieNames(CookieHeader(names, values));
    forall k | 0 <= k < |names| ensures got[k] == names[k] {
      if k == 0 {
        assert segs[0] == "" + (names[0] + "=" + values[0]);
        CookieNameOfSegment("", names[0], values[0]);
      } else {
        assert segs[k] == " " + (names[k] + "=" + values[k]);
        CookieNameOfSegment(" ", names[k], values[k]);
      }
    }
  }

  /** An empty cookie string still has one segment, whose name is empty. */
  lemma NoCookiesOneEmptyName()
    ensures CookieNames("") == [""]
  {
    assert Trim("") == "";
  }

  function CookieHit(fp: Fingerprint, names: seq<string>): string -> seq<Hit>
  {
    c => if c in names then [HitFor(fp, Cookie, c)] else []
  }

  function CookieHits(names: seq<string>): Fingerprint -> seq<Hit>
  {
    fp => FlatMap(PatternsOf(fp, Cookie), CookieHit(fp, names))
  }

  function CookieChannel(fps: seq<Fingerprint>, names: seq<string>): seq<Hit>
  {
    FlatMap(fps, CookieHits(names))
  }

  lemma CookieHitsIn(names: seq<string>, fp: Fingerprint, h: Hit)
    ensures h in CookieHits(names)(fp) <==>
      exists c :: c in PatternsOf(fp, Cookie) && c in names && h == HitFor(fp, Cookie, c)
  {
    var g := CookieHit(fp, names);
    if h in CookieHits(names)(fp) {
      FlatMapIn(PatternsOf(fp, Cookie), g, h);
      var c :| c in PatternsOf(fp, Cookie) && h in g(c);
      InOptional(c in names, HitFor(fp, Cookie, c), h);
    }
    if exists c :: c in PatternsOf(fp, Cookie) && c in names && h == HitFor(fp, Cookie, c) {
      var c :| c in PatternsOf(fp, Cookie) && c in names && h == HitFor(fp, Cookie, c);
      InOptional(c in names, HitFor(fp, Cookie, c), h);
      FlatMapIn(PatternsOf(fp, Cookie), g, h);
    }
  }

  /**
   * A cookie matcher is evidence exactly when it is, character for
   * character, one of the cookie names; the value recorded is the name.
   */
  lemma CookieChannelIn(fps: seq<Fingerprint>, names: seq<string>, h: Hit)
    ensures h in CookieChannel(fps, names) <==>
      exists fp, c :: fp in fps && c in PatternsOf(fp, Cookie) && c in names && h == HitFor(fp, Cookie, c)
  {
    var f := CookieHits(names);
    if h in CookieChannel(fps, names) {
      FlatMapIn(fps, f, h);
      var fp :| fp in fps && h in f(fp);
      CookieHitsIn(names, fp, h);
    }
    if exists fp, c :: fp in fps && c in PatternsOf(fp, Cookie) && c in names && h == HitFor(fp, Cookie, c) {
      var fp, c :| fp in fps && c in PatternsOf(fp, Cookie) && c in names && h == HitFor(fp, Cookie, c);
      CookieHitsIn(names, fp, h);
      FlatMapIn(fps, f, h);
    }
  }

  /** 1 when cookie matcher `c` of `fp` is one of the names and records `h`, else 0. */
  function CookiePatternCount(fp: Fingerprint, names: seq<string>, h: Hit): string -> nat
  {
    c => if c in names && h == HitFor(fp, Cookie, c) then 1 else 0
  }

  /** How many cookie matchers of `fp` are present and record `h`. */
  function CookieCount(names: seq<string>, h: Hit): Fingerprint -> nat
  {
    fp => Sum(PatternsOf(fp, Cookie), CookiePatternCount(fp, names, h))
  }

  lemma CookieHitsCount(names: seq<string>, fp: Fingerprint, h: Hit)
    ensures multiset(CookieHits(names)(fp))[h] == CookieCount(names, h)(fp)
  {
    var ps := PatternsOf(fp, Cookie);
    forall i | 0 <= i < |ps| ensures multiset(CookieHit(fp, names)(ps[i]))[h] == CookiePatternCount(fp, names, h)(ps[i]) {
      CountOptional(ps[i] in names, HitFor(fp, Cookie, ps[i]), h);
    }
    FlatMapCount(ps, CookieHit(fp, names), h, CookiePatternCount(fp, names, h));
  }

  /**
   * The cookie channel records `h` once per fingerprint and matcher naming a
   * present cookie, however many cookies carry that name.
   */
  lemma CookieChannelCount(fps: seq<Fingerprint>, names: seq<string>, h: Hit)
    ensures multiset(CookieChannel(fps, names))[h] == Sum(fps, CookieCount(names, h))
  {
    forall i | 0 <= i < |fps| ensures multiset(CookieHits(names)(fps[i]))[h] == CookieCount(names, h)(fps[i]) {
      CookieHitsCount(names, fps[i], h);
    }
    FlatMapCount(fps, CookieHits(names), h, CookieCount(names, h));
  }

  // Page markup (`detectFromHTML`)

  /** A pattern that does not compile is skipped: it records nothing and the run goes on. */
  function HtmlHit(eng: RegexEngine, fp: Fingerprint, blob: string): string -> seq<Hit>
  {
    p => if Matches(eng, p, blob) == Ok(true) then [HitFor(fp, HtmlPattern, p)] else []
  }

  function HtmlHits(eng: RegexEngine, blob: string): Fingerprint -> seq<Hit>
  {
    fp => FlatMap(PatternsOf(fp, HtmlPattern), HtmlHit(eng, fp, blob))
  }

  function HtmlChannel(eng: RegexEngine, fps: seq<Fingerprint>, blob: string): seq<Hit>
  {
    FlatMap(fps, HtmlHits(eng, blob))
  }

  lemma HtmlHitsIn(eng: RegexEngine, blob: string, fp: Fingerprint, h: Hit)
    ensures h in HtmlHits(eng, blob)(fp) <==>
      exists p :: p in PatternsOf(fp, HtmlPattern) && Matches(eng, p, blob) == Ok(true) && h == HitFor(fp, HtmlPattern, p)
  {
    var g := HtmlHit(eng, fp, blob);
    if h in HtmlHits(eng, blob)(fp) {
      FlatMapIn(PatternsOf(fp, HtmlPattern), g, h);
      var p :| p in PatternsOf(fp, HtmlPattern) && h in g(p);
      InOptional(Matches(eng, p, blob) == Ok(true), HitFor(fp, HtmlPattern, p), h);
    }
    if exists p :: p in PatternsOf(fp, HtmlPattern) && Matches(eng, p, blob) == Ok(true) && h == HitFor(fp, HtmlPattern, p) {
      var p :| p in PatternsOf(fp, HtmlPattern) && Matches(eng, p, blob) == Ok(true) && h == HitFor(fp, HtmlPattern, p);
      InOptional(Matches(eng, p, blob) == Ok(true), HitFor(fp, HtmlPattern, p), h);
      FlatMapIn(PatternsOf(fp, HtmlPattern), g, h);
    }
  }

  /**
   * An `html_regex` pattern is evidence exactly when it compiles and matches
   * the scanned text; the value recorded is the pattern. Patterns that do
   * not compile take nothing away from the others.
   */
  lemma HtmlChannelIn(eng: RegexEngine, fps: seq<Fingerprint>, blob: string, h: Hit)
    ensures h in HtmlChannel(eng, fps, blob) <==>
      exists fp, p :: fp in fps && p in PatternsOf(fp, HtmlPattern)
        && Matches(eng, p, blob) == Ok(true) && h == HitFor(fp, HtmlPattern, p)
  {
    var f := HtmlHits(eng, blob);
    if h in HtmlChannel(eng, fps, blob) {
      FlatMapIn(fps, f, h);
      var fp :| fp in fps && h in f(fp);
      HtmlHitsIn(eng, blob, fp, h);
    }
    if exists fp, p :: fp in fps && p in PatternsOf(fp, HtmlPattern)
        && Matches(eng, p, blob) == Ok(true) && h == HitFor(fp, HtmlPattern, p) {
      var fp, p :| fp in fps && p in PatternsOf(fp, HtmlPattern)
        && Matches(eng, p, blob) == Ok(true) && h == HitFor(fp, HtmlPattern, p);
      HtmlHitsIn(eng, blob, fp, h);
      FlatMapIn(fps, f, h);
    }
  }
  /** 1 when `html_regex` pattern `p` of `fp` compiles, matches and records `h`, else 0. */
  function HtmlPatternCount(eng: RegexEngine, fp: Fingerprint, blob: string, h: Hit): string -> nat
  {
    p => if Matches(eng, p, blob) == Ok(true) && h == HitFor(fp, HtmlPattern, p) then 1 else 0
  }

  /** How many `html_regex` patterns of `fp` match with hit `h`. */
  function HtmlCount(eng: RegexEngine, blob: string, h: Hit): Fingerprint -> nat
  {
    fp => Sum(PatternsOf(fp, HtmlPattern), HtmlPatternCount(eng, fp, blob, h))
  }

  lemma HtmlHitsCount(eng: RegexEngine, blob: string, fp: Fingerprint, h: Hit)
    ensures multiset(HtmlHits(eng, blob)(fp))[h] == HtmlCount(eng, blob, h)(fp)
  {
    var ps := PatternsOf(fp, HtmlPattern);
    forall i | 0 <= i < |ps|
      ensures multiset(HtmlHit(eng, fp, blob)(ps[i]))[h] == HtmlPatternCount(eng, fp, blob, h)(ps[i])
    {
      CountOptional(Matches(eng, ps[i], blob) == Ok(true), HitFor(fp, HtmlPattern, ps[i]), h);
    }
    FlatMapCount(ps, HtmlHit(eng, fp, blob), h, HtmlPatternCount(eng, fp, blob, h));
  }

  /** The HTML channel records `h` once per fingerprint and pattern that matches and records it. */
  lemma HtmlChannelCount(eng: RegexEngine, fps: seq<Fingerprint>, blob: string, h: Hit)
    ensures multiset(HtmlChannel(eng, fps, blob))[h] == Sum(fps, HtmlCount(eng, blob, h))
  {
    forall i | 0 <= i < |fps| ensures multiset(HtmlHits(eng, blob)(fps[i]))[h] == HtmlCount(eng, blob, h)(fps[i]) {
      HtmlHitsCount(eng, blob, fps[i], h);
    }
    FlatMapCount(fps, HtmlHits(eng, blob), h, HtmlCount(eng, blob, h));
  }
}
