/**
 * The inputs of a detection pass: the fingerprint catalogue
 * (`fingerprints.json` entries) and a snapshot of the page.
 */
module Catalog {
  import opened Wrappers
  import opened Globals
  import opened Evidence

  /** One entry of a fingerprint's `meta` object: the meta name and its patterns. */
  datatype MetaRule = MetaRule(key: string, patterns: seq<string>)

  /**
   * A fingerprint's `matchers`. A kind the fingerprint does not list is the
   * empty list: the channels skip a missing kind and iterate an empty one,
   * which adds the same nothing.
   */
  datatype Matchers = Matchers(
    jsGlobals: seq<string>,
    scriptSrc: seq<string>,
    meta: seq<MetaRule>,
    linkHref: seq<string>,
    cookies: seq<string>,
    htmlRegex: seq<string>)

  /** A technology fingerprint; `categories`, `confidence` and `matchers` are optional. */
  datatype Fingerprint = Fingerprint(
    name: string,
    categories: Option<seq<string>>,
    confidence: Option<int>,
    matchers: Option<Matchers>)

  /**
   * `tech.confidence || default`: the fingerprint's own confidence unless
   * it is missing or zero, the channel default otherwise.
   */
  function ConfidenceFor(fp: Fingerprint, k: Kind): (c: int)
    ensures c != 0
    ensures c == DefaultConfidence(k) || Some(c) == fp.confidence
    ensures fp.confidence.Some? && fp.confidence.value != 0 ==> c == fp.confidence.value
  {
    if fp.confidence.Some? && fp.confidence.value != 0 then fp.confidence.value else DefaultConfidence(k)
  }

  /** The patterns a fingerprint lists for a channel other than `meta`. */
  function PatternsOf(fp: Fingerprint, k: Kind): seq<string>
  {
    match fp.matchers
    case None => []
    case Some(m) =>
      match k
      case JsGlobal => m.jsGlobals
      case ScriptSrc => m.scriptSrc
      case LinkHref => m.linkHref
      case Cookie => m.cookies
      case HtmlPattern => m.htmlRegex
      case Meta => []
  }

  /** The `meta` entries of a fingerprint, in the object's key order. */
  function MetaRulesOf(fp: Fingerprint): seq<MetaRule>
  {
    if fp.matchers.Some? then fp.matchers.value.meta else []
  }

  /** A `<meta>` element's `name`, `property` and `content` attributes. */
  datatype MetaTag = MetaTag(name: Option<string>, property: Option<string>, content: Option<string>)

  /**
   * `getAttribute('name') || getAttribute('property')`: the name when it is
   * present and non-empty, the property (possibly absent) otherwise.
   */
  function EffectiveName(t: MetaTag): (r: Option<string>)
    ensures t.name.Some? && t.name.value != "" ==> r == t.name
    ensures t.name == None || t.name == Some("") ==> r == t.property
  {
    if t.name.Some? && t.name.value != "" then t.name else t.property
  }

  /** The content attribute is truthy: present and not empty. */
  predicate HasContent(t: MetaTag)
  {
    t.content.Some? && t.content.value != ""
  }

  /**
   * What a pass reads from the page, already extracted: the global object,
   * the resolved `src` of every `script[src]`, the `meta` elements, the
   * resolved `href` of every `link[href]`, `document.cookie`, and the
   * `innerHTML` of head and body (empty when the element is missing).
   */
  datatype Page = Page(
    window: Value,
    scriptSrcs: seq<string>,
    metaTags: seq<MetaTag>,
    linkHrefs: seq<string>,
    cookie: string,
    head: string,
    body: string)

  /** How much of the body the HTML channel scans. */
  const BodyScanLimit: nat := 5000

  /** The text the HTML channel scans: the whole head, then the first 5000 characters of the body. */
  function HtmlBlob(p: Page): (r: string)
    ensures |r| == |p.head| + (if |p.body| < BodyScanLimit then |p.body| else BodyScanLimit)
    ensures r[..|p.head|] == p.head && r[|p.head|..] == p.body[..|r| - |p.head|]
  {
    var n := if |p.body| < BodyScanLimit then |p.body| else BodyScanLimit;
    var r := p.head + p.body[..n];
    assert r[..|p.head|] == p.head && r[|p.head|..] == p.body[..n];
    r
  }
}
