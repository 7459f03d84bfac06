/**
 * The service worker's share of a detection: enriching the detector's
 * results with the tab's address and title, saving them as the last
 * detection and at the head of a history of at most fifty entries, and the
 * replies it sends back to the popup.
 *
 * Storage is a value passed in and returned; the tab, the clock and what
 * the two script injections returned are parameters.
 */
module Background {
  import opened Wrappers
  import opened Results

  /** The tab a detection ran in, as `chrome.tabs.get` describes it. */
  datatype Tab = Tab(url: string, title: string)

  /**
   * The enriched results: `{url, title, timestamp, technologies}`, with
   * `technologies` `None` when it is `undefined`: what a frame reports when
   * the function injected into it threw.
   */
  datatype Enriched = Enriched(url: string, title: string, timestamp: int, technologies: Option<seq<TechResult>>)

  /** A history entry: `{url, timestamp, techCount}`. */
  datatype Entry = Entry(url: string, timestamp: int, techCount: nat)

  /** The two keys of local storage the worker writes; `None` when the key was never set. */
  datatype Storage = Storage(lastDetection: Option<Enriched>, history: Option<seq<Entry>>)

  /** How many history entries are kept. */
  const HistoryLimit: nat := 50

  /** The history as read back, a missing key counting as an empty list. */
  function HistoryOf(st: Storage): seq<Entry>
  {
    st.history.GetOr([])
  }

  /** The history entry recorded for a set of results. */
  function EntryOf(e: Enriched): Entry
    requires e.technologies.Some?
  {
    Entry(e.url, e.timestamp, |e.technologies.value|)
  }

  /** What reading `length` of `undefined` throws, as the browser's engine words it. */
  const UndefinedLength: string := "Cannot read properties of undefined (reading 'length')"


  function Min(a: int, b: int): int
  {
    if a < b then a else b
  }

  /**
   * `saveDetectionResults`: the results become the last detection, and their
   * entry goes in front of the history, which is then cut to fifty entries.
   * When the technologies are `undefined`, counting them throws after the
   * last detection was written and before the history is touched; the
   * second component is the message thrown.
   */
  function SaveDetectionResults(st: Storage, results: Enriched): (r: (Storage, Option<string>))
    ensures r.0.lastDetection == Some(results)
    ensures r.1.Some? <==> results.technologies.None?
    ensures r.1.Some? ==> r.1.value == UndefinedLength && r.0.history == st.history
    ensures r.1.None? ==>
      && r.0.history.Some? && 0 < |HistoryOf(r.0)| <= HistoryLimit
      && HistoryOf(r.0)[0] == Entry(results.url, results.timestamp, |results.technologies.value|)
      && HistoryOf(r.0)[1..] == HistoryOf(st)[..Min(HistoryLimit - 1, |HistoryOf(st)|)]
  {
    if results.technologies.None? then
      (st.(lastDetection := Some(results)), Some(UndefinedLength))
    else
      var h := [EntryOf(results)] + HistoryOf(st);
      var kept := if |h| > HistoryLimit then h[..HistoryLimit] else h;
      assert kept[1..] == h[1..|kept|];
      (Storage(Some(results), Some(kept)), None)
  }

  /** The entries of a run of saves, the latest first; a save whose technologies are `undefined` adds none. */
  function Newest(saved: seq<Enriched>): (r: seq<Entry>)
    ensures |r| <= |saved|
  {
    if |saved| == 0 then []
    else Newest(saved[1..]) + (if saved[0].technologies.Some? then [EntryOf(saved[0])] else [])
  }

  /** One save after another, in the given order. */
  function SaveAll(st: Storage, saved: seq<Enriched>): Storage
    decreases |saved|
  {
    if |saved| == 0 then st else SaveAll(SaveDetectionResults(st, saved[0]).0, saved[1..])
  }

  /** Cutting to fifty entries before putting newer ones in front changes nothing once the whole is cut. */
  lemma CutTwice(n: seq<Entry>, h1: seq<Entry>)
    ensures var g := n + h1[..Min(HistoryLimit, |h1|)];
      var h := n + h1;
      g[..Min(HistoryLimit, |g|)] == h[..Min(HistoryLimit, |h|)]
  {
    var g := n + h1[..Min(HistoryLimit, |h1|)];
    var h := n + h1;
    var m := Min(HistoryLimit, |h|);
    assert Min(HistoryLimit, |g|) == m;
    forall k | 0 <= k < m ensures g[k] == h[k] {
      if k >= |n| {
        assert g[k] == h1[k - |n|];
      }
    }
  }

  /**
   * After any run of saves the history holds the fifty most recent entries,
   * newest first: those of the run, then what was there before. A save
   * whose technologies are `undefined` adds no entry; the last detection
   * is the last save whatever its technologies.
   */
  lemma {:induction false} SaveAllHistory(st: Storage, saved: seq<Enriched>)
    requires |HistoryOf(st)| <= HistoryLimit || |Newest(saved)| > 0
    ensures var h := Newest(saved) + HistoryOf(st);
      HistoryOf(SaveAll(st, saved)) == h[..Min(HistoryLimit, |h|)]
    ensures |saved| > 0 ==> SaveAll(st, saved).lastDetection == Some(saved[|saved| - 1])
    decreases |saved|
  {
    if |saved| == 0 {
      assert Newest(saved) + HistoryOf(st) == HistoryOf(st);
    } else {
      var s1 := SaveDetectionResults(st, saved[0]).0;
      var rest := saved[1..];
      var n := Newest(rest);
      var h := Newest(saved) + HistoryOf(st);
      if saved[0].technologies.None? {
        assert Newest(saved) == n + [];
        SaveAllHistory(s1, rest);
      } else {
        var h1 := [EntryOf(saved[0])] + HistoryOf(st);
        assert HistoryOf(s1) == h1[..Min(HistoryLimit, |h1|)] by {
          assert HistoryOf(s1) == [HistoryOf(s1)[0]] + HistoryOf(s1)[1..];
        }
        SaveAllHistory(s1, rest);
        assert Newest(saved) == n + [EntryOf(saved[0])];
        assert h == n + h1;
        CutTwice(n, h1);
      }
      if |rest| == 0 {
        assert SaveAll(s1, rest) == s1;
      }
    }
  }

  /** What a detection request raises, with its message. */
  const InjectionFailed: string := "Failed to inject detector script"
  const NoResults: string := "Detection returned no results"

  /**
   * `handleDetection`. `injected` is the number of frames the detector
   * script was injected into and `frames` what `runDetection` returned per
   * frame, the main frame first, `None` for a frame where it threw
   * ("Detector not loaded", or a pattern `detect` could not compile); an
   * empty array of either raises. The results of the main frame are
   * enriched and saved, and whatever the save throws is raised.
   */
  function HandleDetection(st: Storage, injected: nat, frames: seq<Option<seq<TechResult>>>, tab: Tab, now: int)
    : (r: (Storage, Result<Enriched, string>))
    ensures injected == 0 ==> r == (st, Err(InjectionFailed))
    ensures injected > 0 && |frames| == 0 ==> r == (st, Err(NoResults))
    ensures r.1.Ok? <==> injected > 0 && |frames| > 0 && frames[0].Some?
    ensures injected > 0 && |frames| > 0 ==>
      var e := Enriched(tab.url, tab.title, now, frames[0]);
      && r.0 == SaveDetectionResults(st, e).0
      && (r.1.Ok? ==> r.1.value == e)
      && (frames[0].None? ==> r.1 == Err(UndefinedLength) && r.0.history == st.history)
  {
    if injected == 0 then (st, Err(InjectionFailed))
    else if |frames| == 0 then (st, Err(NoResults))
    else
      var enriched := Enriched(tab.url, tab.title, now, frames[0]);
      var (st', thrown) := SaveDetectionResults(st, enriched);
      if thrown.Some? then (st', Err(thrown.value)) else (st', Ok(enriched))
  }

  /** The requests the worker answers, and any other. */
  datatype Message = DetectTechnologies | GetStoredResults | SaveResults(data: Enriched) | Unknown

  /**
   * A reply: `{success: true, data}` (with `data: null` as `WithData(None)`),
   * `{success: true}`, or `{success: false, error}`.
   */
  datatype Reply = WithData(data: Option<Enriched>) | Done | Failed(error: string)

  predicate Success(r: Reply)
  {
    !r.Failed?
  }

  /** What a detection request finds in the page, passed in. */
  datatype Injection = Injection(injected: nat, frames: seq<Option<seq<TechResult>>>, tab: Tab, now: int)

  /**
   * The `onMessage` listener: the storage after the request and the reply
   * sent, `None` for an action it does not answer.
   */
  function OnMessage(st: Storage, msg: Message, page: Injection): (r: (Storage, Option<Reply>))
    ensures r.1.None? <==> msg.Unknown?
    ensures msg.GetStoredResults? ==> r == (st, Some(WithData(st.lastDetection)))
    ensures msg.DetectTechnologies? ==>
      && (Success(r.1.value) <==> page.injected > 0 && |page.frames| > 0 && page.frames[0].Some?)
      && (!Success(r.1.value) ==> r.1.value.error in {InjectionFailed, NoResults, UndefinedLength})
      && (page.injected == 0 || |page.frames| == 0 ==> r.0 == st)
      && (Success(r.1.value) ==>
            && r.1.value.WithData? && r.1.value.data.Some?
            && r.1.value.data.value.technologies == page.frames[0])
    ensures msg.SaveResults? ==>
      && r.0 == SaveDetectionResults(st, msg.data).0
      && r.1 == Some(if msg.data.technologies.Some? then Done else Failed(UndefinedLength))
  {
    match msg
    case DetectTechnologies =>
      var (st', res) := HandleDetection(st, page.injected, page.frames, page.tab, page.now);
      (st', Some(if res.Ok? then WithData(Some(res.value)) else Failed(res.error)))
    case GetStoredResults => (st, Some(WithData(st.lastDetection)))
    case SaveResults(data) =>
      var (st', thrown) := SaveDetectionResults(st, data);
      (st', Some(if thrown.Some? then Failed(thrown.value) else Done))
    case Unknown => (st, None)
  }

  /**
   * A successful detection request is what a later request for the stored
   * results returns; before any detection or save that request returns
   * `null`.
   */
  lemma StoredAfterDetection(st: Storage, page: Injection, other: Injection)
    ensures var (st', reply) := OnMessage(st, DetectTechnologies, page);
      Success(reply.value) ==> OnMessage(st', GetStoredResults, other).1 == reply
    ensures st.lastDetection.None? ==> OnMessage(st, GetStoredResults, other).1 == Some(WithData(None))
  {
  }

  /**
   * A detection whose main frame threw still replaces the stored results:
   * the request fails, the history is untouched, and a later request for
   * the stored results returns the page's address with `undefined`
   * technologies.
   */
  lemma ThrownDetectionStored(st: Storage, page: Injection, other: Injection)
    requires page.injected > 0 && |page.frames| > 0 && page.frames[0].None?
    ensures var (st', reply) := OnMessage(st, DetectTechnologies, page);
      && reply == Some(Failed(UndefinedLength))
      && st'.history == st.history
      && OnMessage(st', GetStoredResults, other).1 ==
           Some(WithData(Some(Enriched(page.tab.url, page.tab.title, page.now, None))))
  {
  }
}
