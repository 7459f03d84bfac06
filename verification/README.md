# StackScope detector, modelled in Dafny

StackScope is a browser extension that names the technologies a web page is
built with. Its content script, the `TechnologyDetector`, takes a catalogue
of technology fingerprints and looks for evidence of each on the page. It
searches six channels: JavaScript globals, script URLs, meta tags, link
URLs, cookie names and a bounded slice of the page's markup. It records
every piece of evidence per technology. Then it reports one result per
technology, ranked by confidence: the rounded mean of the evidence
confidences, capped at 100. A mutation observer re-runs detection two
seconds after the page stops changing. The background service worker saves
each detection as the last one and at the head of a 50-entry history, and
answers the popup's requests. The popup shows each result with a confidence
band and an evidence preview, exports CSV, copies a plain-text list and
re-sorts by confidence.

This project models that core as pure functions over immutable data:

- `Patterns` (`patternToRegex`). A pattern is in regex mode when it starts
  with `/` and its last `/` is past index 0. Otherwise it is escaped and
  matched as a literal, ignoring case. The JavaScript regular-expression
  engine is a parameter, `RegexEngine`: it says which source and flags
  compile and what a compiled expression matches. The model interprets only
  the escaped-literal fragment itself.
- `Globals` (`checkGlobalExists`). This is a walk down a dotted path through
  an object graph. A slot is a value or a getter that throws. `Resolve` is
  the reference definition, and the method is the loop the source runs.
- `Catalog`. This holds fingerprints, the page snapshot the channels read,
  `tech.confidence || default` and the markup blob.
- `Channels` (`detectFromJavaScript`, `detectFromScripts`, `detectFromMeta`,
  `detectFromLinks`, `detectFromCookies`, `detectFromHTML`). Each channel
  returns the `addEvidence` calls it makes, as a list of hits.
- `Evidence` (`addEvidence`). The store is the insertion-ordered name list
  plus the map from name to evidence list. A run of hits is a left fold.
- `Results` (`calculateResults`, `truncateValue`). This covers the rounded
  mean, the cap, the truncation and the stable descending sort, which comes
  from `Sorting`.
- `Detector` (`detect`). This is the whole pass, including the compile error
  that the script, meta and link channels let escape.
- `Debounce` (`setupMutationObserver`, `stopMutationObserver`). This is a
  timer state machine on a discrete millisecond clock. `Rescan` says what a
  fired timer does: it runs `detect`, then the callback if there is one.
- `Background`. This covers `saveDetectionResults`, the enrichment and error
  paths of `handleDetection`, and the replies of the `onMessage` listener.
- `Popup`. This covers the confidence band, the evidence preview, the CSV
  export, the clipboard text and sort-by-confidence of the popup.

The clock, the page, the tab, the storage contents and what a script
injection returned are all parameters. Nothing here performs I/O.

Detector results carry no `categories` field, but the popup reads one. So
every card, CSV row and category sort shows the category `Unknown` for
detected technologies (`Popup.DetectedCategoriesUnknown`). The model follows
the code in this.

## Model

| member | source | states |
|---|---|---|
| `Patterns.Mode` | detector.js:273-276 | A pattern in regex mode is exactly `/` + body + `/` + flags, with no slash in the flags. Any other pattern is literal text taken as it is. |
| `Patterns.DelimitedIsRegexMode` | detector.js:273-276 | Every `/body/flags` string whose flags hold no slash is read in regex mode, with that body and those flags. |
| `Patterns.PatternToRegex` | detector.js:271-283 | The only error is the `SyntaxError` of the pattern itself. A successful literal-mode pattern has flag `i`. |
| `Patterns.RegexPatternCompiles` | detector.js:273-277 | A regex-mode pattern compiles exactly when the engine accepts its body and flags, and it then yields exactly that body and those flags. |
| `Patterns.LiteralPatternMatches` | detector.js:280-282 | A literal-mode pattern always compiles, to the escaped text with flag `i`. It matches a text exactly when it occurs in that text, ignoring case. |
| `Patterns.EscapeIsLiteral` | detector.js:281 | Escaping yields a source with no bare metacharacter, in which every backslash escapes one. |
| `Patterns.UnescapeEscape` | detector.js:281 | Removing the escaping backslashes gives back the original pattern. |
| `Patterns.EscapeUnescape` | detector.js:281 | On every plain-string source, escaping undoes unescaping. Together with the row above, escaping is a bijection onto such sources. |
| `Patterns.DelimitedExample` | detector.js:273-277 | `/foo.*bar/i` compiles to the expression `foo.*bar` with flag `i`. |
| `Patterns.LiteralMetaIsLiteral` | detector.js:281-282 | Metacharacters of a literal pattern are matched literally: `a.c` does not match `abc`. |
| `Patterns.LiteralIgnoresCase` | detector.js:282 | Lower-casing the text never changes a literal pattern's verdict. |
| `Globals.CheckGlobalExists` | detector.js:83-96 | The loop returns true exactly when the path resolves and false exactly when a step is missing. A throwing getter propagates out of it. On every input it returns what `Globals.GlobalExists` does. |
| `Globals.GlobalExists` | detector.js:83-96 | The probe as a value, which the JavaScript channel uses. A thrown error names one of the path's segments. |
| `Globals.ResolvedIffEveryStep` | detector.js:87-93 | A path resolves exactly when every step passes through a non-null object that has the segment. The value finally reached is unconstrained. |
| `Globals.ResolveAppend` | detector.js:87-93 | Walking `a + b` is walking `a` and then, from where that ended, walking `b`. |
| `Globals.PrefixResolves` | detector.js:87-95 | Every prefix of a resolving path resolves. |
| `Globals.NestedFunctionExists` | detector.js:87-95 | `Example.init` exists when `window.Example.init` is a function: the last value may be a function. |
| `Globals.FunctionNotTraversed` | detector.js:88 | A path that steps through a function is reported missing. |
| `Catalog.ConfidenceFor` | detector.js:71 | The fingerprint's confidence is used when it is present and non-zero. Otherwise the channel default is used. The result is never 0. |
| `Catalog.EffectiveName` | detector.js:130 | A meta tag's name is its `name` attribute when that is non-empty, and its `property` attribute otherwise. |
| `Catalog.HtmlBlob` | detector.js:189-191 | The scanned markup is the whole head followed by the first 5000 code points of the body, and nothing else. |
| `Channels.JsChannelIn` | detector.js:63-78 | A global path is evidence exactly when it resolves. The value recorded is the pattern. Missing or throwing paths record nothing and do not stop the channel. |
| `Channels.JsChannelCount` | detector.js:63-78 | The channel records each hit as often as there are (fingerprint, pattern) positions whose path resolves with that hit. A path listed twice counts twice. |
| `Channels.JsChannel` | detector.js:63-78 | The JavaScript channel. What it records is stated by `Channels.JsChannelIn` and `Channels.JsChannelCount`. |
| `Channels.UrlChannelErr` | detector.js:101-117 | The script or link channel fails exactly when one of its patterns does not compile, even with no URL to test. It fails with that pattern's error. |
| `Channels.UrlChannelIn` | detector.js:149-165 | When it succeeds, the channel records a hit with a URL as its value exactly when some pattern matches that URL, and records nothing else. |
| `Channels.UrlChannelCount` | detector.js:105-116 | When it succeeds, the channel records each hit as often as there are (fingerprint, pattern, URL) positions whose pattern matches the URL with that hit. A URL listed twice, or matched by two patterns, counts twice. |
| `Channels.UrlChannel` | detector.js:101-117 | The script channel, and the link channel with a different kind. Its failure is stated by `Channels.UrlChannelErr`, and what it records by `Channels.UrlChannelIn` and `Channels.UrlChannelCount`. |
| `Channels.MetaChannelErr` | detector.js:122-144 | The meta channel fails exactly when a pattern it compiles does not compile. It compiles patterns only for a tag whose name equals the key and whose content is non-empty. |
| `Channels.MetaChannelIn` | detector.js:128-139 | When it succeeds, the channel records `key=content` for every entry, selected tag and pattern that matches the tag's content, and nothing else. |
| `Channels.MetaChannelCount` | detector.js:128-139 | When it succeeds, the channel records each hit as often as there are (fingerprint, entry, selected tag, pattern) positions whose pattern matches the tag's content with that hit. |
| `Channels.MetaChannel` | detector.js:122-144 | The meta channel. Its failure is stated by `Channels.MetaChannelErr`, and what it records by `Channels.MetaChannelIn` and `Channels.MetaChannelCount`. |
| `Channels.CookieNames` | detector.js:171 | The cookie string yields one name per `;`-separated segment, in order. Each name is the trimmed segment cut at its first `=`. |
| `Channels.CookieNamesOfHeader` | detector.js:171 | Reading the names back from a `name=value; name=value` string gives exactly the cookies' names, in order, whatever their values. |
| `Channels.NoCookiesOneEmptyName` | detector.js:171 | An empty cookie string still yields one name, the empty string. |
| `Channels.CookieChannelIn` | detector.js:170-182 | A cookie matcher is evidence exactly when it equals one of the names, character for character. The value recorded is the name. |
| `Channels.CookieChannelCount` | detector.js:170-182 | The channel records each hit once per (fingerprint, matcher) position naming a present cookie, however many cookies carry the name. |
| `Channels.CookieChannel` | detector.js:170-182 | The cookie channel. What it records is stated by `Channels.CookieChannelIn` and `Channels.CookieChannelCount`. |
| `Channels.HtmlChannelIn` | detector.js:187-207 | A markup pattern is evidence exactly when it compiles and matches the scanned text. A pattern that does not compile is skipped. |
| `Channels.HtmlChannelCount` | detector.js:193-206 | The channel records each hit as often as there are (fingerprint, pattern) positions whose pattern compiles and matches with that hit. |
| `Channels.HtmlChannel` | detector.js:187-207 | The markup channel. What it records is stated by `Channels.HtmlChannelIn` and `Channels.HtmlChannelCount`. |
| `Evidence.AddEvidence` | detector.js:212-224 | Adding keeps the store valid and appends the item to its name's list. It records the name last exactly when the name is new, and the earlier names stay in front. |
| `Evidence.AddEvidenceOthers` | detector.js:212-224 | Every other name's list is unchanged. The recorded names are the old ones plus this one. |
| `Evidence.AddAll` | detector.js:212-224 | A run of `addEvidence` calls keeps the store valid and only appends names. Its contents are stated by `Evidence.AddAllItems`, `Evidence.AddAllNames` and `Evidence.FirstHitOrder`. |
| `Evidence.AddAllItems` | detector.js:217-221 | After a run of hits, each name's list is its old list followed by that name's items in hit order, without deduplication. |
| `Evidence.AddAllNames` | detector.js:213-223 | After a run, the recorded names are the old ones plus those of the hits. |
| `Evidence.FirstHitOrder` | detector.js:213-223 | Names are recorded in the order of their first hit. |
| `Results.TruncateValue` | detector.js:262-265 | A value of at most 100 code points is kept. A longer one becomes its first 100 code points plus `...`. The result is never longer than 103. |
| `Results.TruncateIdempotent` | detector.js:262-265 | Truncating an already truncated value changes nothing. |
| `Results.RoundedMean` | detector.js:237 | The result is the nearest integer to `sum / n`, with halves rounded up, as `Math.round` does. |
| `Results.Aggregate` | detector.js:236-237 | The aggregate confidence is at most 100. |
| `Results.AggregateWithin` | detector.js:236-237 | The aggregate lies between the smallest and largest item confidence when those are at most 100. |
| `Results.MeanWithin` | detector.js:237 | A rounded mean of values in `[lo, hi]` stays in `[lo, hi]`. |
| `Results.Summarize` | detector.js:240-248 | A result carries the name and the item count. Its evidence has the same length and order as the items, with each kind kept and each value truncated. |
| `Results.CalculateResults` | detector.js:229-257 | The results are a permutation of the per-name summaries, sorted by descending confidence. |
| `Results.OneResultPerTech` | detector.js:232-251 | There is exactly one result per recorded name, summarising that name's whole list, and no result occurs twice. |
| `Results.TiesKeepRecordedOrder` | detector.js:254 | Among results of equal confidence, ranking keeps the order in which the names were recorded. |
| `Sorting.SortDesc` | detector.js:254 | A stable sort: it gives a permutation in descending key order, and the elements of any one key stay in their original order. |
| `Sorting.StableOrder` | detector.js:254 | Two elements with equal keys come out in the order they went in. |
| `Detector.Detect` | detector.js:42-58 | A pass fails exactly when its hit collection fails. Otherwise its results are sorted by descending confidence, each at most 100 and each with evidence. |
| `Detector.PassHits` | detector.js:47-52 | The six channels in source order, the first compile error ending the pass. Its failure is stated by `Detector.PassFails`. |
| `Detector.Rank` | detector.js:55-57 | Ranking a run of hits gives results sorted by descending confidence, each at most 100 and each with evidence. `Detector.RankResults` and `Detector.RankTies` state which results there are and how ties are ordered. |
| `Detector.PassFails` | detector.js:47-52 | A pass fails exactly when a script pattern, a selected meta pattern or a link pattern does not compile. |
| `Detector.SilentIgnored` | detector.js:65 | A fingerprint without matchers can be removed from the catalogue without changing the pass or its results. |
| `Detector.RankResults` | detector.js:42-55 | A result exists exactly for each technology with a hit, and it is the summary of all that technology's hits in order. No two results share a name. |
| `Detector.RankTies` | detector.js:47-55 | Results of equal confidence come in the order of their technologies' first hits: channel order first, then catalogue order. |
| `Debounce.Start` | detector.js:289-310 | A detector starts with no observer and no pending timer, which satisfies the controller invariant. |
| `Debounce.Advance` | detector.js:298-301 | Moving the clock to `t` leaves the observer and the subscription counter alone, and fires only timers due by `t`. |
| `Debounce.AdvanceInv` | detector.js:298-301 | Moving the clock forward keeps the invariant: what stays pending is due after the new time and within 2000 ms of it, still in due order. |
| `Debounce.RescheduleInv` | detector.js:296-299 | Replacing the connected observer's timer keeps one timer per subscription, in due order, each due within the next 2000 ms. |
| `Debounce.Reschedule` | detector.js:297-298 | Rescheduling leaves the clock, the subscription counter and the observer alone. `Debounce.MutationReschedules` states the timers. |
| `Debounce.Apply` | detector.js:289-320 | An event leaves the clock alone. Setup takes a fresh subscription number, and a mutation or stop keeps the counter. `Debounce.SetupReplaces`, `Debounce.MutationReschedules`, `Debounce.MutationUnobserved` and `Debounce.StopKeepsTimers` state the rest. |
| `Debounce.Step` | detector.js:296-301 | An input moves the clock to its time. `Debounce.StepIs` and `Debounce.AdvanceFires` say what fires. |
| `Debounce.Run` | detector.js:289-320 | A run of inputs ends at the last input's time. `Debounce.RunInv` and `Debounce.RunAppend` state the rest. |
| `Debounce.RunInv` | detector.js:289-320 | Every controller reached by setups, mutations and stops in time order satisfies the invariant. |
| `Debounce.AdvanceFires` | detector.js:298-301 | Of the pending timers, exactly those due by `t` fire. |
| `Debounce.SetupReplaces` | detector.js:289-310 | Setup replaces the observer with a fresh subscription. Pending timers are kept, and from then on mutations reschedule only the new subscription's timer. |
| `Debounce.MutationReschedules` | detector.js:296-302 | A mutation leaves its subscription exactly one timer, due 2000 ms later. Every other timer is unchanged. |
| `Debounce.MutationUnobserved` | detector.js:296-302 | Without a connected observer, a mutation changes nothing. |
| `Debounce.StopKeepsTimers` | detector.js:315-320 | Stop disconnects the observer and cancels no timer. With no observer it is a no-op. |
| `Debounce.StoppedTimerFires` | detector.js:315-320 | A timer pending when the observer stops still fires when due. |
| `Debounce.BurstPending` | detector.js:296-302 | During a burst of mutations less than 2000 ms apart, nothing fires and a single timer stays pending, due 2000 ms after the latest mutation. |
| `Debounce.BurstFiresOnce` | detector.js:296-302 | Such a burst fires exactly once, 2000 ms after its last mutation, with the observer's job. Afterwards nothing is pending and the observer is unchanged. |
| `Debounce.RunAppend` | detector.js:296-301 | Running `a + b` is running `a` and then `b` from where `a` ended. The timers fired are those of `a`, then those of `b`. |
| `Debounce.BurstAfterQuiet` | detector.js:296-302 | A burst that begins once the previous timer is due fires that timer at its first mutation, then leaves a single timer 2000 ms after its last mutation. |
| `Debounce.TwoBurstsRun` | detector.js:296-302 | Over two bursts separated by at least 2000 ms of quiet, the first burst's timer fires as the second begins, and the second burst's timer is pending. |
| `Debounce.TwoBurstsFireTwice` | detector.js:296-302 | Two such bursts fire exactly twice, 2000 ms after the last mutation of each, and then leave nothing pending. |
| `Rescan.Fire` | detector.js:298-301 | A fired timer runs `detect` with the captured fingerprints on the page at that moment. It calls the callback with the results exactly when a callback was given and detection returned. |
| `Rescan.BurstDetectsOnce` | detector.js:289-310 | A burst ends in one detection, 2000 ms after the last mutation, with the setup's fingerprints. |
| `Rescan.TwoBurstsDetectTwice` | detector.js:289-310 | Two bursts separated by at least 2000 ms of quiet end in two detections, each 2000 ms after its burst's last mutation and each on the page as it is at that moment. |
| `Background.SaveDetectionResults` | background.js:143-166 | The results become the last detection. Their entry `{url, timestamp, techCount}` goes first in the history, a missing history counts as empty, and the history is cut to 50 entries. With `undefined` technologies the last detection is still written, then counting them throws and the history is untouched. |
| `Background.SaveAllHistory` | background.js:143-161 | After any run of saves, the history is the 50 most recent entries, newest first, and the last detection is the last one saved. A save with `undefined` technologies adds no entry. |
| `Background.HandleDetection` | background.js:66-111 | An empty injection result or an empty detection result raises its error and saves nothing. Otherwise the main frame's results are enriched, unchanged, with the tab's URL and title, then saved and returned. When the main frame's detection threw, its `undefined` result is saved as the last detection and the request fails with the error thrown while counting it. |
| `Background.OnMessage` | background.js:39-60 | A detection reply is `{success: true, data}` or `{success: false, error}`. A stored-results reply is the last detection or null. A save reply is `{success: true}`, or `{success: false, error}` for data without technologies. Other actions get no reply. |
| `Background.StoredAfterDetection` | background.js:40-52 | A stored-results request made after a successful detection replies with that detection's data. Before any detection it replies with null. |
| `Background.ThrownDetectionStored` | background.js:143-153 | A detection whose main frame threw fails, leaves the history alone, and still replaces the stored results with the page's address and `undefined` technologies. |
| `Popup.BandOf` | popup.js:196-198 | The band is high from 80, medium from 60 to 79, and low below 60. |
| `Popup.BandMonotone` | popup.js:196-198 | A higher confidence never gets a lower band. |
| `Popup.CategoriesOf` | popup.js:201 | Missing categories read as `['Unknown']`. |
| `Popup.DetectedCategoriesUnknown` | popup.js:328 | Every detected technology exports the single category `Unknown`. |
| `Popup.EvidencePreview` | popup.js:219-236 | The preview exists only with the toggle on and non-empty evidence. It shows the first `min(3, n)` items and a `+k more` line exactly when `n > 3`, so the shown items plus `k` account for all `n`. |
| `Popup.DetectedCounts` | popup.js:223 | For a detector result, the badge and the CSV count equal `evidenceCount`. |
| `Popup.DisplayedCount` | popup.js:223 | The badge count. `Popup.DetectedCounts` states that it equals `evidenceCount` for a detector result. |
| `Popup.CsvCount` | popup.js:329 | The CSV count. `Popup.DetectedCounts` states that it equals `evidenceCount` for a detector result. |
| `Popup.CsvLines` | popup.js:332-335 | The CSV has `n + 1` lines, the header and then each technology's row in order, as long as no name or category holds a line break. |
| `Popup.Csv` | popup.js:324-335 | The CSV text. `Popup.CsvLines` and `Popup.CsvRowCells` state its lines and cells. |
| `Popup.CsvRowCells` | popup.js:325-334 | Splitting a row at commas and unquoting gives the name, the confidence (which parses back), the categories joined by `; ` and the count, as long as no name or category holds a comma. |
| `Popup.RowAvoids` | popup.js:334 | A row contains a separator character only when a name or category does, because quotes add no escaping. |
| `Popup.Clipboard` | popup.js:347-349 | Without technologies the copied text is empty. |
| `Popup.ClipboardReadBack` | popup.js:347-349 | The copied text splits back into one `name (confidence%)` line per technology, in order. |
| `Popup.SortByConfidence` | popup.js:275-282 | Sorting renders a stably sorted permutation of the loaded list and leaves the loaded list unchanged. Without results it is a no-op. |
| `Popup.SortDetectedUnchanged` | popup.js:282 | Sorting the detector's ranked results by confidence renders them in the order they came. |

## Left out

- DOM reading is left out: `querySelectorAll`, `innerHTML`, `document.cookie` and URL resolution of `src` and `href`. The page is an already extracted `Catalog.Page`.
- The regular-expression engine is a parameter, because JavaScript `RegExp` semantics are far outside this model. The `g` flag's `lastIndex` state is also left out, when one compiled expression is reused across URLs. Literal matching assumes ASCII case folding.
- Meta entries are taken in the order of the catalogue's `meta` object keys. JavaScript's ordering of integer-like keys is not modelled.
- Results.TruncateValue: lengths are counted in code points, while `substring` and `length` count UTF-16 code units. The two differ only for values holding characters outside the Basic Multilingual Plane, and a cut through a surrogate pair is not modelled.
- Catalog.HtmlBlob: the body is cut after 5000 code points, not 5000 UTF-16 code units, for the same reason.
- Confidences are integers. Non-numeric, fractional or NaN confidences in a catalogue are not modelled.
- The store left behind when a pass throws part-way is not modelled. The next `detect` clears it, and the model returns only the error.
- The `MutationObserver` and `setTimeout` are replaced by a discrete millisecond clock with inputs in non-decreasing time order. A timer due at the same instant as an input fires before the input is handled; the browser's ordering of simultaneous tasks is not modelled.
- Debounce.RunInv: holds only for inputs in chronological order, because a real clock cannot go back.
- All `chrome.*` calls are left out because they are asynchronous I/O plumbing: messaging, script injection, `tabs.get`, storage reads and writes, the `fetch` of the fingerprint catalogue, the keep-alive port and the install hooks. A rejected storage call, and the partial state it leaves, is not modelled.
- Background.HandleDetection: a frame whose `runDetection` threw, whether "Detector not loaded" or the `SyntaxError` of a pattern `detect` could not compile, is taken to report `undefined` as its result. The message it threw does not reach the worker.
- Background.SaveDetectionResults: the message thrown when counting `undefined` technologies is the wording of the V8 engine. Other engines word it differently.
- options.js is left out: it only loads and saves settings.
- Popup rendering is left out: HTML templates, icons, downloads, the clipboard API, notifications, and the name and category sorts, which use locale-dependent `localeCompare`.
- The guard against defining the detector twice on `window` is global wiring and is left out.
