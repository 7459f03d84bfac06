/**
 * What the popup makes of a set of results: the confidence band and
 * evidence preview of each card, the CSV export, the clipboard text, and
 * the re-ordering by confidence. Rendering into the document, icons,
 * downloads and the clipboard itself are not modelled; the functions return
 * the strings and lists the popup would hand to them.
 */
module Popup {
  import opened Wrappers
  import opened Strings
  import opened Sorting
  import opened Evidence
  import opened Results

  /**
   * A technology as the popup reads it back from storage. Fields a result
   * may lack are optional; a missing or zero `evidenceCount` reads as 0,
   * which is falsy.
   */
  datatype Tech = Tech(name: string, confidence: int, categories: Option<seq<string>>,
                       evidenceCount: int, evidence: Option<seq<Shown>>)

  /** A detector result as stored: it carries no categories. */
  function FromResult(r: TechResult): (t: Tech)
    ensures t.name == r.name && t.confidence == r.confidence
    ensures t.evidenceCount == r.evidenceCount && t.evidence == Some(r.evidence)
    ensures t.categories.None?
  {
    Tech(r.name, r.confidence, None, r.evidenceCount, Some(r.evidence))
  }

  /** The three badge colours of `createTechCard`. */
  datatype Band = Low | Medium | High

  /** The confidence band: high from 80, medium from 60, low below. */
  function BandOf(confidence: int): (b: Band)
    ensures b == High <==> confidence >= 80
    ensures b == Medium <==> 60 <= confidence < 80
    ensures b == Low <==> confidence < 60
  {
    if confidence >= 80 then High else if confidence >= 60 then Medium else Low
  }

  function Level(b: Band): nat
  {
    match b
    case Low => 0
    case Medium => 1
    case High => 2
  }

  /** A higher confidence never gets a lower band. */
  lemma BandMonotone(a: int, b: int)
    requires a <= b
    ensures Level(BandOf(a)) <= Level(BandOf(b))
  {
  }

  /** The categories shown, listed for CSV and used for sorting: `['Unknown']` when absent. */
  function CategoriesOf(t: Tech): (cs: seq<string>)
    ensures t.categories.None? ==> cs == ["Unknown"]
    ensures t.categories.Some? ==> cs == t.categories.value
  {
    t.categories.GetOr(["Unknown"])
  }

  /** Every technology of a detection shows the single category `Unknown`. */
  lemma DetectedCategoriesUnknown(rs: seq<TechResult>)
    ensures forall k :: 0 <= k < |rs| ==> CategoriesOf(FromResult(rs[k])) == ["Unknown"]
  {
  }

  /** How many evidence items a card shows before the `+k more` line. */
  const PreviewSize: nat := 3

  /** The evidence block of a card: its count badge, the items shown, and how many are not shown. */
  datatype Preview = Preview(count: int, shown: seq<Shown>, more: Option<nat>)

  /** The count badge: `evidenceCount`, or the list's length when that is falsy. */
  function DisplayedCount(t: Tech, ev: seq<Shown>): int
  {
    if t.evidenceCount != 0 then t.evidenceCount else |ev|
  }

  /**
   * The evidence block of `createTechCard`: present only when the toggle is
   * on and the technology has evidence; the first three items, then a line
   * counting the rest when there are more than three.
   */
  function EvidencePreview(showEvidence: bool, t: Tech): (p: Option<Preview>)
    ensures p.Some? <==> showEvidence && t.evidence.Some? && |t.evidence.value| > 0
    ensures p.Some? ==>
      var ev := t.evidence.value;
      && |p.value.shown| == (if |ev| < PreviewSize then |ev| else PreviewSize)
      && p.value.shown == ev[..|p.value.shown|]
      && (p.value.more.Some? <==> |ev| > PreviewSize)
      && |p.value.shown| + p.value.more.GetOr(0) == |ev|
      && p.value.count == DisplayedCount(t, ev)
  {
    if showEvidence && t.evidence.Some? && |t.evidence.value| > 0 then
      var ev := t.evidence.value;
      var shown := if |ev| > PreviewSize then ev[..PreviewSize] else ev;
      Some(Preview(DisplayedCount(t, ev), shown, if |ev| > PreviewSize then Some(|ev| - PreviewSize) else None))
    else None
  }

  /** The CSV count: `evidenceCount`, else the list's length, else 0. */
  function CsvCount(t: Tech): int
  {
    if t.evidenceCount != 0 then t.evidenceCount
    else if t.evidence.Some? && |t.evidence.value| != 0 then |t.evidence.value|
    else 0
  }

  /**
   * For a detector result, whose count is its list's length, the badge and
   * the CSV give that count and the preview accounts for every item.
   */
  lemma DetectedCounts(r: TechResult)
    requires r.evidenceCount == |r.evidence|
    ensures CsvCount(FromResult(r)) == r.evidenceCount
    ensures |r.evidence| > 0 ==> EvidencePreview(true, FromResult(r)).value.count == r.evidenceCount
    ensures EvidencePreview(false, FromResult(r)).None?
  {
  }

  const CsvHeader: string := "Name,Confidence,Categories,Evidence Count"

  /** A cell wrapped in double quotes, inner quotes left as they are. */
  function Quote(s: string): string
  {
    "\"" + s + "\""
  }

  /** The cells of a row before quoting. */
  function CsvCells(t: Tech): (cells: seq<string>)
    ensures |cells| == 4
  {
    [t.name, IntToString(t.confidence), Join(CategoriesOf(t), "; "), IntToString(CsvCount(t))]
  }

  function QuoteAll(cells: seq<string>): (r: seq<string>)
    ensures |r| == |cells| && forall k :: 0 <= k < |cells| ==> r[k] == Quote(cells[k])
  {
    seq(|cells|, k requires 0 <= k < |cells| => Quote(cells[k]))
  }

  /** One CSV line: the quoted cells joined by commas. */
  function CsvRow(t: Tech): string
  {
    Join(QuoteAll(CsvCells(t)), ",")
  }

  function CsvRows(ts: seq<Tech>): (rows: seq<string>)
    ensures |rows| == |ts| && forall k :: 0 <= k < |ts| ==> rows[k] == CsvRow(ts[k])
  {
    seq(|ts|, k requires 0 <= k < |ts| => CsvRow(ts[k]))
  }

  /** `handleExportCsv`: the header line, then one line per technology, joined by newlines. */
  function Csv(ts: seq<Tech>): string
  {
    Join([CsvHeader] + CsvRows(ts), "\n")
  }

  /** Neither a name nor a category holds `c`. */
  predicate Avoids(t: Tech, c: char)
  {
    && c !in t.name
    && forall k :: 0 <= k < |CategoriesOf(t)| ==> c !in CategoriesOf(t)[k]
  }

  /** A character that is neither a digit nor `-` is not in a rendered integer. */
  lemma NotInNumber(i: int, c: char)
    requires !IsDigit(c) && c != '-'
    ensures c !in IntToString(i)
  {
    if i < 0 {
      assert IntToString(i) == "-" + NatToString(-i);
    }
  }

  /** No cell of a row holds `c` when neither the name nor a category does. */
  lemma CellsAvoid(t: Tech, c: char)
    requires Avoids(t, c) && !IsDigit(c) && c != '-' && c != '"' && c !in "; "
    ensures forall k :: 0 <= k < 4 ==> c !in QuoteAll(CsvCells(t))[k]
  {
    NotInNumber(t.confidence, c);
    NotInNumber(CsvCount(t), c);
    JoinAvoids(CategoriesOf(t), "; ", c);
    forall k | 0 <= k < 4 ensures c !in QuoteAll(CsvCells(t))[k] {
      var s := CsvCells(t)[k];
      assert c !in s;
    }
  }

  /** A row holds `c` only when the name or a category does. */
  lemma RowAvoids(t: Tech, c: char)
    requires Avoids(t, c) && !IsDigit(c) && c != '-' && c != '"' && c != ',' && c !in "; "
    ensures c !in CsvRow(t)
  {
    CellsAvoid(t, c);
    JoinAvoids(QuoteAll(CsvCells(t)), ",", c);
  }

  /**
   * The CSV has one line more than there are technologies: the header, then
   * each technology's row in order, as long as no name or category holds a
   * line break.
   */
  lemma CsvLines(ts: seq<Tech>)
    requires forall k :: 0 <= k < |ts| ==> Avoids(ts[k], '\n')
    ensures |Split(Csv(ts), '\n')| == |ts| + 1
    ensures Split(Csv(ts), '\n') == [CsvHeader] + CsvRows(ts)
  {
    var lines := [CsvHeader] + CsvRows(ts);
    forall k | 1 <= k < |lines| ensures '\n' !in lines[k] {
      assert lines[k] == CsvRow(ts[k - 1]);
      RowAvoids(ts[k - 1], '\n');
    }
    assert '\n' !in lines[0] by {
      assert lines[0] == CsvHeader;
    }
    SplitJoin(lines, '\n');
  }

  /** The text between the quotes of a cell. */
  function Unquote(s: string): string
  {
    if |s| >= 2 then s[1..|s| - 1] else s
  }

  /**
   * Reading a row back: split at commas and strip the quotes gives the name,
   * the confidence, the categories joined by `; ` and the count, as long as
   * no name or category holds a comma.
   */
  lemma CsvRowCells(t: Tech)
    requires Avoids(t, ',')
    ensures |Split(CsvRow(t), ',')| == 4
    ensures forall k :: 0 <= k < 4 ==> Unquote(Split(CsvRow(t), ',')[k]) == CsvCells(t)[k]
    ensures ParseInt(Unquote(Split(CsvRow(t), ',')[1])) == t.confidence
  {
    var q := QuoteAll(CsvCells(t));
    CellsAvoid(t, ',');
    SplitJoin(q, ',');
    forall k | 0 <= k < 4 ensures Unquote(q[k]) == CsvCells(t)[k] {
      assert Quote(CsvCells(t)[k])[1..|CsvCells(t)[k]| + 1] == CsvCells(t)[k];
    }
    ParseIntToString(t.confidence);
  }

  /** One clipboard line: `name (confidence%)`. */
  function ClipboardLine(t: Tech): string
  {
    t.name + " (" + IntToString(t.confidence) + "%)"
  }

  function ClipboardLines(ts: seq<Tech>): (lines: seq<string>)
    ensures |lines| == |ts| && forall k :: 0 <= k < |ts| ==> lines[k] == ClipboardLine(ts[k])
  {
    seq(|ts|, k requires 0 <= k < |ts| => ClipboardLine(ts[k]))
  }

  /** `handleCopy`: one line per technology, joined by newlines; empty without technologies. */
  function Clipboard(ts: seq<Tech>): (text: string)
    ensures |ts| == 0 ==> text == ""
  {
    Join(ClipboardLines(ts), "\n")
  }

  /**
   * The clipboard text splits back into one line per technology, in order,
   * each starting with its name and ending with its confidence and `%)`.
   */
  lemma ClipboardReadBack(ts: seq<Tech>)
    requires |ts| > 0 && forall k :: 0 <= k < |ts| ==> '\n' !in ts[k].name
    ensures Split(Clipboard(ts), '\n') == ClipboardLines(ts)
    ensures forall k :: 0 <= k < |ts| ==>
      var line := Split(Clipboard(ts), '\n')[k];
      && line[..|ts[k].name|] == ts[k].name
      && line[|line| - 2..] == "%)"
  {
    var lines := ClipboardLines(ts);
    forall k | 0 <= k < |lines| ensures '\n' !in lines[k] {
      NotInNumber(ts[k].confidence, '\n');
    }
    SplitJoin(lines, '\n');
  }

  /** The popup's state: the results loaded, if any, and the list last rendered. */
  datatype View = View(current: Option<seq<Tech>>, rendered: seq<Tech>)

  function ConfidenceOf(t: Tech): int
  {
    t.confidence
  }

  /**
   * `handleSort` with `confidence` selected: a copy of the loaded
   * technologies, stably sorted by descending confidence, is rendered; the
   * loaded list itself is not touched. Without results nothing happens.
   */
  function SortByConfidence(v: View): (r: View)
    ensures r.current == v.current
    ensures v.current.None? ==> r == v
    ensures v.current.Some? ==>
      && multiset(r.rendered) == multiset(v.current.value)
      && SortedDesc(r.rendered, ConfidenceOf)
      && forall c :: WithKey(r.rendered, ConfidenceOf, c) == WithKey(v.current.value, ConfidenceOf, c)
  {
    if v.current.None? then v else v.(rendered := SortDesc(v.current.value, ConfidenceOf))
  }

  /** The technologies of a set of results, as the popup reads them. */
  function FromResults(rs: seq<TechResult>): (ts: seq<Tech>)
    ensures |ts| == |rs| && forall k :: 0 <= k < |rs| ==> ts[k] == FromResult(rs[k])
  {
    seq(|rs|, k requires 0 <= k < |rs| => FromResult(rs[k]))
  }

  /**
   * The detector already ranks its results by descending confidence, so
   * sorting them by confidence renders them in the order they came.
   */
  lemma SortDetectedUnchanged(rs: seq<TechResult>)
    requires SortedDesc(rs, Confidence)
    ensures SortByConfidence(View(Some(FromResults(rs)), [])).rendered == FromResults(rs)
  {
    var ts := FromResults(rs);
    assert SortedDesc(ts, ConfidenceOf) by {
      forall i, j | 0 <= i < j < |ts| ensures ConfidenceOf(ts[i]) >= ConfidenceOf(ts[j]) {
        assert Confidence(rs[i]) >= Confidence(rs[j]);
      }
    }
    SortSorted(ts, ConfidenceOf);
  }
}
