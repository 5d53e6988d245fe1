/**
 * The parser of an EDGAR daily master index (`CIK|Company Name|Form
 * Type|Date Filed|Filename` lines after a dashed rule), and the quarter label
 * of the index's URL.
 */
module DailyIndex {
  import opened Wrappers
  import opened Text

  const ArchivesBase := "https://www.sec.gov/Archives/"
  const Rule := "-----"

  /** One parsed line. */
  datatype Filing = Filing(cik: string, companyName: string, formType: string, dateFiled: string,
                           filename: string, link: string)

  // ---------------------------------------------------------------------
  // The quarter of a month
  // ---------------------------------------------------------------------

  /** `(month - 1) // 3 + 1` for a month of a formatted date. */
  function Quarter(month: int): (q: int)
    requires 1 <= month <= 12
    ensures 1 <= q <= 4
    ensures 3 * (q - 1) < month <= 3 * q
  {
    (month - 1) / 3 + 1
  }

  /** The quarter directory of the index URL, "QTR1" to "QTR4". */
  function QuarterLabel(month: int): (tag: string)
    requires 1 <= month <= 12
    ensures |tag| == 4 && tag[..3] == "QTR" && tag[3] == DigitChar(Quarter(month))
  {
    "QTR" + NatToString(Quarter(month))
  }

  // ---------------------------------------------------------------------
  // Where the data starts
  // ---------------------------------------------------------------------

  /** `index_content.strip().split('\n')` */
  function Lines(content: string): seq<string> {
    Split(Strip(content), '\n')
  }

  /** The first index at or after `from` of a line that starts with five dashes, or the number of lines. */
  function FirstRule(lines: seq<string>, from: nat): (r: nat)
    requires from <= |lines|
    ensures from <= r <= |lines|
    ensures r < |lines| ==> StartsWith(lines[r], Rule)
    ensures forall j :: from <= j < r ==> !StartsWith(lines[j], Rule)
    decreases |lines| - from
  {
    if from == |lines| || StartsWith(lines[from], Rule) then from else FirstRule(lines, from + 1)
  }

  /**
   * The line after the first dashed rule, or the first line when there is
   * no rule.
   */
  function DataStart(lines: seq<string>): (d: nat)
    ensures d <= |lines|
    ensures d == 0 <==> forall j :: 0 <= j < |lines| ==> !StartsWith(lines[j], Rule)
    ensures d > 0 ==> StartsWith(lines[d - 1], Rule) && forall j :: 0 <= j < d - 1 ==> !StartsWith(lines[j], Rule)
  {
    var r := FirstRule(lines, 0);
    if r == |lines| then 0 else r + 1
  }

  /** The search loop for `data_start`. */
  method FindDataStart(lines: seq<string>) returns (d: nat)
    ensures d == DataStart(lines)
  {
    d := 0;
    var i := 0;
    while i < |lines|
      invariant 0 <= i <= |lines|
      invariant forall j :: 0 <= j < i ==> !StartsWith(lines[j], Rule)
    {
      if StartsWith(lines[i], Rule) {
        d := i + 1;
        return;
      }
      i := i + 1;
    }
  }

  // ---------------------------------------------------------------------
  // The window of lines examined
  // ---------------------------------------------------------------------

  /** The end Python uses for `lines[start:end]`: a negative end counts from the back, and both ends are clamped. */
  function SliceEnd(n: nat, end: int): (r: nat)
    ensures r <= n
  {
    if end < 0 then (if end + n < 0 then 0 else end + n)
    else if end > n then n else end
  }

  /** `lines[start:start + max_entries * 2]` */
  function Window(lines: seq<string>, start: nat, maxEntries: int): (w: seq<string>)
    requires start <= |lines|
    ensures start + |w| <= |lines| && w == lines[start..start + |w|]
    ensures maxEntries >= 0 ==> |w| == if 2 * maxEntries <= |lines| - start then 2 * maxEntries else |lines| - start
  {
    var e := SliceEnd(|lines|, start + 2 * maxEntries);
    if e <= start then [] else lines[start..e]
  }

  /**
   * A negative `max_entries` does not empty the window: the end counts from
   * the back, so from the first line all but the last `-2 * max_entries`
   * lines are examined.
   */
  lemma NegativeMaxEntries(lines: seq<string>, maxEntries: int)
    requires maxEntries < 0 && |lines| > -2 * maxEntries
    ensures Window(lines, 0, maxEntries) == lines[..|lines| + 2 * maxEntries]
  {
  }

  // ---------------------------------------------------------------------
  // One line
  // ---------------------------------------------------------------------

  /** The filing of a line's fields, each cleaned by `clean`: fewer than five fields give nothing. */
  function FilingWith(clean: string -> string, parts: seq<string>): Option<Filing> {
    if |parts| < 5 then None
    else Some(Filing(clean(parts[0]), clean(parts[1]), clean(parts[2]), clean(parts[3]), clean(parts[4]),
                     ArchivesBase + clean(parts[4])))
  }

  /** The first five fields, stripped. */
  function FilingOf(parts: seq<string>): Option<Filing> {
    FilingWith(Strip, parts)
  }

  /** A blank line gives nothing; otherwise the filing of its bar-separated fields. */
  function ParseLine(line: string): Option<Filing> {
    if Strip(line) == "" then None else FilingOf(Split(line, '|'))
  }

  /** A field as it reads after stripping: no whitespace at its ends, and no field separator. */
  predicate CleanField(x: string) {
    '|' !in x && (x == [] || (!IsSpace(x[0]) && !IsSpace(x[|x| - 1])))
  }

  /** A stripped field of a split line is clean. */
  lemma CleanStrip(s: string)
    requires '|' !in s
    ensures CleanField(Strip(s))
  {
    StripEnds(s);
    var l := LStripChars(s, Whitespace);
    var r := RStripChars(l, Whitespace);
    assert forall i :: 0 <= i < |r| ==> r[i] == s[|s| - |l| + i];
  }

  /** The link is the archive base followed by the filename, and every field is clean. */
  lemma ParseLineShape(line: string)
    requires ParseLine(line).Some?
    ensures var f := ParseLine(line).value;
      && f.link == ArchivesBase + f.filename
      && CleanField(f.cik) && CleanField(f.companyName) && CleanField(f.formType)
      && CleanField(f.dateFiled) && CleanField(f.filename)
  {
    var parts := Split(line, '|');
    CleanStrip(parts[0]);
    CleanStrip(parts[1]);
    CleanStrip(parts[2]);
    CleanStrip(parts[3]);
    CleanStrip(parts[4]);
  }

  /** A string that starts with a non-space character does not strip to nothing. */
  lemma NotBlank(s: string)
    requires s != [] && !IsSpace(s[0])
    ensures Strip(s) != ""
  {
    var l := LStripChars(s, Whitespace);
    WhitespaceIsSpace(s[0]);
    assert l != [] && l[0] !in Whitespace;
    var r := RStripChars(l, Whitespace);
    assert r != [];
  }

  /** Fields that `clean` leaves alone come back as they are. */
  lemma FilingWithFixed(clean: string -> string, parts: seq<string>)
    requires |parts| == 5 && forall k :: 0 <= k < 5 ==> clean(parts[k]) == parts[k]
    ensures FilingWith(clean, parts) == Some(Filing(parts[0], parts[1], parts[2], parts[3], parts[4], ArchivesBase + parts[4]))
  {
  }

  /** Clean fields are their own stripped forms. */
  lemma FilingOfClean(parts: seq<string>)
    requires |parts| == 5 && forall k :: 0 <= k < 5 ==> CleanField(parts[k])
    ensures FilingOf(parts) == Some(Filing(parts[0], parts[1], parts[2], parts[3], parts[4], ArchivesBase + parts[4]))
  {
    forall k | 0 <= k < 5 ensures Strip(parts[k]) == parts[k] {
      StripFixed(parts[k]);
    }
    FilingWithFixed(Strip, parts);
  }

  /** A line that is not blank parses to the filing of its fields. */
  lemma ParseLineOf(line: string, parts: seq<string>)
    requires Strip(line) != "" && Split(line, '|') == parts
    ensures ParseLine(line) == FilingOf(parts)
  {
  }

  /**
   * Five clean fields with a non-empty CIK, joined by bars as the index
   * writes them, parse back to those fields and the filename's link.
   */
  lemma ParseLineRoundTrip(fields: seq<string>)
    requires |fields| == 5 && fields[0] != []
    requires forall k :: 0 <= k < 5 ==> CleanField(fields[k])
    ensures ParseLine(Join("|", fields))
      == Some(Filing(fields[0], fields[1], fields[2], fields[3], fields[4], ArchivesBase + fields[4]))
  {
    var line := Join("|", fields);
    SplitJoin(fields, '|');
    JoinHead("|", fields);
    NotBlank(line);
    FilingOfClean(fields);
    ParseLineOf(line, fields);
  }

  // ---------------------------------------------------------------------
  // The parse
  // ---------------------------------------------------------------------

  /** The results of `f` on the lines, skipping the lines that give nothing, in input order. */
  function Kept(f: string -> Option<Filing>, lines: seq<string>): (r: seq<Filing>)
    ensures |r| <= |lines|
  {
    if lines == [] then []
    else Kept(f, lines[..|lines| - 1]) + (match f(lines[|lines| - 1]) case Some(x) => [x] case None => [])
  }

  /** Keeping distributes over concatenation, so the order of the lines is the order of the results. */
  lemma {:induction false} KeptAppend(f: string -> Option<Filing>, a: seq<string>, b: seq<string>)
    ensures Kept(f, a + b) == Kept(f, a) + Kept(f, b)
    decreases |b|
  {
    if b == [] {
      assert a + b == a;
    } else {
      assert (a + b)[..|a + b| - 1] == a + b[..|b| - 1];
      KeptAppend(f, a, b[..|b| - 1]);
    }
  }

  /** Every result is what `f` gives on some line. */
  lemma {:induction false} KeptFrom(f: string -> Option<Filing>, lines: seq<string>, k: nat)
    requires k < |Kept(f, lines)|
    ensures exists i :: 0 <= i < |lines| && f(lines[i]) == Some(Kept(f, lines)[k])
  {
    var n := |lines| - 1;
    if k < |Kept(f, lines[..n])| {
      KeptFrom(f, lines[..n], k);
      var i :| 0 <= i < n && f(lines[..n][i]) == Some(Kept(f, lines[..n])[k]);
      assert lines[..n][i] == lines[i];
    } else {
      assert f(lines[n]) == Some(Kept(f, lines)[k]);
    }
  }

  /** `parse_daily_index` as a value. */
  function DailyIndexOf(content: string, maxEntries: int): seq<Filing> {
    var lines := Lines(content);
    Kept(ParseLine, Window(lines, DataStart(lines), maxEntries))
  }

  /** With a non-negative `max_entries` at most twice that many filings come back. */
  lemma DailyIndexBound(content: string, maxEntries: int)
    requires maxEntries >= 0
    ensures |DailyIndexOf(content, maxEntries)| <= 2 * maxEntries
  {
  }

  /** Every filing's link is the archive base followed by its filename, and its fields are clean. */
  lemma DailyIndexShape(content: string, maxEntries: int, k: nat)
    requires k < |DailyIndexOf(content, maxEntries)|
    ensures var f := DailyIndexOf(content, maxEntries)[k];
      && f.link == ArchivesBase + f.filename
      && CleanField(f.cik) && CleanField(f.companyName) && CleanField(f.formType)
      && CleanField(f.dateFiled) && CleanField(f.filename)
  {
    var lines := Lines(content);
    var w := Window(lines, DataStart(lines), maxEntries);
    KeptFrom(ParseLine, w, k);
    var i :| 0 <= i < |w| && ParseLine(w[i]) == Some(Kept(ParseLine, w)[k]);
    ParseLineShape(w[i]);
  }

  /** The loop of `parse_daily_index`, for a line parser `f`. */
  method KeepParsed(f: string -> Option<Filing>, lines: seq<string>) returns (filings: seq<Filing>)
    ensures filings == Kept(f, lines)
  {
    filings := [];
    var i := 0;
    while i < |lines|
      invariant 0 <= i <= |lines|
      invariant filings == Kept(f, lines[..i])
    {
      assert lines[..i + 1][..i] == lines[..i];
      var filing := f(lines[i]);
      if filing.Some? {
        filings := filings + [filing.value];
      }
      i := i + 1;
    }
    assert lines[..i] == lines;
  }

  /** `parse_daily_index`: find where the data starts, then parse the window's lines. */
  method ParseDailyIndex(content: string, maxEntries: int) returns (filings: seq<Filing>)
    ensures filings == DailyIndexOf(content, maxEntries)
  {
    var lines := Split(Strip(content), '\n');
    var start := FindDataStart(lines);
    var end := SliceEnd(|lines|, start + maxEntries * 2);
    var window := if end <= start then [] else lines[start..end];
    filings := KeepParsed(ParseLine, window);
  }
}
