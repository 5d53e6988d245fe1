/**
 * The SEC submissions helper: CIK padding and the list of recent filings
 * built from a submissions document. Fetching the document is not part of
 * this module; its "recent filings" columns are an input.
 */
module SecSubmissions {
  import opened Wrappers
  import opened Text

  const ZeroChar: set<char> := {'0'}

  /** The CIK without its leading zeros, or "0" when nothing else is left. */
  function Significant(s: string): string {
    var t := LStripChars(s, ZeroChar);
    if t == "" then "0" else t
  }

  /** `_pad_cik`: strip, drop leading zeros (keeping one zero for zero), pad to ten. */
  function PadCik(cik: Option<string>): (r: string)
    ensures r == "" <==> Strip(cik.GetOr("")) == ""
    ensures r != "" ==> |r| >= 10
  {
    var s := Strip(cik.GetOr(""));
    if s == "" then s else ZFill(Significant(s), 10)
  }

  /** Stripping leading zeros from digits keeps digits and their value. */
  lemma StripZerosValue(s: string)
    requires AllDigits(s)
    ensures AllDigits(LStripChars(s, ZeroChar))
    ensures DigitsValue(LStripChars(s, ZeroChar)) == DigitsValue(s)
  {
    var t := LStripChars(s, ZeroChar);
    var z := s[..|s| - |t|];
    assert s == z + t;
    assert forall i :: 0 <= i < |z| ==> z[i] == '0' by {
      forall i | 0 <= i < |z| ensures z[i] == '0' {
        assert s[i] in ZeroChar;
      }
    }
    LeadingZeros(z, t);
  }

  /** For digits, the significant part has the same value and no leading zero unless it is "0". */
  lemma SignificantDigits(s: string)
    requires AllDigits(s)
    ensures var u := Significant(s);
      && u != "" && AllDigits(u) && DigitsValue(u) == DigitsValue(s)
      && (u == "0" || u[0] != '0')
  {
    StripZerosValue(s);
    if LStripChars(s, ZeroChar) == "" {
      OneZero();
    }
  }

  lemma OneZero()
    ensures AllDigits("0") && DigitsValue("0") == 0
  {
    assert "0"[..0] == "";
  }

  /** Zero-filling digits to ten prepends zeros and keeps the value. */
  lemma ZFillDigits(u: string)
    requires u != "" && AllDigits(u)
    ensures |u| < 10 ==> ZFill(u, 10) == Repeat('0', 10 - |u|) + u
    ensures |u| >= 10 ==> ZFill(u, 10) == u
    ensures AllDigits(ZFill(u, 10)) && DigitsValue(ZFill(u, 10)) == DigitsValue(u)
  {
    if |u| < 10 {
      assert u[0] != '+' && u[0] != '-';
      LeadingZeros(Repeat('0', 10 - |u|), u);
    }
  }

  /**
   * For a CIK of digits, the padded CIK is all digits, denotes the same
   * number, and is exactly ten characters whenever the number has at most
   * ten significant digits.
   */
  lemma PadCikOfDigits(cik: string)
    requires Strip(cik) != "" && AllDigits(Strip(cik))
    ensures var r := PadCik(Some(cik));
      && AllDigits(r) && DigitsValue(r) == DigitsValue(Strip(cik))
      && (|Significant(Strip(cik))| <= 10 ==> |r| == 10)
  {
    SignificantDigits(Strip(cik));
    ZFillDigits(Significant(Strip(cik)));
  }

  /** A significant CIK has no zero to drop, except the single zero, which drops to nothing. */
  lemma SignificantZeros(u: string)
    requires u != "" && (u == "0" || u[0] != '0')
    ensures LStripChars(u, ZeroChar) == if u == "0" then "" else u
  {
    if u == "0" {
      assert u[1..] == [];
    }
  }

  /** Zero-filling to ten only prepends zeros, which dropping the leading zeros removes. */
  lemma FilledZeros(u: string)
    requires u != "" && AllDigits(u)
    ensures LStripChars(ZFill(u, 10), ZeroChar) == LStripChars(u, ZeroChar)
  {
    if |u| < 10 {
      var z := Repeat('0', 10 - |u|);
      assert u[0] != '+' && u[0] != '-';
      assert ZFill(u, 10) == z + u;
      LStripCharsSkips(z, u, ZeroChar);
      assert LStripChars(z + u, ZeroChar) == LStripChars(u, ZeroChar);
    }
  }

  /** Dropping the leading zeros of a zero-filled significant CIK gives it back. */
  lemma SignificantOfPadded(u: string)
    requires u != "" && AllDigits(u) && (u == "0" || u[0] != '0')
    ensures Significant(ZFill(u, 10)) == u
  {
    SignificantZeros(u);
    FilledZeros(u);
  }

  /** Padding a padded CIK of digits changes nothing. */
  lemma PadCikIdempotent(cik: string)
    requires Strip(cik) != "" && AllDigits(Strip(cik))
    ensures PadCik(Some(PadCik(Some(cik)))) == PadCik(Some(cik))
  {
    var s := Strip(cik);
    var u := Significant(s);
    var r := PadCik(Some(cik));
    assert r == ZFill(u, 10);
    SignificantDigits(s);
    ZFillDigits(u);
    StripDigits(r);
    SignificantOfPadded(u);
    assert PadCik(Some(r)) == ZFill(Significant(r), 10);
  }

  lemma FourZeros()
    ensures Repeat('0', 4) == "0000"
  {
    var z := Repeat('0', 4);
    assert z[0] == '0' && z[1] == '0' && z[2] == '0' && z[3] == '0';
  }

  /** A significant CIK of at most ten digits is padded with zeros in front. */
  lemma PadSignificant(s: string)
    requires s != "" && AllDigits(s) && s[0] != '0' && |s| < 10
    ensures PadCik(Some(s)) == Repeat('0', 10 - |s|) + s
  {
    StripDigits(s);
    SignificantZeros(s);
    assert Significant(s) == s;
    ZFillDigits(s);
  }

  /** The example from the helper's documentation. */
  lemma PadAppleCik()
    ensures PadCik(Some("320193")) == "0000320193"
  {
    var s := "320193";
    assert AllDigits(s);
    PadSignificant(s);
    FourZeros();
    assert Repeat('0', 10 - |s|) == "0000";
    AppleDigits();
  }

  lemma AppleDigits()
    ensures "0000" + "320193" == "0000320193"
  {
    var p, s := "0000", "320193";
    assert forall i :: 0 <= i < 10 ==> (p + s)[i] == "0000320193"[i];
  }

  lemma StripDigits(s: string)
    requires AllDigits(s) && s != ""
    ensures Strip(s) == s
  {
    StripNoSpace(s);
  }

  // ---------------------------------------------------------------------
  // Recent filings
  // ---------------------------------------------------------------------

  /** The parallel columns of `filings.recent`; a missing column is empty. */
  datatype RecentColumns = RecentColumns(
    forms: seq<Option<string>>,
    accessionNumbers: seq<Option<string>>,
    filingDates: seq<Option<string>>,
    primaryDocuments: seq<Option<string>>)

  datatype FilingRow = FilingRow(form: Option<string>, accession: Option<string>, date: Option<string>, primary: Option<string>)

  datatype FilingItem = FilingItem(
    form: string,
    filingDate: Option<string>,
    accessionNumber: Option<string>,
    primaryDoc: Option<string>,
    htmlUrl: Option<string>,
    txtUrl: Option<string>)

  function Min(a: nat, b: nat): nat { if a <= b then a else b }

  /** `zip(forms, accs, dates, prims)`: stops at the shortest column. */
  function Zipped(c: RecentColumns): (rows: seq<FilingRow>)
    ensures |rows| == Min(Min(|c.forms|, |c.accessionNumbers|), Min(|c.filingDates|, |c.primaryDocuments|))
    ensures forall i :: 0 <= i < |rows| ==>
      rows[i] == FilingRow(c.forms[i], c.accessionNumbers[i], c.filingDates[i], c.primaryDocuments[i])
  {
    var n := Min(Min(|c.forms|, |c.accessionNumbers|), Min(|c.filingDates|, |c.primaryDocuments|));
    seq(n, i requires 0 <= i < n => FilingRow(c.forms[i], c.accessionNumbers[i], c.filingDates[i], c.primaryDocuments[i]))
  }

  /** `int(s)`: surrounding whitespace, an optional sign, then decimal digits. */
  function PyInt(s: string): (r: Option<int>)
    ensures AllDigits(s) && s != "" ==> r == Some(DigitsValue(s))
  {
    var t := Strip(s);
    StripOfDigits(s);
    if |t| >= 2 && (t[0] == '+' || t[0] == '-') && AllDigits(t[1..]) then
      var v: int := DigitsValue(t[1..]);
      Some(if t[0] == '-' then -v else v)
    else if t != "" && AllDigits(t) then Some(DigitsValue(t))
    else None
  }

  lemma StripOfDigits(s: string)
    ensures AllDigits(s) && s != "" ==> Strip(s) == s
  {
    if AllDigits(s) && s != "" {
      StripDigits(s);
    }
  }

  /** `int((cik or "").lstrip("0") or "0")` */
  function CikNumber(cik: Option<string>): Option<int> {
    PyInt(Significant(cik.GetOr("")))
  }

  /** A CIK of digits, padded or not, denotes its number. */
  lemma CikNumberOfDigits(cik: string)
    requires cik != "" && AllDigits(cik)
    ensures CikNumber(Some(cik)) == Some(DigitsValue(cik))
  {
    SignificantDigits(cik);
  }

  const ArchivesData := "https://www.sec.gov/Archives/edgar/data/"

  /** One item: the form stripped, the document URL when there is a primary document, the text URL when there is an accession. */
  function ItemOf(cikNumber: int, row: FilingRow): (item: FilingItem)
    ensures item.htmlUrl.Some? <==> Truthy(row.primary)
    ensures item.txtUrl.Some? <==> Truthy(row.accession)
    ensures item.form == Strip(row.form.GetOr(""))
  {
    var dir := ArchivesData + IntToString(cikNumber);
    var html := if Truthy(row.primary)
      then Some(dir + "/" + RemoveChar(row.accession.GetOr(""), '-') + "/" + row.primary.value) else None;
    var txt := if Truthy(row.accession) then Some(dir + "/" + row.accession.value + ".txt") else None;
    FilingItem(Strip(row.form.GetOr("")), row.date, row.accession, row.primary, html, txt)
  }

  lemma ConcatEnds(x: string, y: string)
    ensures StartsWith(x + y, x) && EndsWith(x + y, y)
  {
    assert (x + y)[..|x|] == x;
    assert (x + y)[|x + y| - |y|..] == y;
  }

  /** The document URL: the archive directory of the CIK number, the accession with its dashes removed, the primary document. */
  lemma HtmlUrlShape(cikNumber: int, row: FilingRow)
    requires ItemOf(cikNumber, row).htmlUrl.Some?
    ensures ItemOf(cikNumber, row).htmlUrl.value
      == ArchivesData + IntToString(cikNumber) + "/" + RemoveChar(row.accession.GetOr(""), '-') + "/" + row.primary.value
  {
  }

  /** The text URL: the archive directory of the CIK number, then the accession and ".txt". */
  lemma TxtUrlShape(cikNumber: int, row: FilingRow)
    requires ItemOf(cikNumber, row).txtUrl.Some?
    ensures ItemOf(cikNumber, row).txtUrl.value == ArchivesData + IntToString(cikNumber) + "/" + row.accession.value + ".txt"
    ensures StartsWith(ItemOf(cikNumber, row).txtUrl.value, ArchivesData + IntToString(cikNumber) + "/")
    ensures EndsWith(ItemOf(cikNumber, row).txtUrl.value, row.accession.value + ".txt")
  {
    var dir := ArchivesData + IntToString(cikNumber) + "/";
    var tail := row.accession.value + ".txt";
    assert ItemOf(cikNumber, row).txtUrl.value == dir + tail;
    ConcatEnds(dir, tail);
  }

  /** The form filter: none or an empty list keeps every form. */
  predicate Passes(row: FilingRow, formFilter: Option<seq<string>>) {
    formFilter.None? || formFilter.value == [] || Strip(row.form.GetOr("")) in formFilter.value
  }

  /** Every item the loop would append, with no limit, in input order; none when the CIK is not a number. */
  function Kept(cikNumber: Option<int>, rows: seq<FilingRow>, formFilter: Option<seq<string>>): (r: seq<FilingItem>)
    ensures |r| <= |rows|
    ensures cikNumber.None? ==> r == []
  {
    if rows == [] then []
    else
      var last := rows[|rows| - 1];
      Kept(cikNumber, rows[..|rows| - 1], formFilter)
        + (if Passes(last, formFilter) && cikNumber.Some? then [ItemOf(cikNumber.value, last)] else [])
  }

  /** With a non-empty filter, every kept item's form is one of the filter's forms. */
  lemma {:induction false} KeptForms(cikNumber: Option<int>, rows: seq<FilingRow>, formFilter: Option<seq<string>>)
    requires formFilter.Some? && formFilter.value != []
    ensures forall i :: 0 <= i < |Kept(cikNumber, rows, formFilter)| ==> Kept(cikNumber, rows, formFilter)[i].form in formFilter.value
  {
    if rows != [] {
      KeptForms(cikNumber, rows[..|rows| - 1], formFilter);
    }
  }

  /** The number of items the loop stops at: `limit`, but at least one since the check follows the append. */
  function Cap(limit: int): nat {
    if limit >= 1 then limit else 1
  }

  /** `get_recent_company_filings` after the fetch, as a value. */
  function RecentFilings(cik: Option<string>, data: Option<RecentColumns>, limit: int, formFilter: Option<seq<string>>): (r: seq<FilingItem>)
    ensures |r| <= Cap(limit)
    ensures data.None? ==> r == []
    ensures data.Some? ==> r <= Kept(CikNumber(cik), Zipped(data.value), formFilter)
    ensures data.Some? ==> |r| == Min(|Kept(CikNumber(cik), Zipped(data.value), formFilter)|, Cap(limit))
  {
    if data.None? then []
    else
      Limited(Kept(CikNumber(cik), Zipped(data.value), formFilter), limit)
  }

  /** The first `Cap(limit)` items, or all of them when there are fewer. */
  function Limited(k: seq<FilingItem>, limit: int): (r: seq<FilingItem>)
    ensures r <= k
    ensures |r| == Min(|k|, Cap(limit))
  {
    if |k| <= Cap(limit) then k else k[..Cap(limit)]
  }

  lemma LimitedPrefix(a: seq<FilingItem>, b: seq<FilingItem>, limit: int)
    requires |a| == Cap(limit)
    ensures Limited(a + b, limit) == a
  {
    if b != [] {
      assert (a + b)[..|a|] == a;
    }
  }

  /** A limit of zero or less still returns the first kept item. */
  lemma NonPositiveLimitKeepsOne(cik: Option<string>, data: RecentColumns, limit: int, formFilter: Option<seq<string>>)
    requires limit <= 0 && Kept(CikNumber(cik), Zipped(data), formFilter) != []
    ensures RecentFilings(cik, Some(data), limit, formFilter) == [Kept(CikNumber(cik), Zipped(data), formFilter)[0]]
  {
  }

  /** The items of the rows that `keep` accepts, built by `item`, in input order. */
  function Select(rows: seq<FilingRow>, keep: FilingRow -> bool, item: FilingRow -> FilingItem): (r: seq<FilingItem>)
    ensures |r| <= |rows|
  {
    if rows == [] then []
    else Select(rows[..|rows| - 1], keep, item) + (if keep(rows[|rows| - 1]) then [item(rows[|rows| - 1])] else [])
  }

  lemma {:induction false} SelectAppend(a: seq<FilingRow>, b: seq<FilingRow>, keep: FilingRow -> bool, item: FilingRow -> FilingItem)
    ensures Select(a + b, keep, item) == Select(a, keep, item) + Select(b, keep, item)
    decreases |b|
  {
    if b == [] {
      assert a + b == a;
    } else {
      assert (a + b)[..|a + b| - 1] == a + b[..|b| - 1];
      SelectAppend(a, b[..|b| - 1], keep, item);
    }
  }

  /** Once a prefix has selected `Cap(limit)` items, the rest of the rows cannot change the limited result. */
  lemma SelectStopAtCap(rows: seq<FilingRow>, j: nat, keep: FilingRow -> bool, item: FilingRow -> FilingItem, limit: int)
    requires j <= |rows| && |Select(rows[..j], keep, item)| == Cap(limit)
    ensures Limited(Select(rows, keep, item), limit) == Select(rows[..j], keep, item)
  {
    SelectAppend(rows[..j], rows[j..], keep, item);
    assert rows[..j] + rows[j..] == rows;
    LimitedPrefix(Select(rows[..j], keep, item), Select(rows[j..], keep, item), limit);
  }

  /** The loop of `get_recent_company_filings`: select rows until the count reaches `limit`, checked after each append. */
  method SelectUpTo(rows: seq<FilingRow>, keep: FilingRow -> bool, item: FilingRow -> FilingItem, limit: int)
    returns (items: seq<FilingItem>)
    ensures items == Limited(Select(rows, keep, item), limit)
  {
    items := [];
    var i := 0;
    while i < |rows|
      invariant 0 <= i <= |rows|
      invariant items == Select(rows[..i], keep, item)
      invariant |items| < Cap(limit)
    {
      assert rows[..i + 1][..i] == rows[..i];
      if keep(rows[i]) {
        items := items + [item(rows[i])];
        if |items| >= limit {
          SelectStopAtCap(rows, i + 1, keep, item, limit);
          return;
        }
      }
      i := i + 1;
    }
    assert rows[..i] == rows;
  }

  /** `Kept` is the selection with the form filter and the CIK number's item builder. */
  lemma {:induction false} KeptIsSelect(cikNumber: Option<int>, rows: seq<FilingRow>, formFilter: Option<seq<string>>)
    ensures Kept(cikNumber, rows, formFilter)
      == Select(rows, row => Passes(row, formFilter) && cikNumber.Some?, row => ItemOf(cikNumber.GetOr(0), row))
  {
    if rows != [] {
      KeptIsSelect(cikNumber, rows[..|rows| - 1], formFilter);
    }
  }

  /** `get_recent_company_filings` after the fetch: the items of the zipped columns, up to the limit. */
  method RecentCompanyFilings(cik: Option<string>, data: Option<RecentColumns>, limit: int, formFilter: Option<seq<string>>)
    returns (items: seq<FilingItem>)
    ensures items == RecentFilings(cik, data, limit, formFilter)
  {
    if data.None? {
      return [];
    }
    var rows := Zipped(data.value);
    var cikNumber := CikNumber(cik);
    items := SelectUpTo(rows, row => Passes(row, formFilter) && cikNumber.Some?, row => ItemOf(cikNumber.GetOr(0), row), limit);
    KeptIsSelect(cikNumber, rows, formFilter);
  }
}
