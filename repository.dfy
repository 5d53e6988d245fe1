/**
 * The persistence layer: four tables held in memory (the main table keyed by
 * event id, three child tables as ordered row lists) and the operations that
 * write a corporate action into them.
 *
 * Each helper runs in its own transaction: a failing statement rolls back the
 * helper it belongs to, and what earlier helpers committed stays.
 */
module CaRepository {
  import opened Wrappers
  import opened CorporateActionModel

  // ---------------------------------------------------------------------
  // Rows
  // ---------------------------------------------------------------------

  /** A child-table row: the owning event and the other columns (the serial `id` is not modelled). */
  datatype Row<T> = Row(eventId: string, cols: T)

  datatype SourceCols = SourceCols(
    source: string,
    docType: string,
    sourceUrl: string,
    filingDate: Option<Date>,
    retrievalTime: Timestamp,
    referenceId: Option<string>,
    contentSha256: Option<string>,
    textExcerpt: Option<string>)

  datatype LegCols = LegCols(
    legType: string,
    cashCurrency: Option<string>,
    cashAmount: Option<DecimalText>,
    stockRatioNum: Option<int>,
    stockRatioDen: Option<int>,
    stockSecurityTicker: Option<string>,
    stockSecurityMic: Option<string>)

  datatype ProvenanceCols = ProvenanceCols(fieldName: string, sourceIndex: int, note: Option<string>, confidence: Option<real>)

  /** A `corporate_actions` row; `details_json` holds the whole record (its JSON text is not modelled). */
  datatype MainRow = MainRow(
    eventId: string,
    actionType: string,
    issuerName: Option<string>,
    issuerCik: Option<string>,
    isin: Option<string>,
    cusip: Option<string>,
    ticker: Option<string>,
    exchangeMic: Option<string>,
    exchangeRaw: Option<string>,
    announceDate: Option<Date>,
    effectiveDate: Option<Date>,
    exDate: Option<Date>,
    recordDate: Option<Date>,
    payDate: Option<Date>,
    ratioNum: Option<int>,
    ratioDen: Option<int>,
    cashCurrency: Option<string>,
    cashAmount: Option<DecimalText>,
    status: Option<string>,
    confidence: real,
    extractedFieldsVersion: Option<string>,
    extractionModel: Option<string>,
    pipelineVersion: Option<string>,
    notes: Option<string>,
    supersedesEventId: Option<string>,
    details: CorporateAction)

  datatype Tables = Tables(
    actions: map<string, MainRow>,
    sources: seq<Row<SourceCols>>,
    legs: seq<Row<LegCols>>,
    provenance: seq<Row<ProvenanceCols>>)

  datatype PersistError =
    | Invalid(reason: ValidationError)
    | UniqueViolation(eventId: string, source: string)

  // ---------------------------------------------------------------------
  // Rows of one event
  // ---------------------------------------------------------------------

  function Of<T>(rows: seq<Row<T>>, e: string): (r: seq<Row<T>>)
    ensures forall i :: 0 <= i < |r| ==> r[i].eventId == e
  {
    if rows == [] then []
    else (if rows[0].eventId == e then [rows[0]] else []) + Of(rows[1..], e)
  }

  /** What `DELETE ... WHERE event_id = e` leaves. */
  function NotOf<T>(rows: seq<Row<T>>, e: string): (r: seq<Row<T>>)
    ensures forall i :: 0 <= i < |r| ==> r[i].eventId != e
  {
    if rows == [] then []
    else (if rows[0].eventId != e then [rows[0]] else []) + NotOf(rows[1..], e)
  }

  lemma {:induction false} OfConcat<T>(a: seq<Row<T>>, b: seq<Row<T>>, e: string)
    ensures Of(a + b, e) == Of(a, e) + Of(b, e)
    ensures NotOf(a + b, e) == NotOf(a, e) + NotOf(b, e)
  {
    if a == [] {
      assert a + b == b;
    } else {
      assert (a + b)[0] == a[0];
      assert (a + b)[1..] == a[1..] + b;
      OfConcat(a[1..], b, e);
    }
  }

  lemma {:induction false} OfAllOwn<T>(rows: seq<Row<T>>, e: string)
    requires forall i :: 0 <= i < |rows| ==> rows[i].eventId == e
    ensures Of(rows, e) == rows
  {
    if rows != [] {
      OfAllOwn(rows[1..], e);
    }
  }

  lemma {:induction false} OfNoneOwn<T>(rows: seq<Row<T>>, e: string)
    requires forall i :: 0 <= i < |rows| ==> rows[i].eventId != e
    ensures Of(rows, e) == []
  {
    if rows != [] {
      OfNoneOwn(rows[1..], e);
    }
  }

  lemma {:induction false} OfNotOf<T>(rows: seq<Row<T>>, e: string, k: string)
    ensures Of(NotOf(rows, e), k) == if k == e then [] else Of(rows, k)
  {
    if rows != [] {
      OfNotOf(rows[1..], e, k);
      OfConcat(if rows[0].eventId != e then [rows[0]] else [], NotOf(rows[1..], e), k);
    }
  }

  lemma {:induction false} NotOfNotOf<T>(rows: seq<Row<T>>, e: string)
    ensures NotOf(NotOf(rows, e), e) == NotOf(rows, e)
  {
    if rows != [] {
      NotOfNotOf(rows[1..], e);
      OfConcat(if rows[0].eventId != e then [rows[0]] else [], NotOf(rows[1..], e), e);
    }
  }

  lemma {:induction false} OfUpdate<T>(rows: seq<Row<T>>, i: nat, r: Row<T>, k: string)
    requires i < |rows| && rows[i].eventId != k && r.eventId != k
    ensures Of(rows[i := r], k) == Of(rows, k)
  {
    if i > 0 {
      OfUpdate(rows[1..], i - 1, r, k);
      assert rows[i := r][1..] == rows[1..][i - 1 := r];
    }
  }

  // ---------------------------------------------------------------------
  // Main table
  // ---------------------------------------------------------------------

  /** `_main_params`: one row of column values for event `e`. */
  function MainParams(ca: CorporateAction, e: string): (r: MainRow)
    ensures r.ratioNum.None? <==> ca.terms.ratio.None?
    ensures r.ratioDen.None? <==> ca.terms.ratio.None?
    ensures r.cashCurrency.None? <==> ca.terms.cashPerShare.None?
    ensures r.cashAmount.None? <==> ca.terms.cashPerShare.None?
    ensures ca.terms.ratio.Some? ==> r.ratioNum == Some(ca.terms.ratio.value.numerator) && r.ratioDen == Some(ca.terms.ratio.value.denominator)
    ensures ca.terms.cashPerShare.Some? ==> r.cashCurrency == Some(ca.terms.cashPerShare.value.currency)
    ensures r.exchangeRaw == None
    ensures r.eventId == e && r.details == ca
  {
    var t := ca.terms;
    MainRow(
      e, ca.actionType, ca.issuer.name, ca.issuer.cik,
      ca.security.isin, ca.security.cusip, ca.security.ticker, ca.security.exchangeMic, None,
      ca.announceDate, ca.effectiveDate, ca.exDate, ca.recordDate, ca.payDate,
      if t.ratio.Some? then Some(t.ratio.value.numerator) else None,
      if t.ratio.Some? then Some(t.ratio.value.denominator) else None,
      if t.cashPerShare.Some? then Some(t.cashPerShare.value.currency) else None,
      if t.cashPerShare.Some? then Some(t.cashPerShare.value.amount) else None,
      ca.status, ca.confidence,
      ca.extractedFieldsVersion, ca.extractionModel, ca.pipelineVersion, ca.notes,
      ca.supersedesEventId, ca)
  }

  // ---------------------------------------------------------------------
  // Sources: upsert on one of two natural keys, never delete
  // ---------------------------------------------------------------------

  /**
   * The unique key a source row falls under: the reference index covers rows
   * with a non-NULL `reference_id`, the URL index rows with a NULL one.
   */
  datatype SourceKey =
    | ByReference(eventId: string, source: string, referenceId: string)
    | ByUrl(eventId: string, source: string, sourceUrl: string)

  function Key(r: Row<SourceCols>): SourceKey {
    if r.cols.referenceId.Some? then ByReference(r.eventId, r.cols.source, r.cols.referenceId.value)
    else ByUrl(r.eventId, r.cols.source, r.cols.sourceUrl)
  }

  /** The two partial unique indexes hold. */
  predicate UniqueKeys(rows: seq<Row<SourceCols>>) {
    forall i, j :: 0 <= i < j < |rows| ==> Key(rows[i]) != Key(rows[j])
  }

  function FindKey(rows: seq<Row<SourceCols>>, k: SourceKey, from: nat): (r: int)
    requires from <= |rows|
    ensures r == -1 || (from <= r < |rows| && Key(rows[r]) == k)
    ensures r == -1 ==> forall j :: from <= j < |rows| ==> Key(rows[j]) != k
    decreases |rows| - from
  {
    if from == |rows| then -1
    else if Key(rows[from]) == k then from
    else FindKey(rows, k, from + 1)
  }

  function SourceRow(e: string, s: SourceInfo): Row<SourceCols> {
    Row(e, SourceCols(s.source, s.docType, s.sourceUrl, s.filingDate, s.retrievalTime, s.referenceId, s.contentSha256, s.textExcerpt))
  }

  function SourceRows(e: string, list: seq<SourceInfo>): (r: seq<Row<SourceCols>>)
    ensures |r| == |list| && forall i :: 0 <= i < |list| ==> r[i] == SourceRow(e, list[i])
  {
    seq(|list|, i requires 0 <= i < |list| => SourceRow(e, list[i]))
  }

  /**
   * One source statement. A truthy `reference_id` conflicts on the reference
   * key and a NULL one on the URL key; either way the conflicting row takes
   * the new values. An empty `reference_id` is sent to the URL statement but
   * is covered by the reference index, which that statement does not
   * arbitrate: a second such row raises a unique violation.
   */
  function Upsert(rows: seq<Row<SourceCols>>, r: Row<SourceCols>): (res: Result<seq<Row<SourceCols>>, PersistError>)
    ensures res.Err? <==> r.cols.referenceId == Some("") && FindKey(rows, Key(r), 0) != -1
    ensures res.Ok? && FindKey(rows, Key(r), 0) == -1 ==> res.value == rows + [r]
    ensures res.Ok? && FindKey(rows, Key(r), 0) != -1 ==> res.value == rows[FindKey(rows, Key(r), 0) := r]
  {
    var i := FindKey(rows, Key(r), 0);
    if i == -1 then Ok(rows + [r])
    else if r.cols.referenceId == Some("") then Err(UniqueViolation(r.eventId, r.cols.source))
    else Ok(rows[i := r])
  }

  /** The statements of one `_replace_sources` call, in list order, stopping at the first failure. */
  function UpsertAll(rows: seq<Row<SourceCols>>, news: seq<Row<SourceCols>>): Result<seq<Row<SourceCols>>, PersistError>
    decreases |news|
  {
    if news == [] then Ok(rows)
    else
      var prefix :- UpsertAll(rows, news[..|news| - 1]);
      Upsert(prefix, news[|news| - 1])
  }

  lemma {:induction false} UpsertAllErrPersists(rows: seq<Row<SourceCols>>, news: seq<Row<SourceCols>>, k: nat)
    requires k <= |news| && UpsertAll(rows, news[..k]).Err?
    ensures UpsertAll(rows, news) == UpsertAll(rows, news[..k])
    decreases |news| - k
  {
    if k < |news| {
      assert news[..k + 1][..k] == news[..k];
      assert UpsertAll(rows, news[..k + 1]) == UpsertAll(rows, news[..k]);
      UpsertAllErrPersists(rows, news, k + 1);
    } else {
      assert news[..k] == news;
    }
  }

  /** One more statement after a successful prefix is one more upsert. */
  lemma UpsertAllStep(rows: seq<Row<SourceCols>>, news: seq<Row<SourceCols>>, i: nat)
    requires i < |news| && UpsertAll(rows, news[..i]).Ok?
    ensures UpsertAll(rows, news[..i + 1]) == Upsert(UpsertAll(rows, news[..i]).value, news[i])
  {
    assert news[..i + 1][..i] == news[..i];
  }

  /** A successful upsert keeps both unique indexes intact. */
  lemma UpsertKeepsUniqueKeys(rows: seq<Row<SourceCols>>, r: Row<SourceCols>)
    requires UniqueKeys(rows) && Upsert(rows, r).Ok?
    ensures UniqueKeys(Upsert(rows, r).value)
  {
    var i := FindKey(rows, Key(r), 0);
    var res := Upsert(rows, r).value;
    if i != -1 {
      forall a, b | 0 <= a < b < |res|
        ensures Key(res[a]) != Key(res[b])
      {
        assert Key(res[a]) == Key(rows[a]) && Key(res[b]) == Key(rows[b]);
      }
    }
  }

  lemma {:induction false} UpsertAllKeepsUniqueKeys(rows: seq<Row<SourceCols>>, news: seq<Row<SourceCols>>)
    requires UniqueKeys(rows) && UpsertAll(rows, news).Ok?
    ensures UniqueKeys(UpsertAll(rows, news).value)
    decreases |news|
  {
    if news != [] {
      UpsertAllKeepsUniqueKeys(rows, news[..|news| - 1]);
      UpsertKeepsUniqueKeys(UpsertAll(rows, news[..|news| - 1]).value, news[|news| - 1]);
    }
  }

  /**
   * Source rows are never deleted: every old row keeps its position and key,
   * and a row whose values changed now holds one of the new sources.
   */
  lemma {:induction false} SourcesNeverDeleted(rows: seq<Row<SourceCols>>, news: seq<Row<SourceCols>>)
    requires UpsertAll(rows, news).Ok?
    ensures var res := UpsertAll(rows, news).value;
      && |res| >= |rows|
      && (forall i :: 0 <= i < |rows| ==> Key(res[i]) == Key(rows[i]))
      && (forall i :: 0 <= i < |rows| && res[i] != rows[i] ==> res[i] in news)
    decreases |news|
  {
    if news != [] {
      var init := news[..|news| - 1];
      SourcesNeverDeleted(rows, init);
      var mid := UpsertAll(rows, init).value;
      var res := UpsertAll(rows, news).value;
      assert res == Upsert(mid, news[|news| - 1]).value;
      forall i | 0 <= i < |rows| && res[i] != rows[i]
        ensures res[i] in news
      {
        if res[i] == mid[i] {
          assert mid[i] in init;
          var j :| 0 <= j < |init| && init[j] == mid[i];
          assert news[j] == init[j];
        } else {
          assert res[i] == news[|news| - 1];
        }
      }
    }
  }

  /** Every source of the list ends up under its key. */
  lemma {:induction false} SourcesPresent(rows: seq<Row<SourceCols>>, news: seq<Row<SourceCols>>, j: nat)
    requires UpsertAll(rows, news).Ok? && j < |news|
    ensures FindKey(UpsertAll(rows, news).value, Key(news[j]), 0) != -1
    decreases |news|
  {
    var init := news[..|news| - 1];
    var mid := UpsertAll(rows, init).value;
    var res := UpsertAll(rows, news).value;
    var x := news[|news| - 1];
    if j == |news| - 1 {
      var p := FindKey(mid, Key(x), 0);
      if p == -1 {
        assert res[|mid|] == x;
      } else {
        assert res[p] == x;
      }
    } else {
      SourcesPresent(rows, init, j);
      assert news[j] == init[j];
      var q := FindKey(mid, Key(news[j]), 0);
      assert Key(res[q]) == Key(mid[q]);
    }
  }

  /** Source upserts for event `e` leave every other event's source rows as they were. */
  lemma {:induction false} UpsertAllOtherEvents(rows: seq<Row<SourceCols>>, news: seq<Row<SourceCols>>, e: string, k: string)
    requires k != e && UpsertAll(rows, news).Ok?
    requires forall i :: 0 <= i < |news| ==> news[i].eventId == e
    ensures Of(UpsertAll(rows, news).value, k) == Of(rows, k)
    decreases |news|
  {
    if news != [] {
      var init := news[..|news| - 1];
      UpsertAllOtherEvents(rows, init, e, k);
      var mid := UpsertAll(rows, init).value;
      var x := news[|news| - 1];
      var p := FindKey(mid, Key(x), 0);
      if p == -1 {
        OfConcat(mid, [x], k);
      } else {
        assert mid[p].eventId == Key(x).eventId == e;
        OfUpdate(mid, p, x, k);
      }
    }
  }

  // Idempotence of a source list ------------------------------------------

  /** The last row of `news` under key `k`, or `d` when there is none. */
  function LastWith(news: seq<Row<SourceCols>>, k: SourceKey, d: Row<SourceCols>): Row<SourceCols>
    decreases |news|
  {
    if news == [] then d
    else if Key(news[|news| - 1]) == k then news[|news| - 1]
    else LastWith(news[..|news| - 1], k, d)
  }

  lemma {:induction false} LastWithKey(news: seq<Row<SourceCols>>, d: Row<SourceCols>)
    ensures Key(LastWith(news, Key(d), d)) == Key(d)
    decreases |news|
  {
    if news != [] && Key(news[|news| - 1]) != Key(d) {
      LastWithKey(news[..|news| - 1], d);
    }
  }

  predicate NoBlankReference(news: seq<Row<SourceCols>>) {
    forall i :: 0 <= i < |news| ==> news[i].cols.referenceId != Some("")
  }

  /** Every position holds the last new row under its key, if any. */
  predicate Settled(rows: seq<Row<SourceCols>>, news: seq<Row<SourceCols>>) {
    forall i :: 0 <= i < |rows| ==> LastWith(news, Key(rows[i]), rows[i]) == rows[i]
  }

  predicate KeysPresent(rows: seq<Row<SourceCols>>, news: seq<Row<SourceCols>>) {
    forall j :: 0 <= j < |news| ==> FindKey(rows, Key(news[j]), 0) != -1
  }

  lemma FindKeyUnique(rows: seq<Row<SourceCols>>, p: nat)
    requires UniqueKeys(rows) && p < |rows|
    ensures FindKey(rows, Key(rows[p]), 0) == p
  {
    var q := FindKey(rows, Key(rows[p]), 0);
    assert q != -1;
  }

  /** Without blank references, the upserts succeed, keep the keys unique and leave every key settled. */
  lemma {:induction false} UpsertAllSettles(rows: seq<Row<SourceCols>>, news: seq<Row<SourceCols>>)
    requires UniqueKeys(rows) && NoBlankReference(news)
    ensures UpsertAll(rows, news).Ok?
    ensures UniqueKeys(UpsertAll(rows, news).value)
    ensures KeysPresent(UpsertAll(rows, news).value, news)
    ensures Settled(UpsertAll(rows, news).value, news)
    decreases |news|
  {
    if news != [] {
      var init := news[..|news| - 1];
      var x := news[|news| - 1];
      UpsertAllSettles(rows, init);
      var mid := UpsertAll(rows, init).value;
      var res := Upsert(mid, x).value;
      UpsertKeepsUniqueKeys(mid, x);
      var p := FindKey(mid, Key(x), 0);
      var q := if p == -1 then |mid| else p;
      assert res[q] == x;
      assert forall i :: 0 <= i < |res| && i != q ==> res[i] == mid[i] && Key(res[i]) != Key(x);
      forall j | 0 <= j < |news|
        ensures FindKey(res, Key(news[j]), 0) != -1
      {
        if j < |news| - 1 {
          assert news[j] == init[j];
          var m := FindKey(mid, Key(init[j]), 0);
          FindKeyUnique(res, m);
        } else {
          FindKeyUnique(res, q);
        }
      }
    }
  }

  /** Upserting keys that are all present rewrites each position to the last new row under its key. */
  lemma {:induction false} UpsertAllPresent(rows: seq<Row<SourceCols>>, news: seq<Row<SourceCols>>)
    requires UniqueKeys(rows) && NoBlankReference(news) && KeysPresent(rows, news)
    ensures UpsertAll(rows, news).Ok?
    ensures var res := UpsertAll(rows, news).value;
      |res| == |rows| && forall i :: 0 <= i < |rows| ==> res[i] == LastWith(news, Key(rows[i]), rows[i])
    decreases |news|
  {
    if news != [] {
      var init := news[..|news| - 1];
      var x := news[|news| - 1];
      assert KeysPresent(rows, init) by {
        forall j | 0 <= j < |init| ensures FindKey(rows, Key(init[j]), 0) != -1 {
          assert init[j] == news[j];
        }
      }
      UpsertAllPresent(rows, init);
      var mid := UpsertAll(rows, init).value;
      forall i | 0 <= i < |rows| ensures Key(mid[i]) == Key(rows[i]) {
        LastWithKey(init, rows[i]);
      }
      var p := FindKey(rows, Key(x), 0);
      assert FindKey(mid, Key(x), 0) == p by {
        FindKeyUnique(rows, p);
        assert forall i :: 0 <= i < |rows| ==> (Key(mid[i]) == Key(x) <==> Key(rows[i]) == Key(x));
        var m := FindKey(mid, Key(x), 0);
        assert m != -1 && Key(rows[m]) == Key(x);
        FindKeyUnique(rows, m);
      }
      var res := UpsertAll(rows, news).value;
      forall i | 0 <= i < |rows|
        ensures res[i] == LastWith(news, Key(rows[i]), rows[i])
      {
        if i != p {
          assert Key(rows[i]) != Key(rows[p]);
        }
      }
    }
  }

  /** Replaying the same source list changes nothing. */
  lemma UpsertAllIdempotent(rows: seq<Row<SourceCols>>, news: seq<Row<SourceCols>>)
    requires UniqueKeys(rows) && NoBlankReference(news)
    ensures UpsertAll(rows, news).Ok?
    ensures UpsertAll(UpsertAll(rows, news).value, news) == UpsertAll(rows, news)
  {
    UpsertAllSettles(rows, news);
    var once := UpsertAll(rows, news).value;
    UpsertAllPresent(once, news);
    assert UpsertAll(once, news).value == once;
  }

  // ---------------------------------------------------------------------
  // Legs and provenance: delete, then insert in list order
  // ---------------------------------------------------------------------

  function LegRow(e: string, leg: ConsiderationLeg): Row<LegCols> {
    Row(e, LegCols(
      leg.legType,
      if leg.cashPerShare.Some? then Some(leg.cashPerShare.value.currency) else None,
      if leg.cashPerShare.Some? then Some(leg.cashPerShare.value.amount) else None,
      if leg.stockRatio.Some? then Some(leg.stockRatio.value.numerator) else None,
      if leg.stockRatio.Some? then Some(leg.stockRatio.value.denominator) else None,
      if leg.stockSecurity.Some? then leg.stockSecurity.value.ticker else None,
      if leg.stockSecurity.Some? then leg.stockSecurity.value.exchangeMic else None))
  }

  function LegRows(e: string, legs: seq<ConsiderationLeg>): (r: seq<Row<LegCols>>)
    ensures |r| == |legs| && forall i :: 0 <= i < |legs| ==> r[i] == LegRow(e, legs[i])
  {
    seq(|legs|, i requires 0 <= i < |legs| => LegRow(e, legs[i]))
  }

  function ProvenanceRow(e: string, fp: FieldProvenance): Row<ProvenanceCols> {
    Row(e, ProvenanceCols(fp.fieldName, fp.sourceIndex, fp.note, fp.confidence))
  }

  function ProvenanceRows(e: string, prov: seq<FieldProvenance>): (r: seq<Row<ProvenanceCols>>)
    ensures |r| == |prov| && forall i :: 0 <= i < |prov| ==> r[i] == ProvenanceRow(e, prov[i])
  {
    seq(|prov|, i requires 0 <= i < |prov| => ProvenanceRow(e, prov[i]))
  }

  /** After delete-then-insert, the event's rows are exactly the new list, and other events' rows are untouched. */
  lemma ReplaceRowsExact<T>(rows: seq<Row<T>>, e: string, news: seq<Row<T>>, k: string)
    requires forall i :: 0 <= i < |news| ==> news[i].eventId == e
    ensures Of(NotOf(rows, e) + news, e) == news
    ensures k != e ==> Of(NotOf(rows, e) + news, k) == Of(rows, k)
    ensures NotOf(NotOf(rows, e) + news, e) == NotOf(rows, e)
  {
    var kept := NotOf(rows, e);
    OfConcat(kept, news, e);
    OfNotOf(rows, e, e);
    OfAllOwn(news, e);
    assert Of(kept + news, e) == [] + news;
    if k != e {
      OfConcat(kept, news, k);
      OfNotOf(rows, e, k);
      OfNoneOwn(news, k);
      assert Of(kept + news, k) == Of(rows, k) + [];
    }
    NotOfNotOf(rows, e);
    NotOfAllOwn(news, e);
    assert NotOf(kept + news, e) == kept + [];
  }

  lemma {:induction false} NotOfAllOwn<T>(rows: seq<Row<T>>, e: string)
    requires forall i :: 0 <= i < |rows| ==> rows[i].eventId == e
    ensures NotOf(rows, e) == []
  {
    if rows != [] {
      NotOfAllOwn(rows[1..], e);
    }
  }

  // ---------------------------------------------------------------------
  // Persisting one action, and a batch
  // ---------------------------------------------------------------------

  /** The state after a call and the exception it raised, if any. */
  datatype Outcome = Outcome(tables: Tables, error: Option<PersistError>)

  /** An action without an event id is re-validated first, which derives one. */
  function Prepared(ca: CorporateAction, digest: string -> string): (r: Result<CorporateAction, PersistError>)
    ensures r.Ok? ==> r.value.eventId.Some?
    ensures ca.eventId.Some? ==> r == Ok(ca)
    ensures ca.eventId.None? ==> (r.Ok? <==> Construct(ca, digest).Ok?)
  {
    if ca.eventId.Some? then Ok(ca)
    else match Construct(ca, digest)
      case Ok(c) => Ok(c)
      case Err(x) => Err(Invalid(x))
  }

  /** `persist_corporate_action`: main upsert, sources, legs, provenance, each committed on its own. */
  function PersistSpec(t: Tables, ca: CorporateAction, digest: string -> string): Outcome {
    match Prepared(ca, digest)
    case Err(x) => Outcome(t, Some(x))
    case Ok(c) =>
      var e := c.eventId.value;
      var actions := t.actions[e := MainParams(c, e)];
      match UpsertAll(t.sources, SourceRows(e, c.sources))
      case Err(x) => Outcome(t.(actions := actions), Some(x))
      case Ok(srcs) =>
        Outcome(Tables(actions, srcs,
                       NotOf(t.legs, e) + LegRows(e, Legs(c.terms)),
                       NotOf(t.provenance, e) + ProvenanceRows(e, c.provenance)), None)
  }

  /**
   * After persisting, the event has exactly one main row holding the
   * incoming values, its leg and provenance rows are exactly the current
   * lists in order, every current source is stored, and other events are
   * untouched. A failed re-validation writes nothing; a failed source
   * statement leaves the main row written and the child tables as they were.
   */
  lemma PersistEffects(t: Tables, ca: CorporateAction, digest: string -> string, k: string)
    ensures var o := PersistSpec(t, ca, digest);
      Prepared(ca, digest).Err? ==> o == Outcome(t, Some(Prepared(ca, digest).error))
    ensures var o := PersistSpec(t, ca, digest);
      Prepared(ca, digest).Ok? ==>
        var c := Prepared(ca, digest).value;
        var e := c.eventId.value;
        && o.tables.actions == t.actions[e := MainParams(c, e)]
        && (o.error.Some? ==> o.tables.sources == t.sources && o.tables.legs == t.legs && o.tables.provenance == t.provenance)
        && (o.error.None? ==>
              && Of(o.tables.legs, e) == LegRows(e, Legs(c.terms))
              && Of(o.tables.provenance, e) == ProvenanceRows(e, c.provenance)
              && (forall j :: 0 <= j < |c.sources| ==> FindKey(o.tables.sources, Key(SourceRow(e, c.sources[j])), 0) != -1)
              && (k != e ==> Of(o.tables.sources, k) == Of(t.sources, k)
                             && Of(o.tables.legs, k) == Of(t.legs, k)
                             && Of(o.tables.provenance, k) == Of(t.provenance, k)))
  {
    if Prepared(ca, digest).Ok? {
      var c := Prepared(ca, digest).value;
      var e := c.eventId.value;
      var news := SourceRows(e, c.sources);
      var o := PersistSpec(t, ca, digest);
      if UpsertAll(t.sources, news).Ok? {
        ReplaceRowsExact(t.legs, e, LegRows(e, Legs(c.terms)), k);
        ReplaceRowsExact(t.provenance, e, ProvenanceRows(e, c.provenance), k);
        forall j | 0 <= j < |c.sources|
          ensures FindKey(o.tables.sources, Key(SourceRow(e, c.sources[j])), 0) != -1
        {
          SourcesPresent(t.sources, news, j);
        }
        if k != e {
          UpsertAllOtherEvents(t.sources, news, e, k);
        }
      }
    }
  }

  /**
   * Persisting the same action twice leaves the tables as persisting it once,
   * provided the stored sources satisfy the unique indexes and no source has
   * an empty `reference_id`.
   */
  lemma PersistIdempotent(t: Tables, ca: CorporateAction, digest: string -> string)
    requires UniqueKeys(t.sources)
    requires forall i :: 0 <= i < |ca.sources| ==> ca.sources[i].referenceId != Some("")
    requires PersistSpec(t, ca, digest).error.None?
    ensures PersistSpec(PersistSpec(t, ca, digest).tables, ca, digest) == PersistSpec(t, ca, digest)
  {
    var c := Prepared(ca, digest).value;
    var e := c.eventId.value;
    var news := SourceRows(e, c.sources);
    PreparedKeepsSources(ca, digest);
    UpsertAllIdempotent(t.sources, news);
    var srcs := UpsertAll(t.sources, news).value;
    var legRows := LegRows(e, Legs(c.terms));
    var provRows := ProvenanceRows(e, c.provenance);
    var t1 := Tables(t.actions[e := MainParams(c, e)], srcs, NotOf(t.legs, e) + legRows, NotOf(t.provenance, e) + provRows);
    assert PersistSpec(t, ca, digest) == Outcome(t1, None);
    ReplaceRowsExact(t.legs, e, legRows, e);
    ReplaceRowsExact(t.provenance, e, provRows, e);
    assert UpsertAll(t1.sources, news) == Ok(srcs);
    assert PersistSpec(t1, ca, digest) == Outcome(t1, None);
  }

  lemma PreparedKeepsSources(ca: CorporateAction, digest: string -> string)
    requires Prepared(ca, digest).Ok?
    ensures Prepared(ca, digest).value.sources == ca.sources
  {
    if ca.eventId.None? {
      var c := Construct(ca, digest).value;
      assert c.(eventId := ca.eventId, security := ca.security, terms := ca.terms) == ca;
    }
  }

  /** `persist_corporate_actions`: each item in order; the first exception ends the batch. */
  function BatchSpec(t: Tables, cas: seq<CorporateAction>, digest: string -> string): Outcome
    decreases |cas|
  {
    if cas == [] then Outcome(t, None)
    else
      var o := PersistSpec(t, cas[0], digest);
      if o.error.Some? then o else BatchSpec(o.tables, cas[1..], digest)
  }

  /** A batch splits at any point: the second part runs on what the first part left, unless it failed. */
  lemma {:induction false} BatchSplit(t: Tables, a: seq<CorporateAction>, b: seq<CorporateAction>, digest: string -> string)
    ensures BatchSpec(t, a + b, digest) ==
      var first := BatchSpec(t, a, digest);
      if first.error.Some? then first else BatchSpec(first.tables, b, digest)
    decreases |a|
  {
    if a == [] {
      assert a + b == b;
    } else {
      assert (a + b)[0] == a[0] && (a + b)[1..] == a[1..] + b;
      var o := PersistSpec(t, a[0], digest);
      if o.error.None? {
        BatchSplit(o.tables, a[1..], b, digest);
      }
    }
  }

  /** The count a batch reports. */
  function BatchCount(t: Tables, cas: seq<CorporateAction>, digest: string -> string): Result<nat, PersistError> {
    var o := BatchSpec(t, cas, digest);
    if o.error.Some? then Err(o.error.value) else Ok(|cas|)
  }

  /** An empty batch reports 0 and changes nothing; a batch that completes reports its length. */
  lemma BatchCountIsLength(t: Tables, cas: seq<CorporateAction>, digest: string -> string)
    ensures cas == [] ==> BatchCount(t, cas, digest) == Ok(0) && BatchSpec(t, cas, digest).tables == t
    ensures BatchCount(t, cas, digest).Ok? ==> BatchCount(t, cas, digest).value == |cas|
  {
  }

  // ---------------------------------------------------------------------
  // The repository over a mutable database
  // ---------------------------------------------------------------------

  class Repository {
    var actions: map<string, MainRow>
    var sources: seq<Row<SourceCols>>
    var legs: seq<Row<LegCols>>
    var provenance: seq<Row<ProvenanceCols>>

    function State(): Tables
      reads this
    {
      Tables(actions, sources, legs, provenance)
    }

    constructor ()
      ensures State() == Tables(map[], [], [], [])
    {
      actions := map[];
      sources := [];
      legs := [];
      provenance := [];
    }

    /** `_insert_or_update_corporate_action`: insert, or replace every business column. */
    method InsertOrUpdateCorporateAction(row: MainRow)
      modifies this
      ensures State() == old(State()).(actions := old(actions)[row.eventId := row])
    {
      actions := actions[row.eventId := row];
    }

    /** `_replace_sources`: one upsert per source in one transaction, rolled back on failure. */
    method ReplaceSources(e: string, list: seq<SourceInfo>) returns (err: Option<PersistError>)
      modifies this
      ensures var r := UpsertAll(old(sources), SourceRows(e, list));
        && (r.Ok? ==> sources == r.value && err == None)
        && (r.Err? ==> sources == old(sources) && err == Some(r.error))
      ensures actions == old(actions) && legs == old(legs) && provenance == old(provenance)
    {
      var saved := sources;
      var rows := SourceRows(e, list);
      var i := 0;
      while i < |rows|
        invariant 0 <= i <= |rows|
        invariant UpsertAll(saved, rows[..i]) == Ok(sources)
        invariant actions == old(actions) && legs == old(legs) && provenance == old(provenance)
      {
        UpsertAllStep(saved, rows, i);
        var next := Upsert(sources, rows[i]);
        if next.Err? {
          UpsertAllErrPersists(saved, rows, i + 1);
          sources := saved;
          return Some(next.error);
        }
        sources := next.value;
        i := i + 1;
      }
      assert rows[..i] == rows;
      return None;
    }

    /** `_replace_consideration_legs`: delete the event's legs, then insert the list in order. */
    method ReplaceConsiderationLegs(e: string, list: Option<seq<ConsiderationLeg>>)
      modifies this
      ensures legs == NotOf(old(legs), e) + LegRows(e, if list.Some? then list.value else [])
      ensures actions == old(actions) && sources == old(sources) && provenance == old(provenance)
    {
      var items := if list.Some? then list.value else [];
      legs := NotOf(legs, e);
      var base := legs;
      var i := 0;
      while i < |items|
        invariant 0 <= i <= |items|
        invariant legs == base + LegRows(e, items[..i])
        invariant actions == old(actions) && sources == old(sources) && provenance == old(provenance)
      {
        assert LegRows(e, items[..i + 1]) == LegRows(e, items[..i]) + [LegRow(e, items[i])];
        legs := legs + [LegRow(e, items[i])];
        i := i + 1;
      }
      assert items[..i] == items;
    }

    /** `_replace_provenance`: delete the event's provenance, then insert the list in order. */
    method ReplaceProvenance(e: string, prov: seq<FieldProvenance>)
      modifies this
      ensures provenance == NotOf(old(provenance), e) + ProvenanceRows(e, prov)
      ensures actions == old(actions) && sources == old(sources) && legs == old(legs)
    {
      provenance := NotOf(provenance, e);
      var base := provenance;
      var i := 0;
      while i < |prov|
        invariant 0 <= i <= |prov|
        invariant provenance == base + ProvenanceRows(e, prov[..i])
        invariant actions == old(actions) && sources == old(sources) && legs == old(legs)
      {
        assert ProvenanceRows(e, prov[..i + 1]) == ProvenanceRows(e, prov[..i]) + [ProvenanceRow(e, prov[i])];
        provenance := provenance + [ProvenanceRow(e, prov[i])];
        i := i + 1;
      }
      assert prov[..i] == prov;
    }

    /** `persist_corporate_action`; the returned error is the exception it raises. */
    method Persist(ca: CorporateAction, digest: string -> string) returns (err: Option<PersistError>)
      modifies this
      ensures State() == PersistSpec(old(State()), ca, digest).tables
      ensures err == PersistSpec(old(State()), ca, digest).error
    {
      var c := ca;
      if ca.eventId.None? {
        var r := Construct(ca, digest);
        if r.Err? {
          return Some(Invalid(r.error));
        }
        c := r.value;
      }
      assert Prepared(ca, digest) == Ok(c);
      var e := c.eventId.value;
      InsertOrUpdateCorporateAction(MainParams(c, e));
      err := ReplaceSources(e, c.sources);
      if err.Some? {
        return;
      }
      ReplaceConsiderationLegs(e, c.terms.consideration);
      ReplaceProvenance(e, c.provenance);
    }

    /** `persist_corporate_actions`: the number of items, or the first exception. */
    method PersistBatch(cas: seq<CorporateAction>, digest: string -> string) returns (r: Result<nat, PersistError>)
      modifies this
      ensures State() == BatchSpec(old(State()), cas, digest).tables
      ensures r == BatchCount(old(State()), cas, digest)
    {
      if cas == [] {
        return Ok(0);
      }
      var i := 0;
      while i < |cas|
        invariant 0 <= i <= |cas|
        invariant BatchSpec(old(State()), cas, digest) == BatchSpec(State(), cas[i..], digest)
      {
        assert cas[i..][1..] == cas[i + 1..];
        var err := Persist(cas[i], digest);
        if err.Some? {
          return Err(err.value);
        }
        i := i + 1;
      }
      return Ok(|cas|);
    }
  }
}
