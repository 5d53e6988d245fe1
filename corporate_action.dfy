/**
 * The canonical corporate-action record: identifier patterns, ratio and leg
 * rules, cross-field validation and the deterministic event identity.
 *
 * The cryptographic digest (SHA-256 followed by UUIDv5) is a parameter
 * `digest: string -> string`, applied to the joined identity tokens.
 */
module CorporateActionModel {
  import opened Wrappers
  import opened Text

  // ---------------------------------------------------------------------
  // Action types
  // ---------------------------------------------------------------------

  const ForwardSplit := "forward_split"
  const ReverseSplit := "reverse_split"
  const CashDividend := "cash_dividend"
  const StockDividend := "stock_dividend"
  const SpinOff := "spin_off"
  const MergerCash := "merger_cash"
  const MergerStock := "merger_stock"
  const MergerCashStock := "merger_cash_stock"
  const RightsOffering := "rights_offering"
  const TenderOffer := "tender_offer"
  const Buyback := "buyback"
  const Bankruptcy := "bankruptcy"
  const OtherAction := "other"

  /** The thirteen action-type constants. */
  const ActionTypes: set<string> := {
    ForwardSplit, ReverseSplit, CashDividend, StockDividend, SpinOff, MergerCash,
    MergerStock, MergerCashStock, RightsOffering, TenderOffer, Buyback, Bankruptcy, OtherAction
  }

  predicate IsActionType(v: string) {
    v in ActionTypes
  }

  /**
   * The set the source actually tests against: every string value in the
   * class's attribute dictionary, which besides the thirteen constants holds
   * the interpreter-supplied `__module__` and `__doc__` strings.
   */
  function ActionTypeClassStrings(moduleName: string, docString: string): set<string> {
    ActionTypes + {moduleName, docString}
  }

  predicate IsActionTypeAsWritten(v: string, moduleName: string, docString: string) {
    v in ActionTypeClassStrings(moduleName, docString)
  }

  /** The `__module__` of the `ActionType` class. */
  const ActionTypeModule := "src.models.corporate_action_model"

  /** The module name holds no whitespace, so stripping leaves it as it is. */
  lemma ModuleNameStripped()
    ensures Strip(ActionTypeModule) == ActionTypeModule
  {
    var m := ActionTypeModule;
    assert forall i :: 0 <= i < |m| ==> '.' <= m[i];
    StripNoSpace(m);
  }

  /** As written, the class's own module name passes the action-type check. */
  lemma ModuleNamePassesActionTypeCheck(docString: string)
    ensures IsActionTypeAsWritten("src.models.corporate_action_model", "src.models.corporate_action_model", docString)
    ensures !IsActionType("src.models.corporate_action_model")
  {
    var m := "src.models.corporate_action_model";
    assert m[3] == '.';
    forall v | v in ActionTypes ensures '.' !in v {
    }
  }

  /** Every one of the thirteen constants passes the test as written, and none is blank. */
  lemma KnownTypesPassAsWritten(v: string, moduleName: string, docString: string)
    requires IsActionType(v)
    ensures IsActionTypeAsWritten(v, moduleName, docString) && v != ""
  {
  }

  /** The corrected check admits only lower-case snake-case labels, so no dotted module name. */
  lemma ActionTypesArePlainLabels(v: string)
    requires IsActionType(v)
    ensures |v| > 0 && forall i :: 0 <= i < |v| ==> IsLower(v[i]) || v[i] == '_'
  {
  }

  // ---------------------------------------------------------------------
  // Identifier patterns
  // ---------------------------------------------------------------------

  predicate IsUpperOrDigit(c: char) { IsUpper(c) || IsDigit(c) }

  /** `^[A-Z0-9.\-]{1,12}$` */
  predicate TickerShape(v: string) {
    1 <= |v| <= 12 && forall i :: 0 <= i < |v| ==> IsUpperOrDigit(v[i]) || v[i] == '.' || v[i] == '-'
  }

  /** `^[A-Z]{3}$` */
  predicate CurrencyShape(v: string) {
    |v| == 3 && forall i :: 0 <= i < |v| ==> IsUpper(v[i])
  }

  /** `^[0-9A-Z]{9}$` */
  predicate CusipShape(v: string) {
    |v| == 9 && forall i :: 0 <= i < |v| ==> IsUpperOrDigit(v[i])
  }

  /** `^[A-Z]{2}[A-Z0-9]{9}[0-9]$` */
  predicate IsinShape(v: string) {
    |v| == 12 && IsUpper(v[0]) && IsUpper(v[1]) && IsDigit(v[11])
    && forall i :: 2 <= i < 11 ==> IsUpperOrDigit(v[i])
  }

  /** `^[0-9]{10}$` */
  predicate CikShape(v: string) {
    |v| == 10 && AllDigits(v)
  }

  /** `^[A-Z0-9]{4}$` */
  predicate MicShape(v: string) {
    |v| == 4 && forall i :: 0 <= i < |v| ==> IsUpperOrDigit(v[i])
  }

  /**
   * What `re.match` accepts for an anchored pattern `^...$`: Python's `$`
   * also matches just before a single trailing newline.
   */
  predicate MatchesAsWritten(shape: string -> bool, v: string) {
    shape(v) || (|v| > 0 && v[|v| - 1] == '\n' && shape(v[..|v| - 1]))
  }

  /** As written, a ticker, a CIK and a currency with a trailing newline are accepted. */
  lemma TrailingNewlineAccepted()
    ensures MatchesAsWritten(TickerShape, "AAPL\n") && !TickerShape("AAPL\n")
    ensures MatchesAsWritten(CikShape, "0000320193\n") && !CikShape("0000320193\n")
    ensures MatchesAsWritten(CurrencyShape, "USD\n") && !CurrencyShape("USD\n")
  {
    assert "AAPL\n"[..4] == "AAPL";
    assert "0000320193\n"[..10] == "0000320193";
    assert "USD\n"[..3] == "USD";
    assert !IsUpperOrDigit("AAPL\n"[4]);
    assert !IsDigit("0000320193\n"[10]);
  }

  /** The corrected patterns never accept a control character such as a newline. */
  lemma CorrectedShapesRejectNewline(v: string)
    requires '\n' in v
    ensures !TickerShape(v) && !CurrencyShape(v) && !CusipShape(v)
    ensures !IsinShape(v) && !CikShape(v) && !MicShape(v)
  {
    var k :| 0 <= k < |v| && v[k] == '\n';
    assert !IsUpperOrDigit(v[k]) && !IsDigit(v[k]);
  }

  // ---------------------------------------------------------------------
  // Value records
  // ---------------------------------------------------------------------

  /** A calendar date; `date` objects compare by (year, month, day). */
  datatype Date = Date(year: nat, month: nat, day: nat)

  predicate Before(a: Date, b: Date) {
    a.year < b.year
    || (a.year == b.year && a.month < b.month)
    || (a.year == b.year && a.month == b.month && a.day < b.day)
  }

  /** `date.isoformat()` */
  function IsoFormat(d: Date): string {
    ZFill(NatToString(d.year), 4) + "-" + ZFill(NatToString(d.month), 2) + "-" + ZFill(NatToString(d.day), 2)
  }

  /** A `Decimal` amount, represented by its `str()` text: the core only renders amounts. */
  type DecimalText = string

  datatype Money = Money(currency: string, amount: DecimalText)

  datatype Ratio = Ratio(numerator: int, denominator: int)

  /** `str(Ratio)` */
  function RatioText(r: Ratio): string {
    IntToString(r.numerator) + "-for-" + IntToString(r.denominator)
  }

  datatype SecurityRef = SecurityRef(ticker: Option<string>, exchangeMic: Option<string>, isin: Option<string>, cusip: Option<string>)

  const NoSecurity := SecurityRef(None, None, None, None)

  datatype IssuerRef = IssuerRef(name: Option<string>, cik: Option<string>, isin: Option<string>, country: Option<string>)

  const NoIssuer := IssuerRef(None, None, None, None)

  /** An instant as an abstract clock reading. */
  type Timestamp = int

  datatype SourceInfo = SourceInfo(
    source: string,
    docType: string,
    sourceUrl: string,
    filingDate: Option<Date>,
    retrievalTime: Timestamp,
    contentSha256: Option<string>,
    referenceId: Option<string>,
    textExcerpt: Option<string>)

  datatype FieldProvenance = FieldProvenance(fieldName: string, sourceIndex: int, note: Option<string>, confidence: Option<real>)

  const CashLeg := "cash"
  const StockLeg := "stock"
  const RightsLeg := "rights"
  const OtherLeg := "other"

  datatype ConsiderationLeg = ConsiderationLeg(
    legType: string,
    cashPerShare: Option<Money>,
    stockRatio: Option<Ratio>,
    stockSecurity: Option<SecurityRef>,
    description: Option<string>)

  datatype Terms = Terms(ratio: Option<Ratio>, cashPerShare: Option<Money>, consideration: Option<seq<ConsiderationLeg>>)

  const NoTerms := Terms(None, None, None)

  /** The aggregate; `details_json` and `extras` values are kept as opaque text. */
  datatype CorporateAction = CorporateAction(
    eventId: Option<string>,
    actionType: string,
    issuer: IssuerRef,
    security: SecurityRef,
    announceDate: Option<Date>,
    effectiveDate: Option<Date>,
    exDate: Option<Date>,
    recordDate: Option<Date>,
    payDate: Option<Date>,
    terms: Terms,
    sources: seq<SourceInfo>,
    provenance: seq<FieldProvenance>,
    confidence: real,
    status: Option<string>,
    extractedFieldsVersion: Option<string>,
    extractionModel: Option<string>,
    pipelineVersion: Option<string>,
    supersedesEventId: Option<string>,
    notes: Option<string>,
    extras: Option<map<string, string>>)

  function Legs(t: Terms): seq<ConsiderationLeg> {
    if t.consideration.Some? then t.consideration.value else []
  }

  // ---------------------------------------------------------------------
  // Validation
  // ---------------------------------------------------------------------

  datatype ValidationError =
    | InvalidTicker | InvalidMic | InvalidIsin | InvalidCusip | InvalidCik | InvalidCurrency
    | RatioBelowOne | CashLegWithoutCash | StockLegWithoutRatio | ProvenanceConfidenceOutOfRange
    | UnknownActionType | ConfidenceOutOfRange
    | EffectiveBeforeAnnounce | PayBeforeRecord
    | SplitNeedsRatio | CashActionNeedsCash | StockMergerNeedsRatio

  /** The ticker validator: uppercase first, then check the pattern. */
  function NormalizeTicker(v: Option<string>): (r: Result<Option<string>, ValidationError>)
    ensures v.None? ==> r == Ok(None)
    ensures v.Some? ==> (r.Ok? <==> TickerShape(Upper(v.value)))
    ensures r.Ok? && v.Some? ==> r.value == Some(Upper(v.value))
  {
    if v.None? then Ok(None)
    else if TickerShape(Upper(v.value)) then Ok(Some(Upper(v.value)))
    else Err(InvalidTicker)
  }

  /** A validator that checks `shape` only for a non-empty value. */
  predicate OptionalShape(shape: string -> bool, v: Option<string>) {
    !Truthy(v) || shape(v.value)
  }

  function ValidateSecurity(s: SecurityRef): (r: Result<SecurityRef, ValidationError>)
    ensures r.Ok? <==>
      && (s.ticker.Some? ==> TickerShape(Upper(s.ticker.value)))
      && OptionalShape(MicShape, s.exchangeMic)
      && OptionalShape(IsinShape, s.isin)
      && OptionalShape(CusipShape, s.cusip)
    ensures r.Ok? ==> r.value == s.(ticker := if s.ticker.Some? then Some(Upper(s.ticker.value)) else None)
  {
    var ticker :- NormalizeTicker(s.ticker);
    if !OptionalShape(MicShape, s.exchangeMic) then Err(InvalidMic)
    else if !OptionalShape(IsinShape, s.isin) then Err(InvalidIsin)
    else if !OptionalShape(CusipShape, s.cusip) then Err(InvalidCusip)
    else Ok(s.(ticker := ticker))
  }

  /** A CIK, when not None, must be exactly ten digits. */
  predicate ValidCik(cik: Option<string>) {
    cik.None? || CikShape(cik.value)
  }

  predicate ValidMoney(m: Money) {
    CurrencyShape(m.currency)
  }

  predicate ValidRatio(r: Ratio) {
    r.numerator >= 1 && r.denominator >= 1
  }

  /** The leg semantics check on top of its parts' own checks. */
  function LegError(leg: ConsiderationLeg): Option<ValidationError> {
    if leg.cashPerShare.Some? && !ValidMoney(leg.cashPerShare.value) then Some(InvalidCurrency)
    else if leg.stockRatio.Some? && !ValidRatio(leg.stockRatio.value) then Some(RatioBelowOne)
    else if leg.stockSecurity.Some? && ValidateSecurity(leg.stockSecurity.value).Err? then Some(ValidateSecurity(leg.stockSecurity.value).error)
    else if leg.legType == CashLeg && leg.cashPerShare.None? then Some(CashLegWithoutCash)
    else if leg.legType == StockLeg && leg.stockRatio.None? then Some(StockLegWithoutRatio)
    else None
  }

  /** Validating a leg normalises the ticker of its stock security. */
  function NormalizeLeg(leg: ConsiderationLeg): ConsiderationLeg
    requires LegError(leg).None?
  {
    if leg.stockSecurity.Some? then leg.(stockSecurity := Some(ValidateSecurity(leg.stockSecurity.value).value)) else leg
  }

  function ValidateLegs(legs: seq<ConsiderationLeg>): (r: Result<seq<ConsiderationLeg>, ValidationError>)
    ensures r.Ok? <==> forall i :: 0 <= i < |legs| ==> LegError(legs[i]).None?
    ensures r.Ok? ==> |r.value| == |legs|
    ensures r.Ok? ==> forall i :: 0 <= i < |legs| ==> r.value[i] == NormalizeLeg(legs[i])
  {
    if legs == [] then Ok([])
    else if LegError(legs[0]).Some? then Err(LegError(legs[0]).value)
    else
      var rest :- ValidateLegs(legs[1..]);
      Ok([NormalizeLeg(legs[0])] + rest)
  }

  function ValidateTerms(t: Terms): (r: Result<Terms, ValidationError>)
    ensures r.Ok? ==> r.value.ratio == t.ratio && r.value.cashPerShare == t.cashPerShare
    ensures r.Ok? ==> r.value.consideration.Some? == t.consideration.Some?
    ensures r.Ok? ==> |Legs(r.value)| == |Legs(t)|
    ensures r.Ok? ==> t.ratio.Some? ==> ValidRatio(t.ratio.value)
    ensures r.Ok? ==> t.cashPerShare.Some? ==> ValidMoney(t.cashPerShare.value)
    ensures r.Ok? <==> && (t.ratio.Some? ==> ValidRatio(t.ratio.value))
                       && (t.cashPerShare.Some? ==> ValidMoney(t.cashPerShare.value))
                       && forall i :: 0 <= i < |Legs(t)| ==> LegError(Legs(t)[i]).None?
    ensures r.Ok? ==> forall i :: 0 <= i < |Legs(t)| ==> Legs(r.value)[i] == NormalizeLeg(Legs(t)[i])
  {
    if t.ratio.Some? && !ValidRatio(t.ratio.value) then Err(RatioBelowOne)
    else if t.cashPerShare.Some? && !ValidMoney(t.cashPerShare.value) then Err(InvalidCurrency)
    else if t.consideration.None? then Ok(t)
    else
      assert Legs(t) == t.consideration.value;
      var legs :- ValidateLegs(t.consideration.value);
      Ok(t.(consideration := Some(legs)))
  }

  predicate ValidProvenance(p: FieldProvenance) {
    p.confidence.None? || 0.0 <= p.confidence.value <= 1.0
  }

  // Cross-field checks -------------------------------------------------

  predicate DatesOrdered(ca: CorporateAction) {
    && !(ca.announceDate.Some? && ca.effectiveDate.Some? && Before(ca.effectiveDate.value, ca.announceDate.value))
    && !(ca.recordDate.Some? && ca.payDate.Some? && Before(ca.payDate.value, ca.recordDate.value))
  }

  predicate HasStockRatio(t: Terms) {
    t.ratio.Some? || exists i :: 0 <= i < |Legs(t)| && Legs(t)[i].stockRatio.Some?
  }

  predicate HasCash(t: Terms) {
    t.cashPerShare.Some? || exists i :: 0 <= i < |Legs(t)| && Legs(t)[i].cashPerShare.Some?
  }

  const SplitLike: set<string> := {ForwardSplit, ReverseSplit, StockDividend, SpinOff}
  const CashLike: set<string> := {CashDividend, MergerCash, MergerCashStock}
  const StockMerger: set<string> := {MergerStock, MergerCashStock}

  /** The terms-coherency check, or the first requirement it reports as missing. */
  function CoherencyError(actionType: string, t: Terms): (r: Option<ValidationError>)
    ensures r.None? <==>
      && (actionType in SplitLike ==> HasStockRatio(t))
      && (actionType in CashLike ==> HasCash(t))
      && (actionType in StockMerger ==> HasStockRatio(t))
  {
    if actionType in SplitLike && !HasStockRatio(t) then Some(SplitNeedsRatio)
    else if actionType in CashLike && !HasCash(t) then Some(CashActionNeedsCash)
    else if actionType in StockMerger && !HasStockRatio(t) then Some(StockMergerNeedsRatio)
    else None
  }

  // ---------------------------------------------------------------------
  // Event identity
  // ---------------------------------------------------------------------

  function OptToken(prefix: string, v: Option<string>): seq<string> {
    if Truthy(v) then [prefix + v.value] else []
  }

  /** The date fields in the order the identity visits them. */
  function DateFields(ca: CorporateAction): seq<(string, Option<Date>)> {
    [("effective_date", ca.effectiveDate), ("ex_date", ca.exDate),
     ("record_date", ca.recordDate), ("announce_date", ca.announceDate)]
  }

  function DateToken(name: string, d: Date): string {
    name + ":" + IsoFormat(d)
  }

  function DateTokens(fields: seq<(string, Option<Date>)>): seq<string> {
    if fields == [] then []
    else (if fields[0].1.Some? then [DateToken(fields[0].0, fields[0].1.value)] else []) + DateTokens(fields[1..])
  }

  function AmountText(m: Option<Money>): string {
    if m.Some? then m.value.amount else ""
  }

  function LegTag(leg: ConsiderationLeg): string {
    "leg:" + leg.legType + ":" + AmountText(leg.cashPerShare)
    + ":" + (if leg.stockRatio.Some? then RatioText(leg.stockRatio.value) else "")
    + ":" + (if leg.stockSecurity.Some? && Truthy(leg.stockSecurity.value.ticker) then leg.stockSecurity.value.ticker.value else "")
  }

  function TermTokens(t: Terms): seq<string> {
    (if t.ratio.Some? then ["ratio:" + RatioText(t.ratio.value)] else [])
    + (if t.cashPerShare.Some? then ["cash:" + t.cashPerShare.value.currency + ":" + t.cashPerShare.value.amount] else [])
  }

  function LegTags(legs: seq<ConsiderationLeg>): (r: seq<string>)
    ensures |r| == |legs|
    ensures forall i :: 0 <= i < |legs| ==> r[i] == LegTag(legs[i])
  {
    if legs == [] then [] else [LegTag(legs[0])] + LegTags(legs[1..])
  }

  function IdentifierTokens(ca: CorporateAction): seq<string> {
    [ca.actionType]
    + OptToken("cik:", ca.issuer.cik)
    + OptToken("isin:", ca.security.isin)
    + OptToken("cusip:", ca.security.cusip)
    + OptToken("ticker:", ca.security.ticker)
  }

  /** The ordered tokens whose `|`-join is hashed into the event identity. */
  function EventIdTokens(ca: CorporateAction): seq<string> {
    IdentifierTokens(ca) + DateTokens(DateFields(ca)) + TermTokens(ca.terms) + LegTags(Legs(ca.terms))
  }

  /** The identity a validated action receives: an explicit non-empty id wins. */
  function EventIdOf(ca: CorporateAction, digest: string -> string): string {
    if Truthy(ca.eventId) then ca.eventId.value else digest(Join("|", EventIdTokens(ca)))
  }

  function CountPresent(fields: seq<(string, Option<Date>)>): nat {
    if fields == [] then 0 else (if fields[0].1.Some? then 1 else 0) + CountPresent(fields[1..])
  }

  /** Every present date contributes a token, in the fixed order, not only the first one. */
  lemma {:induction false} DateTokensAll(fields: seq<(string, Option<Date>)>)
    ensures |DateTokens(fields)| == CountPresent(fields)
    ensures forall i :: 0 <= i < |fields| && fields[i].1.Some? ==> DateToken(fields[i].0, fields[i].1.value) in DateTokens(fields)
  {
    if fields != [] {
      DateTokensAll(fields[1..]);
      forall i | 0 <= i < |fields| && fields[i].1.Some?
        ensures DateToken(fields[i].0, fields[i].1.value) in DateTokens(fields)
      {
        if i > 0 {
          assert fields[i] == fields[1..][i - 1];
        }
      }
    }
  }

  function CountIdentifiers(ca: CorporateAction): nat {
    (if Truthy(ca.issuer.cik) then 1 else 0) + (if Truthy(ca.security.isin) then 1 else 0)
    + (if Truthy(ca.security.cusip) then 1 else 0) + (if Truthy(ca.security.ticker) then 1 else 0)
  }

  /**
   * The token list has one token for the action type, one per present
   * identifier, one per present date, one per present term, and one tag
   * per leg; the tags close the list in leg order.
   */
  lemma IdentifierTokensShape(ca: CorporateAction)
    ensures IdentifierTokens(ca)[0] == ca.actionType && |IdentifierTokens(ca)| == 1 + CountIdentifiers(ca)
  {
  }

  lemma EventIdTokensShape(ca: CorporateAction)
    ensures var toks := EventIdTokens(ca);
      && toks[0] == ca.actionType
      && |toks| == 1 + CountIdentifiers(ca) + CountPresent(DateFields(ca))
                   + (if ca.terms.ratio.Some? then 1 else 0) + (if ca.terms.cashPerShare.Some? then 1 else 0)
                   + |Legs(ca.terms)|
      && toks[|toks| - |Legs(ca.terms)|..] == LegTags(Legs(ca.terms))
  {
    IdentifierTokensShape(ca);
    DateTokensAll(DateFields(ca));
    var ids, dates, terms, tags := IdentifierTokens(ca), DateTokens(DateFields(ca)), TermTokens(ca.terms), LegTags(Legs(ca.terms));
    assert EventIdTokens(ca) == ids + dates + terms + tags;
    assert |terms| == (if ca.terms.ratio.Some? then 1 else 0) + (if ca.terms.cashPerShare.Some? then 1 else 0);
  }

  /**
   * Supplying a previously absent CIK always changes the identity input, so
   * an enrichment pass that recomputes the identity yields a new event.
   */
  lemma AddingCikChangesTokens(ca: CorporateAction, cik: string)
    requires !Truthy(ca.issuer.cik) && cik != ""
    ensures EventIdTokens(ca) != EventIdTokens(ca.(issuer := ca.issuer.(cik := Some(cik))))
  {
    var ca' := ca.(issuer := ca.issuer.(cik := Some(cik)));
    EventIdTokensShape(ca);
    EventIdTokensShape(ca');
  }

  /** The fields the identity is computed from. */
  function IdentityView(ca: CorporateAction): (string, Option<string>, SecurityRef, seq<(string, Option<Date>)>, Terms) {
    (ca.actionType, ca.issuer.cik, ca.security.(exchangeMic := None), DateFields(ca), ca.terms)
  }

  /** Two actions that agree on the identifying fields, and carry no explicit id, get the same id. */
  lemma SameContentSameId(a: CorporateAction, b: CorporateAction, digest: string -> string)
    requires IdentityView(a) == IdentityView(b)
    requires !Truthy(a.eventId) && !Truthy(b.eventId)
    ensures EventIdOf(a, digest) == EventIdOf(b, digest)
  {
    assert a.security.isin == b.security.isin && a.security.cusip == b.security.cusip && a.security.ticker == b.security.ticker by {
      assert IdentityView(a).2 == IdentityView(b).2;
    }
    assert DateFields(a) == DateFields(b);
    assert EventIdTokens(a) == EventIdTokens(b);
  }

  /**
   * `_generate_event_id`: keep a non-empty explicit id, otherwise collect the
   * tokens step by step and hash their `|`-join.
   */
  method GenerateEventId(ca: CorporateAction, digest: string -> string) returns (eventId: string)
    ensures eventId == EventIdOf(ca, digest)
    ensures Truthy(ca.eventId) ==> eventId == ca.eventId.value
  {
    if Truthy(ca.eventId) {
      return ca.eventId.value;
    }
    var parts := CollectIdentifierTokens(ca);
    var dateParts := AppendDateTokens(DateFields(ca));
    var termParts := CollectTermTokens(ca.terms);
    var legParts := AppendLegTags(Legs(ca.terms));
    parts := parts + dateParts + termParts + legParts;
    eventId := digest(Join("|", parts));
  }

  /** The identifier part of the identity: the action type, then each present identifier. */
  method CollectIdentifierTokens(ca: CorporateAction) returns (parts: seq<string>)
    ensures parts == IdentifierTokens(ca)
  {
    parts := [ca.actionType];
    var issuer, security := ca.issuer, ca.security;
    if Truthy(issuer.cik) { parts := parts + ["cik:" + issuer.cik.value]; }
    assert parts == [ca.actionType] + OptToken("cik:", issuer.cik);
    if Truthy(security.isin) { parts := parts + ["isin:" + security.isin.value]; }
    assert parts == [ca.actionType] + OptToken("cik:", issuer.cik) + OptToken("isin:", security.isin);
    if Truthy(security.cusip) { parts := parts + ["cusip:" + security.cusip.value]; }
    assert parts == [ca.actionType] + OptToken("cik:", issuer.cik) + OptToken("isin:", security.isin)
      + OptToken("cusip:", security.cusip);
    if Truthy(security.ticker) { parts := parts + ["ticker:" + security.ticker.value]; }
  }

  /** The terms part of the identity: the ratio, then the cash amount, when present. */
  method CollectTermTokens(terms: Terms) returns (parts: seq<string>)
    ensures parts == TermTokens(terms)
  {
    parts := [];
    if terms.ratio.Some? { parts := parts + ["ratio:" + RatioText(terms.ratio.value)]; }
    if terms.cashPerShare.Some? {
      parts := parts + ["cash:" + terms.cashPerShare.value.currency + ":" + terms.cashPerShare.value.amount];
    }
  }

  /** The date loop of the identity: one tagged token per present date. */
  method AppendDateTokens(fields: seq<(string, Option<Date>)>) returns (parts: seq<string>)
    ensures parts == DateTokens(fields)
  {
    parts := [];
    var k := 0;
    while k < |fields|
      invariant 0 <= k <= |fields|
      invariant parts + DateTokens(fields[k..]) == DateTokens(fields)
    {
      assert fields[k..][1..] == fields[k + 1..];
      if fields[k].1.Some? {
        parts := parts + [DateToken(fields[k].0, fields[k].1.value)];
      }
      k := k + 1;
    }
    assert fields[k..] == [];
  }

  /** The leg loop of the identity: one tag per leg, in list order. */
  method AppendLegTags(legs: seq<ConsiderationLeg>) returns (parts: seq<string>)
    ensures parts == LegTags(legs)
  {
    parts := [];
    var j := 0;
    while j < |legs|
      invariant 0 <= j <= |legs|
      invariant parts == LegTags(legs[..j])
    {
      assert legs[..j + 1] == legs[..j] + [legs[j]];
      LegTagsAppend(legs[..j], legs[j]);
      parts := parts + [LegTag(legs[j])];
      j := j + 1;
    }
    assert legs[..j] == legs;
  }

  lemma LegTagsAppend(legs: seq<ConsiderationLeg>, leg: ConsiderationLeg)
    ensures LegTags(legs + [leg]) == LegTags(legs) + [LegTag(leg)]
  {
  }

  // ---------------------------------------------------------------------
  // Construction
  // ---------------------------------------------------------------------

  /** The invariants every constructed aggregate satisfies. */
  predicate Constructed(ca: CorporateAction) {
    && IsActionType(ca.actionType)
    && 0.0 <= ca.confidence <= 1.0
    && DatesOrdered(ca)
    && CoherencyError(ca.actionType, ca.terms).None?
    && ValidCik(ca.issuer.cik)
    && (ca.security.ticker.Some? ==> TickerShape(ca.security.ticker.value))
    && OptionalShape(MicShape, ca.security.exchangeMic)
    && OptionalShape(IsinShape, ca.security.isin)
    && OptionalShape(CusipShape, ca.security.cusip)
    && (ca.terms.ratio.Some? ==> ValidRatio(ca.terms.ratio.value))
    && (ca.terms.cashPerShare.Some? ==> ValidMoney(ca.terms.cashPerShare.value))
    && (forall i :: 0 <= i < |Legs(ca.terms)| ==> LegError(Legs(ca.terms)[i]).None?)
    && (forall i :: 0 <= i < |ca.provenance| ==> ValidProvenance(ca.provenance[i]))
    && ca.eventId.Some?
  }

  /** The field validators: the record after normalisation, or the first error. */
  function ValidateFields(ca: CorporateAction): Result<CorporateAction, ValidationError> {
    if !IsActionType(ca.actionType) then Err(UnknownActionType)
    else if !(0.0 <= ca.confidence <= 1.0) then Err(ConfidenceOutOfRange)
    else if !ValidCik(ca.issuer.cik) then Err(InvalidCik)
    else if exists i :: 0 <= i < |ca.provenance| && !ValidProvenance(ca.provenance[i]) then Err(ProvenanceConfidenceOutOfRange)
    else
      var security :- ValidateSecurity(ca.security);
      var terms :- ValidateTerms(ca.terms);
      Ok(ca.(security := security, terms := terms))
  }

  /**
   * Constructing a `CorporateAction`: field validators, then the date check,
   * the terms-coherency check, and finally the event identity.
   */
  function Construct(ca: CorporateAction, digest: string -> string): (r: Result<CorporateAction, ValidationError>)
    ensures r.Ok? ==> Constructed(r.value)
    ensures r.Ok? ==> r.value.eventId == Some(EventIdOf(r.value.(eventId := ca.eventId), digest))
    ensures r.Ok? && Truthy(ca.eventId) ==> r.value.eventId == ca.eventId
    ensures !IsActionType(ca.actionType) ==> r == Err(UnknownActionType)
    ensures IsActionType(ca.actionType) && !(0.0 <= ca.confidence <= 1.0) ==> r == Err(ConfidenceOutOfRange)
    ensures r.Ok? ==> ValidateFields(ca).Ok? && r.value == ValidateFields(ca).value.(eventId := r.value.eventId)
    ensures r.Ok? ==> r.value.(eventId := ca.eventId, security := ca.security, terms := ca.terms) == ca
    ensures r.Ok? ==> r.value.terms.ratio == ca.terms.ratio && r.value.terms.cashPerShare == ca.terms.cashPerShare
  {
    var v :- ValidateFields(ca);
    ValidatedFacts(ca);
    if !DatesOrdered(v) then
      if ca.announceDate.Some? && ca.effectiveDate.Some? && Before(ca.effectiveDate.value, ca.announceDate.value)
      then Err(EffectiveBeforeAnnounce) else Err(PayBeforeRecord)
    else
      var coherency := CoherencyError(v.actionType, v.terms);
      if coherency.Some? then Err(coherency.value)
      else Ok(v.(eventId := Some(EventIdOf(v, digest))))
  }

  /** What the field validators leave: valid legs, and the same ratio and cash evidence. */
  lemma ValidatedFacts(ca: CorporateAction)
    requires ValidateFields(ca).Ok?
    ensures var v := ValidateFields(ca).value;
      && (forall i :: 0 <= i < |Legs(v.terms)| ==> LegError(Legs(v.terms)[i]).None?)
      && HasStockRatio(v.terms) == HasStockRatio(ca.terms) && HasCash(v.terms) == HasCash(ca.terms)
      && v.(security := ca.security, terms := ca.terms) == ca
  {
    var v := ValidateFields(ca).value;
    forall i | 0 <= i < |Legs(v.terms)| ensures LegError(Legs(v.terms)[i]).None? {
      NormalizeLegValid(Legs(ca.terms)[i]);
    }
    LegsPreserveRatioAndCash(ca.terms, v.terms);
  }

  lemma NormalizeLegValid(leg: ConsiderationLeg)
    requires LegError(leg).None?
    ensures LegError(NormalizeLeg(leg)).None?
    ensures NormalizeLeg(leg).stockRatio == leg.stockRatio && NormalizeLeg(leg).cashPerShare == leg.cashPerShare
  {
    if leg.stockSecurity.Some? {
      var s := leg.stockSecurity.value;
      var s' := ValidateSecurity(s).value;
      assert s'.ticker.Some? ==> s'.ticker.value == Upper(s.ticker.value);
      if s'.ticker.Some? {
        var t := s'.ticker.value;
        assert Upper(t) == t by {
          forall i | 0 <= i < |t| ensures Upper(t)[i] == t[i] { }
        }
      }
      assert ValidateSecurity(s').Ok?;
    }
  }

  lemma LegsPreserveRatioAndCash(t: Terms, t': Terms)
    requires ValidateTerms(t) == Ok(t')
    ensures HasStockRatio(t') == HasStockRatio(t) && HasCash(t') == HasCash(t)
  {
    if t.consideration.Some? {
      var legs := t.consideration.value;
      assert forall i :: 0 <= i < |legs| ==> Legs(t')[i] == NormalizeLeg(legs[i]);
      forall i | 0 <= i < |legs| ensures Legs(t')[i].stockRatio == legs[i].stockRatio && Legs(t')[i].cashPerShare == legs[i].cashPerShare {
        NormalizeLegValid(legs[i]);
      }
    }
  }

  /**
   * The record-level rules, stated on the input: construction succeeds
   * exactly when every field and cross-field rule holds.
   */
  lemma ConstructSucceedsIff(ca: CorporateAction, digest: string -> string)
    ensures Construct(ca, digest).Ok? <==>
      && IsActionType(ca.actionType)
      && 0.0 <= ca.confidence <= 1.0
      && ValidCik(ca.issuer.cik)
      && (forall i :: 0 <= i < |ca.provenance| ==> ValidProvenance(ca.provenance[i]))
      && ValidateSecurity(ca.security).Ok?
      && ValidateTerms(ca.terms).Ok?
      && DatesOrdered(ca)
      && CoherencyError(ca.actionType, ca.terms).None?
  {
    if ValidateFields(ca).Ok? {
      var v := ValidateFields(ca).value;
      LegsPreserveRatioAndCash(ca.terms, v.terms);
    }
  }

  /** A well-formed ticker is already upper-case. */
  lemma TickerIsUpper(t: string)
    requires TickerShape(t)
    ensures Upper(t) == t
  {
    forall i | 0 <= i < |t| ensures Upper(t)[i] == t[i] { }
  }

  /** Validating a validated security changes nothing. */
  lemma ValidateSecurityIdempotent(s: SecurityRef)
    requires ValidateSecurity(s).Ok?
    ensures ValidateSecurity(ValidateSecurity(s).value) == ValidateSecurity(s)
  {
    if s.ticker.Some? {
      TickerIsUpper(Upper(s.ticker.value));
    }
  }

  /** A normalised leg is valid and normalises to itself. */
  lemma NormalizeLegIdempotent(leg: ConsiderationLeg)
    requires LegError(leg).None?
    ensures LegError(NormalizeLeg(leg)).None? && NormalizeLeg(NormalizeLeg(leg)) == NormalizeLeg(leg)
  {
    NormalizeLegValid(leg);
    if leg.stockSecurity.Some? {
      ValidateSecurityIdempotent(leg.stockSecurity.value);
    }
  }

  /** Validating validated legs changes nothing. */
  lemma ValidateLegsIdempotent(legs: seq<ConsiderationLeg>)
    requires ValidateLegs(legs).Ok?
    ensures ValidateLegs(ValidateLegs(legs).value) == ValidateLegs(legs)
  {
    var r := ValidateLegs(legs).value;
    forall i | 0 <= i < |r| ensures LegError(r[i]).None? && NormalizeLeg(r[i]) == r[i] {
      NormalizeLegIdempotent(legs[i]);
    }
    assert ValidateLegs(r).value == r;
  }

  /** Validating validated terms changes nothing. */
  lemma ValidateTermsIdempotent(t: Terms)
    requires ValidateTerms(t).Ok?
    ensures ValidateTerms(ValidateTerms(t).value) == ValidateTerms(t)
  {
    if t.consideration.Some? {
      ValidateLegsIdempotent(t.consideration.value);
    }
  }

  /** Running the field validators on their own output changes nothing. */
  lemma ValidateFieldsIdempotent(ca: CorporateAction)
    requires ValidateFields(ca).Ok?
    ensures ValidateFields(ValidateFields(ca).value) == ValidateFields(ca)
  {
    ValidateSecurityIdempotent(ca.security);
    ValidateTermsIdempotent(ca.terms);
  }

  /** The field validators accept a record they produced, whatever its identity. */
  lemma ValidatedWithId(ca: CorporateAction, id: Option<string>)
    requires ValidateFields(ca).Ok?
    ensures var w := ValidateFields(ca).value.(eventId := id); ValidateFields(w) == Ok(w)
  {
    ValidateFieldsIdempotent(ca);
  }

  /** A record the validators accept, with its dates ordered, coherent terms and an id, constructs to itself. */
  lemma ConstructFixed(w: CorporateAction, digest: string -> string)
    requires ValidateFields(w) == Ok(w) && DatesOrdered(w) && CoherencyError(w.actionType, w.terms).None?
    requires Truthy(w.eventId)
    ensures Construct(w, digest) == Ok(w)
  {
  }

  /**
   * Re-validating a constructed aggregate (what persistence does for a
   * record whose id went missing, with the id still set) changes nothing.
   */
  lemma ReconstructIsIdentity(ca: CorporateAction, digest: string -> string)
    requires Construct(ca, digest).Ok?
    requires forall s :: digest(s) != ""
    ensures Construct(Construct(ca, digest).value, digest) == Construct(ca, digest)
  {
    var w := Construct(ca, digest).value;
    ValidatedWithId(ca, w.eventId);
    ConstructFixed(w, digest);
  }
}
