/**
 * Effective-date resolution: rank date-evidence candidates by (kind rank,
 * confidence), descending and stable, recommend the first one, and promote a
 * date only from the best definitive candidate that meets the threshold.
 * Pure: inputs are values, the result is a fresh ranked list and patch.
 */
module EffectiveDateResolver {
  import opened Wrappers
  import opened Text
  import CA = CorporateActionModel

  const Definitive := "definitive"
  const Estimated := "estimated"
  const Window := "window"
  const Relative := "relative"

  /** The keys of `KIND_ORDER`. */
  predicate IsKind(k: string) {
    k == Definitive || k == Estimated || k == Window || k == Relative
  }

  /** `KIND_ORDER`: definitive 3, estimated 2, window 1, relative 0. */
  function KindRank(k: string): (n: int)
    ensures 0 <= n <= 3
    ensures n == 3 <==> k == Definitive
  {
    if k == Definitive then 3 else if k == Estimated then 2 else if k == Window then 1 else 0
  }

  /** The default `min_confidence` of the resolve policy. */
  const DefaultMinConfidence: real := 0.85

  /** `_norm_kind`: strip, lowercase, and map anything unknown to "relative". */
  function NormKind(kind: Option<string>): (k: string)
    ensures IsKind(k)
    ensures IsKind(Lower(Strip(kind.GetOr("")))) ==> k == Lower(Strip(kind.GetOr("")))
    ensures !IsKind(Lower(Strip(kind.GetOr("")))) ==> k == Relative
  {
    var t := Lower(Strip(kind.GetOr("")));
    if IsKind(t) then t else Relative
  }

  lemma PlainKind(k: string)
    requires IsKind(k)
    ensures forall i :: 0 <= i < |k| ==> IsLower(k[i])
  {
  }

  /** Normalising a normalised kind changes nothing, so `_score` ranks a normalised candidate by its stored kind. */
  lemma NormKindIdempotent(kind: Option<string>)
    ensures NormKind(Some(NormKind(kind))) == NormKind(kind)
  {
    KindIsFixed(NormKind(kind));
  }

  /** A known kind is already stripped and lower-case, so it normalises to itself. */
  lemma KindIsFixed(k: string)
    requires IsKind(k)
    ensures NormKind(Some(k)) == k
  {
    KindIsStripped(k);
    KindIsLower(k);
    KnownKindFixed(k);
  }

  lemma KindIsStripped(k: string)
    requires IsKind(k)
    ensures Strip(k) == k
  {
    PlainKind(k);
    StripNoSpace(k);
  }

  lemma KindIsLower(k: string)
    requires IsKind(k)
    ensures Lower(k) == k
  {
    PlainKind(k);
    LowerNoUpper(k);
  }

  lemma KnownKindFixed(k: string)
    requires IsKind(k) && Strip(k) == k && Lower(k) == k
    ensures NormKind(Some(k)) == k
  {
    assert Some(k).GetOr("") == k;
  }

  /** A confidence as supplied: absent or null, a number, or a value `float()` rejects. */
  datatype RawConfidence = Missing | Number(value: real) | NotANumber

  /** A candidate dict as supplied by a caller; `via` is its "method" entry. */
  datatype RawCandidate = RawCandidate(
    kind: Option<string>,
    date: Option<CA.Date>,
    startDate: Option<CA.Date>,
    endDate: Option<CA.Date>,
    qualifier: Option<string>,
    via: Option<string>,
    confidence: RawConfidence,
    other: map<string, string>)

  /** A candidate after normalisation: a known kind and a numeric or absent confidence. */
  datatype Candidate = Candidate(
    kind: string,
    date: Option<CA.Date>,
    startDate: Option<CA.Date>,
    endDate: Option<CA.Date>,
    qualifier: Option<string>,
    via: Option<string>,
    confidence: Option<real>,
    other: map<string, string>)

  /** `_normalize_candidate`: a copy with the kind normalised and the confidence converted. */
  function NormalizeCandidate(c: RawCandidate): (r: Candidate)
    ensures IsKind(r.kind)
    ensures r.confidence.Some? <==> c.confidence.Number?
    ensures c.confidence.Number? ==> r.confidence.value == c.confidence.value
    ensures r.kind == NormKind(c.kind)
    ensures r.date == c.date && r.startDate == c.startDate && r.endDate == c.endDate
    ensures r.qualifier == c.qualifier && r.via == c.via && r.other == c.other
  {
    Candidate(NormKind(c.kind), c.date, c.startDate, c.endDate, c.qualifier, c.via,
              if c.confidence.Number? then Some(c.confidence.value) else None, c.other)
  }

  /** A missing confidence scores as 0. */
  function Conf(c: Candidate): real {
    c.confidence.GetOr(0.0)
  }

  /** The rank half of `_score`; see `ScoreRenormalizes` for the re-normalisation `_score` applies. */
  function Rank(c: Candidate): int {
    KindRank(c.kind)
  }

  lemma ScoreRenormalizes(raw: RawCandidate)
    ensures var c := NormalizeCandidate(raw); KindRank(NormKind(Some(c.kind))) == Rank(c)
  {
    NormKindIdempotent(raw.kind);
  }

  /** The sort key of `_score`, compared lexicographically. */
  predicate Above(a: Candidate, b: Candidate) {
    Rank(a) > Rank(b) || (Rank(a) == Rank(b) && Conf(a) > Conf(b))
  }

  predicate SameScore(a: Candidate, b: Candidate) {
    Rank(a) == Rank(b) && Conf(a) == Conf(b)
  }

  /** Non-increasing in (rank, confidence). */
  predicate SortedDesc(s: seq<Candidate>) {
    forall i, j :: 0 <= i < j < |s| ==> !Above(s[j], s[i])
  }

  /** The candidates whose score equals `c`'s, in their order in `s`. */
  function Ties(s: seq<Candidate>, c: Candidate): (r: seq<Candidate>)
    ensures |r| <= |s|
  {
    if s == [] then []
    else (if SameScore(s[0], c) then [s[0]] else []) + Ties(s[1..], c)
  }

  /** "Not above" is transitive: the score order is a total preorder. */
  lemma NotAboveTransitive(a: Candidate, b: Candidate, c: Candidate)
    requires !Above(a, b) && !Above(b, c)
    ensures !Above(a, c)
  {
  }

  /** Inserts `x`, which precedes every element of `t` in the input, before the first element not above it. */
  function Insert(x: Candidate, t: seq<Candidate>): (r: seq<Candidate>)
    ensures multiset(r) == multiset(t) + multiset{x}
    ensures |r| == |t| + 1
  {
    if t == [] || !Above(t[0], x) then [x] + t
    else
      assert t == [t[0]] + t[1..];
      [t[0]] + Insert(x, t[1..])
  }

  lemma {:induction false} InsertSorted(x: Candidate, t: seq<Candidate>)
    requires SortedDesc(t)
    ensures SortedDesc(Insert(x, t))
  {
    var r := Insert(x, t);
    if t == [] || !Above(t[0], x) {
      assert r == [x] + t;
      forall j | 1 <= j < |r|
        ensures !Above(r[j], r[0])
      {
        if j > 1 {
          NotAboveTransitive(t[j - 1], t[0], x);
        }
      }
    } else {
      InsertSorted(x, t[1..]);
      var rest := Insert(x, t[1..]);
      assert r == [t[0]] + rest;
      forall j | 0 <= j < |rest|
        ensures !Above(rest[j], t[0])
      {
        assert rest[j] in multiset(rest);
        if rest[j] != x {
          assert rest[j] in multiset(t[1..]);
          var k :| 0 <= k < |t[1..]| && t[1..][k] == rest[j];
          assert t[k + 1] == rest[j];
        }
      }
    }
  }

  /** Python's `sorted(..., key=_score, reverse=True)`: stable, descending. */
  function SortDesc(s: seq<Candidate>): (r: seq<Candidate>)
    ensures multiset(r) == multiset(s)
    ensures SortedDesc(r)
    ensures |r| == |s|
  {
    if s == [] then []
    else
      assert s == [s[0]] + s[1..];
      InsertSorted(s[0], SortDesc(s[1..]));
      Insert(s[0], SortDesc(s[1..]))
  }

  lemma {:induction false} InsertTies(x: Candidate, t: seq<Candidate>, c: Candidate)
    ensures Ties(Insert(x, t), c) == (if SameScore(x, c) then [x] else []) + Ties(t, c)
  {
    if t == [] || !Above(t[0], x) {
      assert Insert(x, t) == [x] + t;
      assert ([x] + t)[1..] == t;
    } else {
      InsertTies(x, t[1..], c);
      assert Insert(x, t)[1..] == Insert(x, t[1..]);
    }
  }

  /** Stability: candidates with equal scores keep their input order. */
  lemma {:induction false} SortDescStable(s: seq<Candidate>, c: Candidate)
    ensures Ties(SortDesc(s), c) == Ties(s, c)
  {
    if s != [] {
      SortDescStable(s[1..], c);
      InsertTies(s[0], SortDesc(s[1..]), c);
    }
  }

  /** The extras patch: exactly the ranked list and the recommendation, or `{}` when there is nothing to rank. */
  datatype Patch = EmptyPatch | Patch(candidates: seq<Candidate>, recommendation: Candidate)

  function FirstDefinitiveIndex(ranked: seq<Candidate>, from: nat): (r: int)
    requires from <= |ranked|
    ensures r == -1 || (from <= r < |ranked| && ranked[r].kind == Definitive && ranked[r].date.Some?)
    ensures r == -1 ==> forall j :: from <= j < |ranked| ==> !(ranked[j].kind == Definitive && ranked[j].date.Some?)
    ensures r != -1 ==> forall j :: from <= j < r ==> !(ranked[j].kind == Definitive && ranked[j].date.Some?)
    decreases |ranked| - from
  {
    if from == |ranked| then -1
    else if ranked[from].kind == Definitive && ranked[from].date.Some? then from
    else FirstDefinitiveIndex(ranked, from + 1)
  }

  /** A definitive candidate carrying a date. */
  predicate DatedDefinitive(c: Candidate) {
    c.kind == Definitive && c.date.Some?
  }

  function Normalized(candidates: seq<RawCandidate>): (r: seq<Candidate>)
    ensures |r| == |candidates|
    ensures forall i :: 0 <= i < |candidates| ==> r[i] == NormalizeCandidate(candidates[i])
  {
    seq(|candidates|, i requires 0 <= i < |candidates| => NormalizeCandidate(candidates[i]))
  }

  /** The date of the first dated definitive candidate, when its confidence meets the threshold. */
  function PromoteFrom(ranked: seq<Candidate>, minConfidence: real): Option<CA.Date> {
    var b := FirstDefinitiveIndex(ranked, 0);
    if b != -1 && Conf(ranked[b]) >= minConfidence then ranked[b].date else None
  }

  /** `resolve_effective_date`: the date to promote (if any) and the extras patch. */
  function Resolve(candidates: seq<RawCandidate>, minConfidence: real): (r: (Option<CA.Date>, Patch))
    ensures candidates == [] ==> r == (None, EmptyPatch)
    ensures candidates != [] ==> r.1.Patch? && r.1.candidates == SortDesc(Normalized(candidates))
    ensures candidates != [] ==> r.1.recommendation == r.1.candidates[0]
  {
    if candidates == [] then (None, EmptyPatch)
    else
      var ranked := SortDesc(Normalized(candidates));
      (PromoteFrom(ranked, minConfidence), Patch(ranked, ranked[0]))
  }

  /** The recommendation's (rank, confidence) is at least every candidate's. */
  lemma RecommendationIsMaximal(candidates: seq<RawCandidate>, minConfidence: real, i: nat)
    requires i < |candidates|
    ensures var rec := Resolve(candidates, minConfidence).1.recommendation;
      var c := NormalizeCandidate(candidates[i]);
      Rank(rec) >= Rank(c) && (Rank(rec) == Rank(c) ==> Conf(rec) >= Conf(c))
  {
    var norm := Normalized(candidates);
    var ranked := SortDesc(norm);
    var c := norm[i];
    assert c in multiset(norm);
    assert c in multiset(ranked);
    var j :| 0 <= j < |ranked| && ranked[j] == c;
    if j > 0 {
      assert !Above(ranked[j], ranked[0]);
    }
  }

  /** The ranked list is a permutation of the normalised candidates, sorted and stable. */
  lemma RankedIsStableSortedPermutation(candidates: seq<RawCandidate>, minConfidence: real, c: Candidate)
    requires candidates != []
    ensures var ranked := Resolve(candidates, minConfidence).1.candidates;
      && multiset(ranked) == multiset(Normalized(candidates))
      && SortedDesc(ranked)
      && Ties(ranked, c) == Ties(Normalized(candidates), c)
  {
    SortDescStable(Normalized(candidates), c);
  }

  /** The first dated definitive candidate of a sorted list has the highest confidence among them. */
  lemma BestDefinitiveDominates(ranked: seq<Candidate>, k: nat)
    requires SortedDesc(ranked)
    requires k < |ranked| && DatedDefinitive(ranked[k])
    ensures var b := FirstDefinitiveIndex(ranked, 0); b != -1 && Conf(ranked[k]) <= Conf(ranked[b])
  {
    var b := FirstDefinitiveIndex(ranked, 0);
    if k != b {
      assert !Above(ranked[k], ranked[b]);
    }
  }

  lemma InMultiset(s: seq<Candidate>, t: seq<Candidate>, i: nat) returns (k: nat)
    requires multiset(s) == multiset(t) && i < |s|
    ensures k < |t| && t[k] == s[i]
  {
    assert s[i] in multiset(s);
    assert s[i] in multiset(t);
    k :| 0 <= k < |t| && t[k] == s[i];
  }

  /** A dated definitive candidate that meets the threshold makes a sorted permutation promote. */
  lemma PromoteFromSome(norm: seq<Candidate>, ranked: seq<Candidate>, minConfidence: real, i: nat)
    requires multiset(ranked) == multiset(norm) && SortedDesc(ranked)
    requires i < |norm| && DatedDefinitive(norm[i]) && Conf(norm[i]) >= minConfidence
    ensures PromoteFrom(ranked, minConfidence).Some?
  {
    var k := InMultiset(norm, ranked, i);
    BestDefinitiveDominates(ranked, k);
  }

  /** A sorted permutation promotes the most confident dated definitive candidate, which meets the threshold. */
  lemma PromoteFromBest(norm: seq<Candidate>, ranked: seq<Candidate>, minConfidence: real) returns (i: nat)
    requires multiset(ranked) == multiset(norm) && SortedDesc(ranked)
    requires PromoteFrom(ranked, minConfidence).Some?
    ensures i < |norm| && DatedDefinitive(norm[i]) && norm[i].date == PromoteFrom(ranked, minConfidence)
    ensures Conf(norm[i]) >= minConfidence
    ensures forall j :: 0 <= j < |norm| && DatedDefinitive(norm[j]) ==> Conf(norm[j]) <= Conf(norm[i])
  {
    var b := FirstDefinitiveIndex(ranked, 0);
    i := InMultiset(ranked, norm, b);
    forall j | 0 <= j < |norm| && DatedDefinitive(norm[j])
      ensures Conf(norm[j]) <= Conf(norm[i])
    {
      var k := InMultiset(norm, ranked, j);
      BestDefinitiveDominates(ranked, k);
    }
  }

  /** The first candidate of `s` that carries a date, if any. */
  function FirstDated(s: seq<Candidate>): (r: Option<Candidate>)
    ensures r.Some? ==> r.value in s && r.value.date.Some?
  {
    if s == [] then None else if s[0].date.Some? then Some(s[0]) else FirstDated(s[1..])
  }

  /** The first index from `from` on of a dated candidate scoring like `c`, or -1. */
  function FirstDatedTie(s: seq<Candidate>, c: Candidate, from: nat): (r: int)
    requires from <= |s|
    ensures r == -1 || (from <= r < |s| && SameScore(s[r], c) && s[r].date.Some?)
    ensures r == -1 ==> forall j :: from <= j < |s| ==> !(SameScore(s[j], c) && s[j].date.Some?)
    ensures r != -1 ==> forall j :: from <= j < r ==> !(SameScore(s[j], c) && s[j].date.Some?)
    decreases |s| - from
  {
    if from == |s| then -1
    else if SameScore(s[from], c) && s[from].date.Some? then from
    else FirstDatedTie(s, c, from + 1)
  }

  /** Among the ties of `c`, the first dated one is the first dated candidate of `s` that scores like `c`. */
  lemma {:induction false} TiesFirstDated(s: seq<Candidate>, c: Candidate, k: nat)
    requires k < |s| && SameScore(s[k], c) && s[k].date.Some?
    requires forall j :: 0 <= j < k ==> !(SameScore(s[j], c) && s[j].date.Some?)
    ensures FirstDated(Ties(s, c)) == Some(s[k])
  {
    if k == 0 {
      assert Ties(s, c) == [s[0]] + Ties(s[1..], c);
    } else {
      var rest := s[1..];
      assert !(SameScore(s[0], c) && s[0].date.Some?);
      assert rest[k - 1] == s[k];
      assert forall j :: 0 <= j < k - 1 ==> rest[j] == s[j + 1];
      TiesFirstDated(rest, c, k - 1);
      if SameScore(s[0], c) {
        assert Ties(s, c) == [s[0]] + Ties(rest, c);
        assert ([s[0]] + Ties(rest, c))[1..] == Ties(rest, c);
      } else {
        assert Ties(s, c) == [] + Ties(rest, c);
        assert [] + Ties(rest, c) == Ties(rest, c);
      }
    }
  }

  /**
   * The promoted candidate of the stable sort is the earliest input candidate
   * among the most confident dated definitive ones.
   */
  lemma PromoteFromFirstBest(norm: seq<Candidate>, minConfidence: real) returns (i: nat)
    requires PromoteFrom(SortDesc(norm), minConfidence).Some?
    ensures i < |norm| && DatedDefinitive(norm[i]) && norm[i].date == PromoteFrom(SortDesc(norm), minConfidence)
    ensures Conf(norm[i]) >= minConfidence
    ensures forall j :: 0 <= j < |norm| && DatedDefinitive(norm[j]) ==> Conf(norm[j]) <= Conf(norm[i])
    ensures forall j :: 0 <= j < i && DatedDefinitive(norm[j]) ==> Conf(norm[j]) < Conf(norm[i])
  {
    var ranked := SortDesc(norm);
    var b := FirstDefinitiveIndex(ranked, 0);
    var c := ranked[b];
    // In the ranked list, the ties of `c` before it are definitive but undated.
    forall j | 0 <= j < b && SameScore(ranked[j], c)
      ensures ranked[j].date.None?
    {
      assert ranked[j].kind == Definitive;
    }
    TiesFirstDated(ranked, c, b);
    // In the input, the first dated candidate scoring like `c` is `c` itself.
    var k := InMultiset(ranked, norm, b);
    var t := FirstDatedTie(norm, c, 0);
    assert t != -1 by {
      assert SameScore(norm[k], c) && norm[k].date.Some?;
    }
    i := t;
    TiesFirstDated(norm, c, i);
    SortDescStable(norm, c);
    assert norm[i] == c;
    forall j | 0 <= j < |norm| && DatedDefinitive(norm[j])
      ensures Conf(norm[j]) <= Conf(norm[i])
    {
      var m := InMultiset(norm, ranked, j);
      BestDefinitiveDominates(ranked, m);
    }
    // An earlier dated definitive candidate as confident as `c` would tie with it.
    assert forall j :: 0 <= j < i ==> !(SameScore(norm[j], c) && norm[j].date.Some?);
  }

  /** The promoted date, if any. */
  function Promoted(candidates: seq<RawCandidate>, minConfidence: real): Option<CA.Date> {
    Resolve(candidates, minConfidence).0
  }

  /**
   * Promotion happens exactly when some dated definitive candidate reaches
   * the threshold.
   */
  lemma PromotionIff(candidates: seq<RawCandidate>, minConfidence: real)
    ensures Promoted(candidates, minConfidence).Some? <==>
      exists i :: 0 <= i < |candidates| && DatedDefinitive(NormalizeCandidate(candidates[i]))
                  && Conf(NormalizeCandidate(candidates[i])) >= minConfidence
  {
    if candidates != [] {
      var norm := Normalized(candidates);
      var ranked := SortDesc(norm);
      if i :| 0 <= i < |candidates| && DatedDefinitive(norm[i]) && Conf(norm[i]) >= minConfidence {
        PromoteFromSome(norm, ranked, minConfidence, i);
      }
      if PromoteFrom(ranked, minConfidence).Some? {
        var i := PromoteFromBest(norm, ranked, minConfidence);
      }
    }
  }

  /**
   * Candidate `i` is dated and definitive, supplies `date`, meets the
   * threshold, is the most confident of the dated definitive candidates and
   * the earliest of them in input order with that confidence.
   */
  predicate FirstBestAt(candidates: seq<RawCandidate>, minConfidence: real, date: Option<CA.Date>, i: int) {
    && 0 <= i < |candidates| && DatedDefinitive(NormalizeCandidate(candidates[i]))
    && NormalizeCandidate(candidates[i]).date == date
    && Conf(NormalizeCandidate(candidates[i])) >= minConfidence
    && (forall j :: 0 <= j < |candidates| && DatedDefinitive(NormalizeCandidate(candidates[j]))
         ==> Conf(NormalizeCandidate(candidates[j])) <= Conf(NormalizeCandidate(candidates[i])))
    && forall j :: 0 <= j < i && DatedDefinitive(NormalizeCandidate(candidates[j]))
         ==> Conf(NormalizeCandidate(candidates[j])) < Conf(NormalizeCandidate(candidates[i]))
  }

  /**
   * A promoted date comes from a dated definitive candidate whose confidence
   * meets the threshold and is the highest among the dated definitive ones;
   * on a tie it is the earliest of them in input order.
   */
  lemma PromotedIsBestDefinitive(candidates: seq<RawCandidate>, minConfidence: real)
    requires Promoted(candidates, minConfidence).Some?
    ensures exists i :: FirstBestAt(candidates, minConfidence, Promoted(candidates, minConfidence), i)
  {
    var norm := Normalized(candidates);
    assert Promoted(candidates, minConfidence) == PromoteFrom(SortDesc(norm), minConfidence);
    var i := PromoteFromFirstBest(norm, minConfidence);
    var best := NormalizeCandidate(candidates[i]);
    assert best == norm[i];
    assert forall j :: 0 <= j < |candidates| && DatedDefinitive(NormalizeCandidate(candidates[j]))
             ==> Conf(NormalizeCandidate(candidates[j])) <= Conf(best) by {
      forall j | 0 <= j < |candidates| && DatedDefinitive(NormalizeCandidate(candidates[j]))
        ensures Conf(NormalizeCandidate(candidates[j])) <= Conf(best)
      {
        assert norm[j] == NormalizeCandidate(candidates[j]);
      }
    }
    assert forall j :: 0 <= j < i && DatedDefinitive(NormalizeCandidate(candidates[j]))
             ==> Conf(NormalizeCandidate(candidates[j])) < Conf(best) by {
      forall j | 0 <= j < i && DatedDefinitive(NormalizeCandidate(candidates[j]))
        ensures Conf(NormalizeCandidate(candidates[j])) < Conf(best)
      {
        assert norm[j] == NormalizeCandidate(candidates[j]);
      }
    }
    assert FirstBestAt(candidates, minConfidence, Promoted(candidates, minConfidence), i);
  }

  /** Estimated, window and relative candidates are never promoted, however confident. */
  lemma OnlyDefinitivePromoted(candidates: seq<RawCandidate>, minConfidence: real)
    requires forall i :: 0 <= i < |candidates| ==> NormKind(candidates[i].kind) != Definitive
    ensures Promoted(candidates, minConfidence) == None
  {
    PromotionIff(candidates, minConfidence);
  }

  // -------------------------------------------------------------------
  // Display
  // -------------------------------------------------------------------

  /** The parts of the display text; number formatting is left abstract. */
  datatype Display = Display(base: string, via: Option<string>, confidence: Option<real>)

  function Meta(rec: Candidate, base: string): Display {
    Display(base, if Truthy(rec.via) then rec.via else None, rec.confidence)
  }

  /** `format_estimate_for_display` on an extras patch: which text it shows, if any. */
  function DisplayFor(extras: Patch): (r: Option<Display>)
    ensures r.None? <==>
      extras.EmptyPatch? || (var c := extras.recommendation;
        c.date.None? && !(c.startDate.Some? && c.endDate.Some?) && !Truthy(c.qualifier))
    ensures r.Some? && extras.recommendation.date.Some? ==> r.value.base == CA.IsoFormat(extras.recommendation.date.value)
    ensures r.Some? && extras.recommendation.date.None? && extras.recommendation.startDate.Some? && extras.recommendation.endDate.Some?
      ==> r.value.base == (if Truthy(extras.recommendation.qualifier) then extras.recommendation.qualifier.value else "window")
    ensures r.Some? && extras.recommendation.date.None? && !(extras.recommendation.startDate.Some? && extras.recommendation.endDate.Some?)
      ==> r.value.base == extras.recommendation.qualifier.value
    ensures r.Some? ==> r.value.confidence == extras.recommendation.confidence
    ensures r.Some? ==> (r.value.via.Some? <==> Truthy(extras.recommendation.via))
  {
    if extras.EmptyPatch? then None
    else
      var c := extras.recommendation;
      if c.date.Some? then Some(Meta(c, CA.IsoFormat(c.date.value)))
      else if c.startDate.Some? && c.endDate.Some? then Some(Meta(c, if Truthy(c.qualifier) then c.qualifier.value else "window"))
      else if Truthy(c.qualifier) then Some(Meta(c, c.qualifier.value))
      else None
  }

  /** Nothing is displayed for an empty candidate list. */
  lemma NoCandidatesNoDisplay(minConfidence: real)
    ensures DisplayFor(Resolve([], minConfidence).1) == None
  {
  }
}
