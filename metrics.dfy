/**
 * The effective-date enrichment counters: one `record` per processed action,
 * and a summary with two rates. Rates are exact reals; the summary's rounding
 * to four decimals is not modelled.
 */
module EnrichmentMetrics {

  /** The five counters. */
  datatype Counters = Counters(processed: int, definitive: int, estimated: int, promoted: int, followupUsed: int)

  /** The flags of one `record` call. */
  datatype Event = Event(effectiveDate: bool, hadEstimate: bool, promoted: bool, followupUsed: bool)

  const Zero := Counters(0, 0, 0, 0, 0)

  /** The counters `record` leaves after one event. */
  function Step(c: Counters, e: Event): (r: Counters)
    ensures r.processed == c.processed + 1
    ensures r.definitive == c.definitive + (if e.effectiveDate then 1 else 0)
    ensures r.estimated == c.estimated + (if e.hadEstimate && !e.effectiveDate then 1 else 0)
    ensures r.promoted == c.promoted + (if e.promoted then 1 else 0)
    ensures r.followupUsed == c.followupUsed + (if e.followupUsed then 1 else 0)
  {
    Counters(
      c.processed + 1,
      if e.effectiveDate then c.definitive + 1 else c.definitive,
      if e.hadEstimate && !e.effectiveDate then c.estimated + 1 else c.estimated,
      if e.promoted then c.promoted + 1 else c.promoted,
      if e.followupUsed then c.followupUsed + 1 else c.followupUsed)
  }

  /** The counters after recording the given events from zero. */
  function Replay(events: seq<Event>): Counters {
    if events == [] then Zero else Step(Replay(events[..|events| - 1]), events[|events| - 1])
  }

  /** Every counter lies between zero and `processed`, and so do definitive plus estimated. */
  predicate Bounded(c: Counters) {
    && 0 <= c.definitive && 0 <= c.estimated && 0 <= c.promoted && 0 <= c.followupUsed
    && c.definitive + c.estimated <= c.processed
    && c.promoted <= c.processed && c.followupUsed <= c.processed
  }

  /** `record` keeps the counters bounded. */
  lemma StepBounded(c: Counters, e: Event)
    requires Bounded(c)
    ensures Bounded(Step(c, e))
  {
  }

  predicate Definitive(e: Event) { e.effectiveDate }
  predicate EstimatedOnly(e: Event) { e.hadEstimate && !e.effectiveDate }
  predicate Promoted(e: Event) { e.promoted }
  predicate FollowupUsed(e: Event) { e.followupUsed }

  /** The number of events satisfying a flag. */
  function CountIf(events: seq<Event>, flag: Event -> bool): (n: nat)
    ensures n <= |events|
  {
    if events == [] then 0
    else CountIf(events[..|events| - 1], flag) + (if flag(events[|events| - 1]) then 1 else 0)
  }

  /**
   * After any sequence of events, `processed` is their number and each
   * other counter is the number of events its condition holds for.
   */
  lemma {:induction false} ReplayCounts(events: seq<Event>)
    ensures var c := Replay(events);
      && c.processed == |events|
      && c.definitive == CountIf(events, Definitive)
      && c.estimated == CountIf(events, EstimatedOnly)
      && c.promoted == CountIf(events, Promoted)
      && c.followupUsed == CountIf(events, FollowupUsed)
  {
    if events != [] {
      ReplayCounts(events[..|events| - 1]);
    }
  }

  /** Counters reached by recording events are bounded. */
  lemma {:induction false} ReplayBounded(events: seq<Event>)
    ensures Bounded(Replay(events))
  {
    if events != [] {
      ReplayBounded(events[..|events| - 1]);
      StepBounded(Replay(events[..|events| - 1]), events[|events| - 1]);
    }
  }

  /**
   * Dividing by a positive total and multiplying back gives the count, and two
   * ordered counts within the total give ordered rates within [0, 1].
   */
  lemma Rates(a: int, b: int, p: int)
    requires 1 <= p
    ensures (a as real / p as real) * p as real == a as real
    ensures (b as real / p as real) * p as real == b as real
    ensures 0 <= a <= b <= p ==> 0.0 <= a as real / p as real <= b as real / p as real <= 1.0
  {
    var q := p as real;
    if 0 <= a <= b <= p {
      assert a as real / q <= b as real / q by {
        assert (b as real - a as real) / q >= 0.0;
      }
      assert b as real / q <= q / q;
    }
  }

  /** The summary: the counters and the two rates. */
  datatype Summary = Summary(counters: Counters, fillRate: real, estOrDefRate: real)

  /** `summary`: both rates divide by `max(processed, 1)`. */
  function SummaryOf(c: Counters): (s: Summary)
    ensures s.counters == c
    ensures var p := if c.processed >= 1 then c.processed else 1;
      s.fillRate * p as real == c.definitive as real
      && s.estOrDefRate * p as real == (c.definitive + c.estimated) as real
    ensures Bounded(c) ==> 0.0 <= s.fillRate <= s.estOrDefRate <= 1.0
  {
    var p := if c.processed >= 1 then c.processed else 1;
    Rates(c.definitive, c.definitive + c.estimated, p);
    Summary(c, c.definitive as real / p as real, (c.definitive + c.estimated) as real / p as real)
  }

  /** The recorded scenario of the unit test: four events give 4, 2, 1, 1, 2 and rates 0.5 and 0.75. */
  lemma FourEventScenario()
    ensures var c := Replay([Event(true, true, false, false), Event(false, true, false, true),
                             Event(true, true, true, true), Event(false, false, false, false)]);
      c == Counters(4, 2, 1, 1, 2) && SummaryOf(c).fillRate == 0.5 && SummaryOf(c).estOrDefRate == 0.75
  {
    var es := [Event(true, true, false, false), Event(false, true, false, true),
               Event(true, true, true, true), Event(false, false, false, false)];
    assert es[..1][..0] == [] && es[..2][..1] == es[..1] && es[..3][..2] == es[..2] && es[..3] == es[..|es| - 1];
    assert Replay(es[..1]) == Counters(1, 1, 0, 0, 0);
    assert Replay(es[..2]) == Counters(2, 1, 1, 0, 1);
    assert Replay(es[..3]) == Counters(3, 2, 1, 1, 2);
  }

  /** `Metrics`: the counters, updated in place by `record`. */
  class Metrics {
    var processed: int
    var definitive: int
    var estimated: int
    var promoted: int
    var followupUsed: int

    function State(): Counters
      reads this
    {
      Counters(processed, definitive, estimated, promoted, followupUsed)
    }

    ghost predicate Valid()
      reads this
    {
      Bounded(State())
    }

    constructor ()
      ensures State() == Zero && Valid()
    {
      processed := 0;
      definitive := 0;
      estimated := 0;
      promoted := 0;
      followupUsed := 0;
    }

    /** `record`: one more processed action, and one more in each counter whose condition holds. */
    method Record(effectiveDate: bool, hadEstimate: bool, promoted: bool, followupUsed: bool)
      requires Valid()
      modifies this
      ensures Valid()
      ensures State() == Step(old(State()), Event(effectiveDate, hadEstimate, promoted, followupUsed))
    {
      StepBounded(State(), Event(effectiveDate, hadEstimate, promoted, followupUsed));
      this.processed := this.processed + 1;
      if effectiveDate {
        this.definitive := this.definitive + 1;
      }
      if hadEstimate && !effectiveDate {
        this.estimated := this.estimated + 1;
      }
      if promoted {
        this.promoted := this.promoted + 1;
      }
      if followupUsed {
        this.followupUsed := this.followupUsed + 1;
      }
    }

    /** `summary`: computed from the counters, which it does not change. */
    method Summarize() returns (s: Summary)
      requires Valid()
      ensures s == SummaryOf(State())
      ensures 0.0 <= s.fillRate <= s.estOrDefRate <= 1.0
    {
      var p := if processed >= 1 then processed else 1;
      s := Summary(State(), definitive as real / p as real, (definitive + estimated) as real / p as real);
    }
  }
}
