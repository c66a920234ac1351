/** One tick of the controller (internal/adaptive/adjuster.go). */
module Adjuster {
  import opened Basics
  import opened Ring
  import opened MetricWindows
  import opened Score
  import opened Quorums

  datatype Thresholds = Thresholds(relax: real, tighten: real)

  datatype Direction = Relax | Hold | Tighten

  function Decide(th: Thresholds, score: real): Direction {
    if score < th.relax then Relax else if score > th.tighten then Tighten else Hold
  }

  /** The times of a tick: when the ticker fired, and the clock readings of the lockout test, of the
      one inside SetQuorum, and of the stamp. */
  datatype Times = Times(fired: int, now: int, check: int, stamp: int)

  function Target(q: Quorum, d: Direction): (int, int) {
    match d
    case Relax => (q.r + 1, q.w - 1)
    case Tighten => (q.r - 1, q.w + 1)
    case Hold => (q.r, q.w)
  }

  /** Steps 5 to 8 of a tick. */
  function Moved(q: Quorum, l: Limits, d: Direction, t: Times): Quorum {
    if Locked(q, l, t.now) || d.Hold? then q
    else
      var (r, w) := Target(q, d);
      if ValidateError(l, r, w).Some? then q else SetTo(q, l, r, w, t.check, t.stamp)
  }

  /** Which score moves the quorum which way: below the relax threshold W gives one to R, otherwise
      above the tighten threshold R gives one to W, and in between nothing moves. */
  lemma MovesWithScore(q: Quorum, l: Limits, th: Thresholds, score: real, t: Times)
    ensures var q' := Moved(q, l, Decide(th, score), t);
            && (score < th.relax ==> q' == q || q' == Quorum(q.r + 1, q.w - 1, Some(t.stamp)))
            && (score >= th.relax && score > th.tighten ==> q' == q || q' == Quorum(q.r - 1, q.w + 1, Some(t.stamp)))
            && (th.relax <= score <= th.tighten ==> q' == q)
  {
  }

  /** And when: neither reading of the clock is within the lockout, and the new pair passes the
      validation. */
  lemma MovesExactly(q: Quorum, l: Limits, th: Thresholds, score: real, t: Times)
    ensures var shift := if score < th.relax then 1 else -1;
            Moved(q, l, Decide(th, score), t) != q <==>
            && (score < th.relax || score > th.tighten)
            && !Locked(q, l, t.now) && !Locked(q, l, t.check)
            && q.r + q.w > l.n && l.minR <= q.r + shift <= l.maxR && l.minW <= q.w - shift <= l.maxW
  {
  }

  // ---------------------------------------------------------------- the objects

  class CcsComputer {
    const rtt: MetricsWindow
    const success: MetricsWindow
    const variance: MetricsWindow
    const error: MetricsWindow
    const clock: MetricsWindow
    const history: MetricsWindow

    ghost function Objects(): set<object> {
      {rtt, success, variance, error, clock, history, rtt.samples, success.samples, variance.samples, error.samples, clock.samples, history.samples}
    }

    // no two windows share an object
    ghost predicate Distinct() {
      && rtt != success && rtt != variance && rtt != error && rtt != clock && rtt != history
      && success != variance && success != error && success != clock && success != history
      && variance != error && variance != clock && variance != history
      && error != clock && error != history && clock != history
      && rtt.samples != success.samples && rtt.samples != variance.samples && rtt.samples != error.samples
      && rtt.samples != clock.samples && rtt.samples != history.samples
      && success.samples != variance.samples && success.samples != error.samples
      && success.samples != clock.samples && success.samples != history.samples
      && variance.samples != error.samples && variance.samples != clock.samples && variance.samples != history.samples
      && error.samples != clock.samples && error.samples != history.samples && clock.samples != history.samples
    }

    ghost predicate Valid()
      reads Objects()
    {
      && Distinct()
      && rtt.Valid() && success.Valid() && variance.Valid() && error.Valid() && clock.Valid() && history.Valid()
      && rtt.size == success.size == variance.size == error.size == clock.size == history.size == WINDOW
    }

    ghost function State(): (c: Windows)
      requires Valid()
      reads Objects()
      ensures c.Valid()
    {
      Windows(rtt.State(), success.State(), variance.State(), error.State(), clock.State(), history.State())
    }

    constructor ()
      ensures Valid() && fresh(Objects()) && State() == EMPTY_WINDOWS
    {
      rtt := new MetricsWindow(10);
      success := new MetricsWindow(10);
      variance := new MetricsWindow(10);
      error := new MetricsWindow(10);
      clock := new MetricsWindow(10);
      history := new MetricsWindow(10);
    }

    method RecordMetrics(x: Sample)
      requires Valid()
      modifies Objects()
      ensures Valid() && State() == Recorded(old(State()), x)
    {
      AddToNetwork(x);
      AddToFaults(x);
    }

    /** The first three of the five windows. */
    method AddToNetwork(x: Sample)
      requires Valid()
      modifies rtt, rtt.samples, success, success.samples, variance, variance.samples
      ensures Valid()
      ensures var c := old(State());
              State() == c.(rtt := Pushed(c.rtt, x.rtt), success := Pushed(c.success, x.success), variance := Pushed(c.variance, x.variance))
    {
      rtt.Add(x.rtt);
      success.Add(x.success);
      variance.Add(x.variance);
    }

    /** The other two. */
    method AddToFaults(x: Sample)
      requires Valid()
      modifies error, error.samples, clock, clock.samples
      ensures Valid()
      ensures var c := old(State()); State() == c.(error := Pushed(c.error, x.error), clock := Pushed(c.clock, x.clock))
    {
      error.Add(x.error);
      clock.Add(x.clock);
    }

    method AddToHistory(ccs: real)
      requires Valid()
      modifies history, history.samples
      ensures Valid()
      ensures var c := old(State()); State() == c.(history := Pushed(c.history, ccs))
    {
      history.Add(ccs);
    }

    method GetSmoothed() returns (score: real)
      requires Valid()
      ensures score == Smoothed(State())
    {
      score := history.GetAverage();
    }

    method ComputeCcs() returns (ccs: real, components: Components)
      requires Valid()
      ensures ccs == RawScore(State()) && components == ComponentsOf(Averages(State()))
      ensures ccs == 0.20 * components.rtt + 0.40 * components.avail + 0.15 * components.variance + 0.15 * components.error + 0.10 * components.clock
    {
      var avgRtt := rtt.GetAverage();
      var successRate := success.GetAverage();
      var avgVariance := variance.GetAverage();
      var errorRate := error.GetAverage();
      var clockDrift := clock.GetAverage();
      var rttHealth := 1.0 - RealMin(avgRtt / 0.2, 1.0);
      var availHealth := successRate;
      var varHealth := 1.0 - RealMin(avgVariance / 0.0025, 1.0);
      var errorHealth := 1.0 - errorRate;
      var clockHealth := 1.0 - RealMin(clockDrift / 0.1, 1.0);
      ccs := 0.20 * rttHealth + 0.40 * availHealth + 0.15 * varHealth + 0.15 * errorHealth + 0.10 * clockHealth;
      components := Components(rttHealth, availHealth, varHealth, errorHealth, clockHealth);
    }

    /** Record, score, remember the score, smooth. */
    method Observe(x: Sample) returns (smoothed: real)
      requires Valid()
      modifies Objects()
      ensures Valid() && State() == Observed(old(State()), x) && smoothed == Smoothed(State())
    {
      RecordMetrics(x);
      var raw, _ := ComputeCcs();
      AddToHistory(raw);
      smoothed := GetSmoothed();
    }
  }

  class Adjuster {
    const quorum: AdaptiveQuorum
    const ccs: CcsComputer
    const thresholds: Thresholds

    constructor (quorum: AdaptiveQuorum, ccs: CcsComputer, thresholds: Thresholds)
      ensures this.quorum == quorum && this.ccs == ccs && this.thresholds == thresholds
    {
      this.quorum := quorum;
      this.ccs := ccs;
      this.thresholds := thresholds;
    }

    /** A whole tick: score the cluster, then move the quorum by at most one. */
    method AdjustQuorum(x: Sample, t: Times) returns (adjusted: bool)
      requires ccs.Valid()
      modifies quorum, ccs.Objects()
      ensures ccs.Valid() && ccs.State() == Observed(old(ccs.State()), x)
      ensures quorum.State() == Moved(old(quorum.State()), quorum.limits, Decide(thresholds, Smoothed(ccs.State())), t)
      ensures adjusted <==> quorum.State() != old(quorum.State())
      ensures var smoothed := Smoothed(ccs.State());
              adjusted ==>
                if smoothed < thresholds.relax then
                  quorum.currentR == old(quorum.currentR) + 1 && quorum.currentW == old(quorum.currentW) - 1
                else
                  && smoothed > thresholds.tighten
                  && quorum.currentR == old(quorum.currentR) - 1 && quorum.currentW == old(quorum.currentW) + 1
    {
      var smoothed := ccs.Observe(x);
      MovesWithScore(quorum.State(), quorum.limits, thresholds, smoothed, t);
      adjusted := Apply(smoothed, t);
    }

    method Apply(smoothed: real, t: Times) returns (adjusted: bool)
      modifies quorum
      ensures quorum.State() == Moved(old(quorum.State()), quorum.limits, Decide(thresholds, smoothed), t)
      ensures adjusted <==> quorum.State() != old(quorum.State())
    {
      var currentR, currentW := quorum.currentR, quorum.currentW;
      var locked := quorum.IsInLockout(t.now);
      if locked {
        return false;
      }
      var newR, newW;
      if smoothed < thresholds.relax {
        newW := currentW - 1;
        newR := currentR + 1;
      } else if smoothed > thresholds.tighten {
        newW := currentW + 1;
        newR := currentR - 1;
      } else {
        return false;
      }
      var invalid := quorum.Validate(newR, newW);
      if invalid.Some? {
        return false;
      }
      var e := quorum.SetQuorum(newR, newW, t.check, t.stamp);
      return e.None?;
    }
  }
}
