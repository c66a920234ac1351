/** The staleness detector (internal/staleness/detector.go). */
module Staleness {
  import opened HybridClock

  /** A stamp is fresh exactly when its physical part is no older than `now - maxAge`, and no
      stamp at all is fresh for a negative bound. */
  predicate IsStale(stamp: Hlc, maxAge: int, now: int): (stale: bool)
    ensures !stale <==> 0 <= maxAge && now - maxAge <= stamp.physical
  {
    stamp.Age(now) > maxAge
  }

  class Detector {
    const maxAge: int
    var staleReadsRejected: nat
    var stalenessViolations: nat

    constructor (maxAge: int)
      ensures this.maxAge == maxAge && staleReadsRejected == stalenessViolations == 0
    {
      this.maxAge := maxAge;
      staleReadsRejected := 0;
      stalenessViolations := 0;
    }

    method CheckStrict(stamp: Hlc, now: int) returns (rejected: bool)
      modifies this
      ensures rejected == IsStale(stamp, maxAge, now)
      ensures staleReadsRejected == old(staleReadsRejected) + if rejected then 1 else 0
      ensures stalenessViolations == old(stalenessViolations) + if rejected then 1 else 0
    {
      var age := stamp.Age(now);
      rejected := age > maxAge;
      if rejected {
        staleReadsRejected := staleReadsRejected + 1;
        stalenessViolations := stalenessViolations + 1;
      }
    }
  }
}
