/** The adaptive quorum and its configuration (internal/adaptive/quorum.go, internal/config/config.go). */
module Quorums {
  import opened Basics

  // ---------------------------------------------------------------- static configuration

  datatype ConfigError = NoNodeId | TooFewNodes | BadR | BadW | NoIntersection

  datatype NodeConfig = NodeConfig(nodeId: string, n: int, r: int, w: int)

  /** `Config.Validate`: accepted configurations have overlapping quorums of sensible size. */
  function ValidateConfig(c: NodeConfig): (e: Option<ConfigError>)
    ensures e.None? <==> c.nodeId != "" && 3 <= c.n && 1 <= c.r <= c.n && 1 <= c.w <= c.n && c.n < c.r + c.w
    ensures e == Some(NoNodeId) <==> c.nodeId == ""
    ensures e == Some(TooFewNodes) <==> c.nodeId != "" && c.n < 3
    ensures e == Some(BadR) <==> c.nodeId != "" && 3 <= c.n && !(1 <= c.r <= c.n)
    ensures e == Some(BadW) <==> c.nodeId != "" && 3 <= c.n && 1 <= c.r <= c.n && !(1 <= c.w <= c.n)
  {
    if c.nodeId == "" then Some(NoNodeId)
    else if c.n < 3 then Some(TooFewNodes)
    else if c.r < 1 || c.r > c.n then Some(BadR)
    else if c.w < 1 || c.w > c.n then Some(BadW)
    else if c.r + c.w <= c.n then Some(NoIntersection)
    else None
  }

  // ---------------------------------------------------------------- the quorum

  datatype Limits = Limits(n: int, minR: int, maxR: int, minW: int, maxW: int, lockout: int)

  /** `last` is the time of the last adjustment; before the first one there is no lockout. */
  datatype Quorum = Quorum(r: int, w: int, last: Option<int>)

  datatype QuorumError = InLockout | Intersection | ROutOfBounds | WOutOfBounds

  predicate Locked(q: Quorum, l: Limits, now: int) {
    q.last.Some? && now - q.last.value < l.lockout
  }

  predicate InBounds(l: Limits, r: int, w: int) {
    l.minR <= r <= l.maxR && l.minW <= w <= l.maxW
  }

  function ValidateError(l: Limits, r: int, w: int): (e: Option<QuorumError>)
    ensures e.None? <==> r + w > l.n && l.minR <= r <= l.maxR && l.minW <= w <= l.maxW
    ensures e == Some(Intersection) <==> r + w <= l.n
    ensures e == Some(ROutOfBounds) <==> r + w > l.n && !(l.minR <= r <= l.maxR)
    ensures e != Some(InLockout)
  {
    if r + w <= l.n then Some(Intersection)
    else if r < l.minR || r > l.maxR then Some(ROutOfBounds)
    else if w < l.minW || w > l.maxW then Some(WOutOfBounds)
    else None
  }

  /** `SetQuorum`: reads the clock for the lockout check, and again when it stamps the change. */
  function SetError(q: Quorum, l: Limits, r: int, w: int, check: int): Option<QuorumError> {
    if Locked(q, l, check) then Some(InLockout) else ValidateError(l, r, w)
  }

  function SetTo(q: Quorum, l: Limits, r: int, w: int, check: int, stamp: int): Quorum {
    if SetError(q, l, r, w, check).Some? then q else Quorum(r, w, Some(stamp))
  }

  class AdaptiveQuorum {
    var currentR: int
    var currentW: int
    const limits: Limits
    var lastAdjustTime: Option<int>

    function State(): Quorum
      reads this
    {
      Quorum(currentR, currentW, lastAdjustTime)
    }

    /** The lockout is five seconds, in nanoseconds. */
    constructor (r: int, w: int, n: int, minR: int, maxR: int, minW: int, maxW: int)
      ensures State() == Quorum(r, w, None) && limits == Limits(n, minR, maxR, minW, maxW, 5_000_000_000)
    {
      currentR := r;
      currentW := w;
      limits := Limits(n, minR, maxR, minW, maxW, 5_000_000_000);
      lastAdjustTime := None;
    }

    method IsInLockout(now: int) returns (locked: bool)
      ensures locked == Locked(State(), limits, now)
      ensures locked <==> lastAdjustTime.Some? && now < lastAdjustTime.value + limits.lockout
    {
      if lastAdjustTime.None? {
        return false;
      }
      return now - lastAdjustTime.value < limits.lockout;
    }

    method Validate(r: int, w: int) returns (e: Option<QuorumError>)
      ensures e == ValidateError(limits, r, w)
      ensures e.None? <==> r + w > limits.n && limits.minR <= r <= limits.maxR && limits.minW <= w <= limits.maxW
    {
      if r + w <= limits.n {
        return Some(Intersection);
      }
      if r < limits.minR || r > limits.maxR {
        return Some(ROutOfBounds);
      }
      if w < limits.minW || w > limits.maxW {
        return Some(WOutOfBounds);
      }
      return None;
    }

    method SetQuorum(newR: int, newW: int, check: int, stamp: int) returns (e: Option<QuorumError>)
      modifies this
      ensures e == SetError(old(State()), limits, newR, newW, check)
      ensures State() == SetTo(old(State()), limits, newR, newW, check, stamp)
      ensures e == Some(InLockout) <==> old(lastAdjustTime).Some? && check < old(lastAdjustTime).value + limits.lockout
      ensures e.None? ==> newR + newW > limits.n && State() == Quorum(newR, newW, Some(stamp))
      ensures e.Some? ==> State() == old(State())
    {
      if lastAdjustTime.Some? && check - lastAdjustTime.value < limits.lockout {
        return Some(InLockout);
      }
      if newR + newW <= limits.n {
        return Some(Intersection);
      }
      if newR < limits.minR || newR > limits.maxR {
        return Some(ROutOfBounds);
      }
      if newW < limits.minW || newW > limits.maxW {
        return Some(WOutOfBounds);
      }
      currentR := newR;
      currentW := newW;
      lastAdjustTime := Some(stamp);
      return None;
    }
  }
}
