/**
 Hybrid logical clocks (internal/hlc/clock.go). A wall-clock reading that the source takes inside
 a critical section is a parameter `wall` here.
 */
module HybridClock {
  import opened Basics

  datatype Hlc = Hlc(physical: int, logical: int, node: string) {

    predicate HappensBefore(other: Hlc) {
      || physical < other.physical
      || (physical == other.physical && logical < other.logical)
    }

    predicate HappensAfter(other: Hlc) {
      other.HappensBefore(this)
    }

    /** The source's `Equal` ignores the node. */
    predicate Equal(other: Hlc) {
      physical == other.physical && logical == other.logical
    }

    function Age(now: int): int {
      if now > physical then now - physical else 0
    }
  }

  // ---------------------------------------------------------------- Go's order on strings

  predicate StringLess(a: string, b: string) {
    if b == "" then false
    else if a == "" then true
    else a[0] < b[0] || (a[0] == b[0] && StringLess(a[1..], b[1..]))
  }

  /** `a` and `b` agree up to position `k`, where `a` has the smaller character. */
  ghost predicate SmallerAt(a: string, b: string, k: nat) {
    k < |a| && k < |b| && a[..k] == b[..k] && a[k] < b[k]
  }

  /** The order is the lexicographic one: a proper prefix comes first, and otherwise the first
      difference decides (`<` on sequences is "proper prefix of"). */
  lemma {:induction false} StringLessExactly(a: string, b: string)
    ensures StringLess(a, b) <==> a < b || exists k: nat :: SmallerAt(a, b, k)
  {
    if a != "" && b != "" && a[0] == b[0] {
      StringLessExactly(a[1..], b[1..]);
      assert a == [a[0]] + a[1..] && b == [b[0]] + b[1..];
      assert a < b <==> a[1..] < b[1..];
      if k: nat :| SmallerAt(a[1..], b[1..], k) { assert SmallerAt(a, b, k + 1); }
      if k: nat :| SmallerAt(a, b, k) {
        assert a[..k][1..] == b[..k][1..];
        assert a[1..][..k - 1] == a[..k][1..] && b[1..][..k - 1] == b[..k][1..];
        assert SmallerAt(a[1..], b[1..], k - 1);
      }
    } else if a != "" && b != "" && a[0] < b[0] {
      assert SmallerAt(a, b, 0);
    } else if a != "" && b != "" {
      forall k: nat ensures !SmallerAt(a, b, k) {
        if 0 < k <= |a| && k <= |b| { assert a[..k][0] == a[0] && b[..k][0] == b[0]; }
      }
    }
  }

  lemma {:induction false} StringLessIrreflexive(a: string)
    ensures !StringLess(a, a)
  {
    if a != "" { StringLessIrreflexive(a[1..]); }
  }

  lemma {:induction false} StringLessTransitive(a: string, b: string, c: string)
    requires StringLess(a, b) && StringLess(b, c)
    ensures StringLess(a, c)
  {
    if a != "" && a[0] == b[0] == c[0] {
      StringLessTransitive(a[1..], b[1..], c[1..]);
    }
  }

  lemma {:induction false} StringLessTotal(a: string, b: string)
    ensures a == b || StringLess(a, b) || StringLess(b, a)
  {
    if a != "" && b != "" && a[0] == b[0] {
      StringLessTotal(a[1..], b[1..]);
      assert a == [a[0]] + a[1..] && b == [b[0]] + b[1..];
    }
  }

  // ---------------------------------------------------------------- the clock

  datatype ClockState = ClockState(physical: int, logical: int, node: string, maxDrift: int) {
    function Reading(): Hlc {
      Hlc(physical, logical, node)
    }
  }

  /** `Now`: the new reading is the stamp handed out. It lies strictly after every earlier reading
      of this clock, whatever the wall clock did, and is never behind the wall. */
  function Ticked(c: ClockState, wall: int): (r: ClockState)
    ensures c.Reading().HappensBefore(r.Reading())
    ensures r.physical == Max(c.physical, wall)
    ensures r.node == c.node && r.maxDrift == c.maxDrift
    ensures r.logical == if r.physical == c.physical then c.logical + 1 else 0
  {
    if wall > c.physical then c.(physical := wall, logical := 0)
    else c.(logical := c.logical + 1)
  }

  /** `Update`, with `None` for the drift error. An accepted update moves the clock strictly past
      both the remote stamp and its own last reading, by the smallest possible logical step. */
  function Merged(c: ClockState, remote: Hlc, wall: int): (r: Option<ClockState>)
    ensures r.None? <==> remote.physical > wall + c.maxDrift
    ensures r.Some? ==> r.value.Reading().HappensAfter(remote)
    ensures r.Some? ==> r.value.Reading().HappensAfter(c.Reading())
    ensures r.Some? ==> r.value.node == c.node && r.value.maxDrift == c.maxDrift
    ensures r.Some? ==> r.value.physical == Max(wall, Max(c.physical, remote.physical))
    ensures r.Some? && wall > Max(c.physical, remote.physical) ==> r.value.logical == 0
    ensures r.Some? && wall <= Max(c.physical, remote.physical) ==>
              || (r.value.physical == c.physical && r.value.logical == c.logical + 1)
              || (r.value.physical == remote.physical && r.value.logical == remote.logical + 1)
  {
    if remote.physical - wall > c.maxDrift then None
    else
      var joined :=
        if remote.physical > c.physical then
          c.(physical := remote.physical, logical := remote.logical + 1)
        else if remote.physical == c.physical then
          if remote.logical > c.logical then c.(logical := remote.logical + 1)
          else c.(logical := c.logical + 1)
        else c.(logical := c.logical + 1);
      Some(if wall > joined.physical then joined.(physical := wall, logical := 0) else joined)
  }

  /** The mutex-guarded clock object. */
  class Clock {
    var physical: int
    var logical: int
    const nodeId: string
    const maxDrift: int

    function State(): ClockState
      reads this
    {
      ClockState(physical, logical, nodeId, maxDrift)
    }

    constructor (nodeId: string, maxDrift: int, wall: int)
      ensures State() == ClockState(wall, 0, nodeId, maxDrift)
    {
      physical := wall;
      logical := 0;
      this.nodeId := nodeId;
      this.maxDrift := maxDrift;
    }

    method Now(wall: int) returns (stamp: Hlc)
      modifies this
      ensures State() == Ticked(old(State()), wall)
      ensures stamp == State().Reading()
    {
      if wall > physical {
        physical := wall;
        logical := 0;
      } else {
        logical := logical + 1;
      }
      stamp := Hlc(physical, logical, nodeId);
    }

    method Update(remote: Hlc, wall: int) returns (accepted: bool)
      modifies this
      ensures var m := Merged(old(State()), remote, wall);
              && accepted == m.Some?
              && State() == if m.Some? then m.value else old(State())
    {
      var drift := remote.physical - wall;
      if drift > maxDrift {
        return false;
      }
      if remote.physical > physical {
        physical := remote.physical;
        logical := remote.logical + 1;
      } else if remote.physical == physical {
        if remote.logical > logical {
          logical := remote.logical + 1;
        } else {
          logical := logical + 1;
        }
      } else {
        logical := logical + 1;
      }
      if wall > physical {
        physical := wall;
        logical := 0;
      }
      return true;
    }
  }
}
