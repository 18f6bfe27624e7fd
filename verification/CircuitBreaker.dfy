/** The circuit breaker. Admission and the recording of a result are separate
    locked steps, so the steps of overlapping calls interleave freely. */
module CircuitBreaker {
  import opened Wrappers

  datatype State = Closed | Open | HalfOpen

  /** `lastFailTime` is None while it holds the zero time. */
  datatype Breaker = Breaker(maxFailures: int, resetTimeout: int, failures: int, lastFailTime: Option<int>,
                             state: State)

  datatype Step = Admit(now: int) | Record(success: bool, now: int) | Reset

  /** time.Since(last) > timeout; the zero time lies further back than any timeout. */
  predicate Passed(last: Option<int>, timeout: int, now: int) {
    last.None? || now - last.value > timeout
  }

  function Fresh(maxFailures: int, resetTimeout: int): Breaker {
    Breaker(maxFailures, resetTimeout, 0, None, Closed)
  }

  function AfterAdmit(b: Breaker, now: int): (Breaker, bool) {
    match b.state
    case Closed => (b, true)
    case Open => if Passed(b.lastFailTime, b.resetTimeout, now) then (b.(state := HalfOpen), true) else (b, false)
    case HalfOpen => (b, true)
  }

  function AfterRecord(b: Breaker, success: bool, now: int): Breaker {
    if success then b.(failures := 0, state := Closed)
    else
      var failures := b.failures + 1;
      b.(failures := failures, lastFailTime := Some(now), state := if failures >= b.maxFailures then Open else b.state)
  }

  function AfterReset(b: Breaker): Breaker {
    b.(failures := 0, state := Closed, lastFailTime := None)
  }

  function Apply(b: Breaker, step: Step): Breaker {
    match step
    case Admit(now) => AfterAdmit(b, now).0
    case Record(success, now) => AfterRecord(b, success, now)
    case Reset => AfterReset(b)
  }

  function Run(b: Breaker, steps: seq<Step>): Breaker {
    if steps == [] then b else Apply(Run(b, steps[..|steps| - 1]), steps[|steps| - 1])
  }

  // ---------- the simple form ----------

  /** Failures recorded since the last success or reset. */
  function Trailing(steps: seq<Step>): nat {
    if steps == [] then 0
    else
      var front := steps[..|steps| - 1];
      match steps[|steps| - 1]
      case Admit(_) => Trailing(front)
      case Record(success, _) => if success then 0 else Trailing(front) + 1
      case Reset => 0
  }

  /** When a failure was last recorded, unless a reset came after it. */
  function LastFailure(steps: seq<Step>): Option<int> {
    if steps == [] then None
    else
      var front := steps[..|steps| - 1];
      match steps[|steps| - 1]
      case Admit(_) => LastFailure(front)
      case Record(success, now) => if success then LastFailure(front) else Some(now)
      case Reset => None
  }

  /** Admission decided from the history alone. */
  predicate ShouldAdmit(maxFailures: int, resetTimeout: int, steps: seq<Step>, now: int) {
    Trailing(steps) < maxFailures || Passed(LastFailure(steps), resetTimeout, now)
  }

  /** The latest clock reading of a run. */
  function Clock(steps: seq<Step>): Option<int> {
    if steps == [] then None
    else if steps[|steps| - 1].Reset? then Clock(steps[..|steps| - 1])
    else Some(steps[|steps| - 1].now)
  }

  /** The clock never goes back. */
  predicate Ordered(steps: seq<Step>) {
    steps == []
    || var front, last := steps[..|steps| - 1], steps[|steps| - 1];
       Ordered(front) && (last.Reset? || Clock(front).None? || Clock(front).value <= last.now)
  }

  ghost predicate Sound(b: Breaker, clock: Option<int>) {
    && (b.lastFailTime.Some? ==> clock.Some? && b.lastFailTime.value <= clock.value)
    && (b.state == Closed <==> b.failures < b.maxFailures)
    && (b.state != Closed ==> b.lastFailTime.Some?)
    && (b.state == HalfOpen ==> Passed(b.lastFailTime, b.resetTimeout, clock.value))
  }

  /** Whatever the interleaving, the fields follow the history; and with a positive
      failure limit the breaker is closed exactly below it, and half-open only once
      the timeout has passed. */
  lemma {:induction false} RunFollowsHistory(maxFailures: int, resetTimeout: int, steps: seq<Step>)
    requires Ordered(steps)
    ensures var b := Run(Fresh(maxFailures, resetTimeout), steps);
            && b.maxFailures == maxFailures && b.resetTimeout == resetTimeout
            && b.failures == Trailing(steps) && b.lastFailTime == LastFailure(steps)
            && (b.lastFailTime.Some? ==> Clock(steps).Some? && b.lastFailTime.value <= Clock(steps).value)
            && (b.state != Closed ==> b.lastFailTime.Some?)
            && (maxFailures >= 1 ==> Sound(b, Clock(steps)))
  {
    if steps != [] {
      RunFollowsHistory(maxFailures, resetTimeout, steps[..|steps| - 1]);
    }
  }

  /** A call was let in since the last result or reset was recorded, as the history
      decides it. */
  predicate AdmittedSince(maxFailures: int, resetTimeout: int, steps: seq<Step>) {
    if steps == [] || !steps[|steps| - 1].Admit? then false
    else
      var front := steps[..|steps| - 1];
      ShouldAdmit(maxFailures, resetTimeout, front, steps[|steps| - 1].now)
      || AdmittedSince(maxFailures, resetTimeout, front)
  }

  /** With a positive failure limit, whatever the interleaving: the breaker is closed
      exactly below the limit; at it, half-open exactly when a call was let in since
      the last failure was recorded, and open otherwise. */
  lemma {:induction false} StateFollowsHistory(maxFailures: int, resetTimeout: int, steps: seq<Step>)
    requires maxFailures >= 1 && Ordered(steps)
    ensures var b := Run(Fresh(maxFailures, resetTimeout), steps);
            && (b.state == Closed <==> Trailing(steps) < maxFailures)
            && (b.state == HalfOpen <==>
                  Trailing(steps) >= maxFailures && AdmittedSince(maxFailures, resetTimeout, steps))
  {
    if steps != [] {
      var front := steps[..|steps| - 1];
      StateFollowsHistory(maxFailures, resetTimeout, front);
      RunFollowsHistory(maxFailures, resetTimeout, front);
    }
  }

  ghost predicate RefinesOn(maxFailures: int, resetTimeout: int, steps: seq<Step>, now: int) {
    AfterAdmit(Run(Fresh(maxFailures, resetTimeout), steps), now).1
    == ShouldAdmit(maxFailures, resetTimeout, steps, now)
  }

  lemma RefinesWhenGuarded(maxFailures: int, resetTimeout: int, steps: seq<Step>, now: int)
    requires maxFailures >= 1 || resetTimeout < 0
    requires Ordered(steps + [Admit(now)])
    ensures RefinesOn(maxFailures, resetTimeout, steps, now)
  {
    assert (steps + [Admit(now)])[..|steps|] == steps;
    RunFollowsHistory(maxFailures, resetTimeout, steps);
  }

  /** With no failure limit and a real timeout, a success after a failure closes the
      breaker although the limit of zero is still met. */
  lemma DivergesOtherwise(maxFailures: int, resetTimeout: int)
    requires maxFailures <= 0 && resetTimeout >= 0
    ensures var steps := [Record(false, 0), Record(true, 0)];
            Ordered(steps + [Admit(0)]) && !RefinesOn(maxFailures, resetTimeout, steps, 0)
  {
    var first, steps := [Record(false, 0)], [Record(false, 0), Record(true, 0)];
    var all := steps + [Admit(0)];
    assert all[..2] == steps && steps[..1] == first && first[..0] == [];
    assert Ordered(first) && Ordered(steps);
  }

  /** The three-state machine decides admission as the history does, in every
      interleaving, exactly when the failure limit is positive or the timeout is
      negative. */
  lemma RefinesIffGuarded(maxFailures: int, resetTimeout: int)
    ensures (forall steps, now :: Ordered(steps + [Admit(now)]) ==> RefinesOn(maxFailures, resetTimeout, steps, now))
       <==> maxFailures >= 1 || resetTimeout < 0
  {
    if maxFailures >= 1 || resetTimeout < 0 {
      forall steps, now | Ordered(steps + [Admit(now)])
        ensures RefinesOn(maxFailures, resetTimeout, steps, now)
      {
        RefinesWhenGuarded(maxFailures, resetTimeout, steps, now);
      }
    } else {
      DivergesOtherwise(maxFailures, resetTimeout);
    }
  }

  class Circuit {
    const maxFailures: int
    const resetTimeout: int
    var failures: int
    var lastFailTime: Option<int>
    var state: State

    ghost function View(): Breaker
      reads this
    {
      Breaker(maxFailures, resetTimeout, failures, lastFailTime, state)
    }

    constructor (maxFailures: int, resetTimeout: int)
      ensures View() == Fresh(maxFailures, resetTimeout)
    {
      this.maxFailures, this.resetTimeout := maxFailures, resetTimeout;
      failures, lastFailTime, state := 0, None, Closed;
    }

    method AllowRequest(now: int) returns (ok: bool)
      modifies this
      ensures (View(), ok) == AfterAdmit(old(View()), now)
    {
      match state {
        case Closed => return true;
        case Open =>
          if lastFailTime.None? || now - lastFailTime.value > resetTimeout {
            state := HalfOpen;
            return true;
          }
          return false;
        case HalfOpen => return true;
      }
    }

    method RecordResult(success: bool, now: int)
      modifies this
      ensures View() == AfterRecord(old(View()), success, now)
    {
      if success {
        failures := 0;
        state := Closed;
      } else {
        failures := failures + 1;
        lastFailTime := Some(now);
        if failures >= maxFailures {
          state := Open;
        }
      }
    }

    method Reset()
      modifies this
      ensures View() == AfterReset(old(View()))
    {
      failures := 0;
      state := Closed;
      lastFailTime := None;
    }
  }
}
