/** Waiting for something with a deadline (`supervisor/readiness.py`). */
module Readiness {
  import opened Prelude

  /** The event loop's clock. Awaiting anything may let time pass; a sleep lasts at least as long
      as asked, and `asked` records what was. */
  class Clock {
    var now: real
    ghost var asked: seq<real>

    constructor ()
      ensures asked == []
    {
      asked := [];
    }

    method Pass()
      modifies this`now
      ensures now >= old(now)
    {
      var elapsed: real :| elapsed >= 0.0;
      now := now + elapsed;
    }

    /** Awaiting something for at least this long, without a sleep. */
    method PassAtLeast(seconds: real)
      modifies this`now
      ensures now >= old(now) && now >= old(now) + seconds
    {
      var late: real :| late >= 0.0;
      now := now + (if seconds > 0.0 then seconds else 0.0) + late;
    }

    method Sleep(seconds: real)
      modifies this
      ensures now >= old(now) && now >= old(now) + seconds
      ensures asked == old(asked) + [seconds]
    {
      PassAtLeast(seconds);
      asked := asked + [seconds];
    }
  }

  /** The sleeps asked for since `before` were `count`, each of exactly this length. */
  ghost predicate Slept(before: seq<real>, after: seq<real>, count: int, seconds: real) {
    |after| == |before| + count && before <= after && forall k :: |before| <= k < |after| ==> after[k] == seconds
  }

  /** `answer(k)` is what the k-th call of the predicate says. The predicate is called at least
      once and at most ceil(timeout / interval) + 1 times; the result is the last answer and every
      earlier one was false; giving up happens only at or past the deadline; and between two calls
      there is one sleep, of an interval at most. */
  method PollUntil(clock: Clock, answer: nat -> bool, timeout: real, interval: real)
    returns (ready: bool, calls: nat)
    requires interval > 0.0
    modifies clock
    ensures 1 <= calls <= Ticks(timeout, interval) + 1
    ensures ready == answer(calls - 1)
    ensures forall k :: 0 <= k < calls - 1 ==> !answer(k)
    ensures !ready ==> clock.now >= old(clock.now) + timeout
    ensures |clock.asked| == |old(clock.asked)| + calls - 1
    ensures forall k :: |old(clock.asked)| <= k < |clock.asked| ==> 0.0 <= clock.asked[k] <= interval
  {
    var deadline := clock.now + timeout;
    assert deadline - clock.now == timeout;
    calls := 0;
    while true
      invariant deadline == old(clock.now) + timeout
      invariant forall k :: 0 <= k < calls ==> !answer(k)
      invariant calls + Ticks(deadline - clock.now, interval) <= Ticks(timeout, interval)
      invariant |clock.asked| == |old(clock.asked)| + calls
      invariant forall k :: |old(clock.asked)| <= k < |clock.asked| ==> 0.0 <= clock.asked[k] <= interval
      decreases Ticks(timeout, interval) - calls
    {
      ghost var head := clock.now;
      calls := calls + 1;
      ready := answer(calls - 1);
      clock.Pass();
      if ready {
        return;
      }
      if clock.now >= deadline {
        return;
      }
      ghost var checked := clock.now;
      clock.Pass();
      clock.Sleep(Min(interval, Max(0.0, deadline - clock.now)));
      OneTick(deadline, head, checked, clock.now, interval);
    }
  }

  /** A turn that found the deadline still ahead, and then slept, has used up a tick. */
  lemma OneTick(deadline: real, head: real, checked: real, after: real, interval: real)
    requires interval > 0.0 && head <= checked < deadline
    requires after >= deadline || after >= checked + interval
    ensures Ticks(deadline - after, interval) < Ticks(deadline - head, interval)
  {
    if after < deadline {
      TicksOrder(deadline - after, deadline - head, interval);
    }
  }
}
