/** The machine a vLLM process runs on: processes, one port, and GPU memory as `nvidia-smi` tells
    it (`supervisor/gpu.py` and the process calls of `supervisor/backends/vllm.py`). */
module Hosts {
  import opened Prelude
  import opened Readiness

  const VRAM_THRESHOLD_MB: nat := 2048

  /** What was observed or started, in order. */
  datatype Happening =
    | ActivateBegan
    | Probed(inUse: bool)
    | NoSmi
    | VramSeen(gpus: seq<nat>)
    | Spawned(pid: nat)

  datatype Signal = SIGTERM | SIGKILL

  datatype Signalled = Signalled(pid: nat, signal: Signal, delivered: bool)

  /** `live` are the engine processes that are really running; `outlived` those that were still
      running when killing them was given up. */
  class Host {
    const clock: Clock
    var live: set<nat>
    var nextPid: nat
    ghost var outlived: set<nat>
    ghost var trace: seq<Happening>
    ghost var signals: seq<Signalled>

    ghost predicate Valid()
      reads this
    {
      forall p :: p in live ==> p < nextPid
    }

    constructor (clock: Clock)
      ensures Valid() && this.clock == clock && live == {} && outlived == {} && trace == [] && signals == []
    {
      this.clock := clock;
      live, nextPid, outlived, trace, signals := {}, 0, {}, [], [];
    }

    /** Time passes, and processes may end on their own. */
    method Await()
      requires Valid()
      modifies this`live, clock`now
      ensures Valid() && live <= old(live) && clock.now >= old(clock.now)
    {
      clock.Pass();
      var kept: set<nat> :| kept <= live;
      live := kept;
    }

    method PortInUse() returns (inUse: bool)
      requires Valid()
      modifies this`live, this`trace, clock`now
      ensures Valid() && live <= old(live) && clock.now >= old(clock.now)
      ensures trace == old(trace) + [Probed(inUse)]
    {
      Await();
      inUse := *;
      trace := trace + [Probed(inUse)];
    }

    method HasSmi() returns (present: bool)
      modifies this`trace
      ensures trace == old(trace) + if present then [] else [NoSmi]
    {
      present := *;
      if !present {
        trace := trace + [NoSmi];
      }
    }

    /** The used column of `nvidia-smi`, or nothing when the command itself fails. */
    method QueryGpus() returns (used: seq<nat>)
      requires Valid()
      modifies this`live, clock`now
      ensures Valid() && live <= old(live) && clock.now >= old(clock.now)
    {
      Await();
      used := *;
    }

    /** What all the GPUs of one look have in use together; zero when there are none. */
    method TotalMemoryUsed() returns (total: nat, ghost gpus: seq<nat>)
      requires Valid()
      modifies this`live, this`trace, clock`now
      ensures Valid() && live <= old(live) && clock.now >= old(clock.now)
      ensures trace == old(trace) + [VramSeen(gpus)] && total == Sum(gpus)
    {
      var used := QueryGpus();
      gpus := used;
      total := Sum(used);
      trace := trace + [VramSeen(gpus)];
    }

    /** `returncode is not None`: seen to have ended. */
    method HasExited(pid: nat) returns (exited: bool)
      ensures exited ==> pid !in live
    {
      exited := *;
      if pid in live {
        exited := false;
      }
    }

    /** False when the group is gone already, and also when signalling it is not permitted. */
    method SignalGroup(pid: nat, signal: Signal) returns (sent: bool)
      modifies this`signals
      ensures signals == old(signals) + [Signalled(pid, signal, sent)]
    {
      sent := *;
      signals := signals + [Signalled(pid, signal, sent)];
    }

    method WaitExit(pid: nat, timeout: real) returns (exited: bool)
      requires Valid()
      modifies this`live, clock`now
      ensures Valid() && live <= old(live) && clock.now >= old(clock.now)
      ensures if exited then pid !in live else clock.now >= old(clock.now) + timeout
    {
      Await();
      exited := *;
      if pid in live && exited {
        live := live - {pid};
      }
      if !exited {
        clock.PassAtLeast(timeout);
      }
    }

    /** A new process, which may die at once; or none, when the command cannot be started. */
    method Spawn() returns (pid: Option<nat>)
      requires Valid()
      modifies this`live, this`nextPid, this`trace, clock`now
      ensures Valid() && clock.now >= old(clock.now)
      ensures pid.None? ==> live <= old(live) && trace == old(trace)
      ensures pid.Some? ==> live <= old(live) + {pid.value} && trace == old(trace) + [Spawned(pid.value)]
      ensures pid.Some? ==> pid.value == old(nextPid)
    {
      Await();
      var started: bool := *;
      if !started {
        return None;
      }
      pid := Some(nextPid);
      live := live + {nextPid};
      trace := trace + [Spawned(nextPid)];
      nextPid := nextPid + 1;
      Await();
    }
  }

  function Sum(used: seq<nat>): nat {
    if used == [] then 0 else used[0] + Sum(used[1..])
  }

  lemma {:induction false} SumOfConcat(a: seq<nat>, b: seq<nat>)
    ensures Sum(a + b) == Sum(a) + Sum(b)
  {
    if a == [] {
      assert a + b == b;
    } else {
      assert (a + b)[1..] == a[1..] + b;
      SumOfConcat(a[1..], b);
    }
  }

  lemma SumOfOne(x: nat)
    ensures Sum([x]) == x
  {
    assert [x][1..] == [];
  }

  lemma EachIsInTheSum(used: seq<nat>, k: nat)
    requires k < |used|
    ensures used[k] <= Sum(used)
  {
    assert used == used[..k] + ([used[k]] + used[k + 1..]);
    SumOfConcat(used[..k], [used[k]] + used[k + 1..]);
    SumOfConcat([used[k]], used[k + 1..]);
    SumOfOne(used[k]);
  }

  predicate NoneAbove(gpus: seq<nat>, thresholdMb: nat) {
    forall k :: 0 <= k < |gpus| ==> gpus[k] <= thresholdMb
  }

  /** Looks at GPU memory that all found too much of it in use. */
  predicate AllAbove(seen: seq<Happening>, thresholdMb: nat) {
    forall k :: 0 <= k < |seen| ==> seen[k].VramSeen? && Sum(seen[k].gpus) > thresholdMb
  }

  /** A wait that ended well: nothing to look with, or a last look at or below the threshold. */
  predicate SawRelease(seen: seq<Happening>, thresholdMb: nat) {
    && seen != []
    && var last := seen[|seen| - 1];
    && (last == NoSmi || (last.VramSeen? && Sum(last.gpus) <= thresholdMb))
    && AllAbove(seen[..|seen| - 1], thresholdMb)
  }

  /** `wait_for_vram_release`: success means the very last look was at or below the threshold;
      raising means every look was above it and the deadline has passed. What the last look found in
      all is what no single GPU exceeds. */
  method WaitForVramRelease(host: Host, thresholdMb: nat, timeout: real, interval: real)
    returns (error: Option<string>, ghost seen: seq<Happening>)
    requires host.Valid() && interval > 0.0
    modifies host`live, host`trace, host.clock
    ensures host.Valid() && host.live <= old(host.live)
    ensures host.trace == old(host.trace) + seen
    ensures error.None? ==> SawRelease(seen, thresholdMb)
    ensures error.Some? ==> seen != [] && AllAbove(seen, thresholdMb) && host.clock.now >= old(host.clock.now) + timeout
    ensures |seen| <= Ticks(timeout, interval) + 1
    ensures Slept(old(host.clock.asked), host.clock.asked, |seen| - 1, interval)
    ensures error.None? && seen[|seen| - 1].VramSeen? ==>
              NoneAbove(seen[|seen| - 1].gpus, thresholdMb)
  {
    seen := [];
    var present := host.HasSmi();
    if !present {
      seen := [NoSmi];
      return None, seen;
    }
    var deadline := host.clock.now + timeout;
    assert deadline - host.clock.now == timeout;
    var used: nat;
    ghost var gpus;
    used, gpus := host.TotalMemoryUsed();
    seen := [VramSeen(gpus)];
    TicksOrder(deadline - host.clock.now, timeout, interval);
    while used > thresholdMb
      invariant host.Valid() && host.live <= old(host.live)
      invariant deadline == old(host.clock.now) + timeout && host.clock.now >= old(host.clock.now)
      invariant host.trace == old(host.trace) + seen
      invariant seen != [] && seen[|seen| - 1] == VramSeen(gpus) && used == Sum(gpus)
      invariant AllAbove(seen[..|seen| - 1], thresholdMb)
      invariant Slept(old(host.clock.asked), host.clock.asked, |seen| - 1, interval)
      invariant |seen| + Ticks(deadline - host.clock.now, interval) <= Ticks(timeout, interval) + 1
      decreases Ticks(timeout, interval) + 1 - |seen|
    {
      assert AllAbove(seen, thresholdMb);
      ghost var checked := host.clock.now;
      if host.clock.now >= deadline {
        return Some("VRAM still held"), seen;
      }
      host.clock.Sleep(interval);
      used, gpus := host.TotalMemoryUsed();
      ghost var more := seen + [VramSeen(gpus)];
      assert more[..|more| - 1] == seen;
      seen := more;
      OneTick(deadline, checked, checked, host.clock.now, interval);
    }
    forall k | 0 <= k < |gpus|
      ensures gpus[k] <= thresholdMb
    {
      EachIsInTheSum(gpus, k);
    }
    return None, seen;
  }
}
