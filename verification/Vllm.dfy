/** The `vllm` backend (`supervisor/backends/vllm.py`): when it may spawn, and what it leaves
    running. */
module VllmBackends {
  import opened Prelude
  import opened Readiness
  import opened Hosts
  import opened BackendContract

  const SIGKILL_GRACE: real := 15.0
  const SIGKILL_WAIT: real := 5.0
  const PORT_FREE_TIMEOUT: real := 30.0
  const PORT_POLL_INTERVAL: real := 0.5
  const VRAM_TIMEOUT: real := 60.0
  const VRAM_POLL_INTERVAL: real := 1.0

  // ------------------------------------------------------------- the discipline

  /** Entry `i` is a spawn that was earned: in the same `activate`, and with no other spawn since
      it began, a probe found the port free, and then nothing but looks at GPU memory followed, of
      which the last - right before the spawn - saw it released. */
  ghost predicate EarnedSpawn(trace: seq<Happening>, i: nat)
    requires i <= |trace|
  {
    exists began, probe :: 0 <= began < probe < i && EarnedBy(trace[..i], began, probe)
  }

  predicate EarnedBy(before: seq<Happening>, began: nat, probe: nat)
    requires began < probe < |before|
  {
    && before[began] == ActivateBegan
    && Quiet(before[began + 1..])
    && before[probe] == Probed(false)
    && SawRelease(before[probe + 1..], VRAM_THRESHOLD_MB)
  }

  /** No activation begins here and nothing is spawned. */
  predicate Quiet(part: seq<Happening>) {
    forall k :: 0 <= k < |part| ==> !part[k].Spawned? && !part[k].ActivateBegan?
  }

  ghost predicate Disciplined(trace: seq<Happening>) {
    forall i :: 0 <= i < |trace| && trace[i].Spawned? ==> EarnedSpawn(trace, i)
  }

  lemma DisciplinedExtend(trace: seq<Happening>, more: seq<Happening>)
    requires Disciplined(trace)
    requires forall k :: 0 <= k < |more| ==> !more[k].Spawned?
    ensures Disciplined(trace + more)
  {
    forall i | 0 <= i < |trace + more| && (trace + more)[i].Spawned?
      ensures EarnedSpawn(trace + more, i)
    {
      assert i < |trace| && EarnedSpawn(trace, i);
      assert (trace + more)[..i] == trace[..i];
    }
  }

  /** The whole of an `activate` up to its spawn: stop's probes, then the wait for memory. */
  lemma DisciplinedSpawn(trace: seq<Happening>, probes: seq<Happening>, seen: seq<Happening>, pid: nat)
    requires Disciplined(trace) && AllProbes(probes) && FreeAtLast(probes) && SawRelease(seen, VRAM_THRESHOLD_MB)
    ensures Disciplined(trace + [ActivateBegan] + probes + seen + [Spawned(pid)])
  {
    var before := trace + [ActivateBegan] + probes + seen;
    DisciplinedExtend(trace, [ActivateBegan] + probes + seen);
    assert before == trace + ([ActivateBegan] + probes + seen);
    var began, probe := |trace|, |trace| + |probes|;
    EarnedHere(trace, probes, seen);
    assert EarnedBy(before, began, probe);
    assert before[..|before|] == before;
    SpawnKeepsDiscipline(before, pid);
  }

  lemma SpawnKeepsDiscipline(before: seq<Happening>, pid: nat)
    requires Disciplined(before) && EarnedSpawn(before, |before|)
    ensures Disciplined(before + [Spawned(pid)])
  {
    var whole := before + [Spawned(pid)];
    assert whole[..|before|] == before == before[..|before|];
    forall k | 0 <= k < |whole| && whole[k].Spawned?
      ensures EarnedSpawn(whole, k)
    {
      assert whole[..k] == before[..k];
    }
  }

  lemma EarnedHere(trace: seq<Happening>, probes: seq<Happening>, seen: seq<Happening>)
    requires AllProbes(probes) && FreeAtLast(probes) && SawRelease(seen, VRAM_THRESHOLD_MB)
    ensures EarnedBy(trace + [ActivateBegan] + probes + seen, |trace|, |trace| + |probes|)
  {
    var before := trace + [ActivateBegan] + probes + seen;
    assert before[|trace| + 1..] == probes + seen;
    assert before[|trace| + |probes|] == probes[|probes| - 1];
    assert before[|trace| + |probes| + 1..] == seen;
    assert forall k :: 0 <= k < |seen| - 1 ==> seen[k] == seen[..|seen| - 1][k];
  }

  predicate AllProbes(probes: seq<Happening>) {
    forall k :: 0 <= k < |probes| ==> probes[k].Probed?
  }

  /** The port was found in use every time but the last. */
  predicate FreeAtLast(probes: seq<Happening>) {
    && probes != [] && probes[|probes| - 1] == Probed(false)
    && forall k :: 0 <= k < |probes| - 1 ==> probes[k] == Probed(true)
  }

  predicate NeverFree(probes: seq<Happening>) {
    probes != [] && forall k :: 0 <= k < |probes| ==> probes[k] == Probed(true)
  }

  /** What `_kill_group` may send: SIGTERM, and SIGKILL after a SIGTERM that was delivered. */
  predicate Escalates(sent: seq<Signalled>, pid: nat) {
    && 1 <= |sent| <= 2
    && sent[0].pid == pid && sent[0].signal == SIGTERM
    && (|sent| == 2 ==> sent[0].delivered && sent[1].pid == pid && sent[1].signal == SIGKILL)
  }

  // ---------------------------------------------------------------- the backend

  class VllmBackend {
    const host: Host
    var proc: Option<nat>
    var pump: Option<nat>

    ghost function Handle(): set<nat>
      reads this
    {
      if proc.Some? then {proc.value} else {}
    }

    /** Every spawn so far was earned; whatever runs is either this handle's process or one that
        outlived being killed; and the output being pumped is that of this handle's process. */
    ghost predicate Valid()
      reads this, host
    {
      host.Valid() && Disciplined(host.trace) && host.live <= host.outlived + Handle() && pump == proc
    }

    /** A new instance may take over once its predecessor has let go of its process. */
    constructor (host: Host)
      requires host.Valid() && Disciplined(host.trace) && host.live <= host.outlived
      ensures Valid() && this.host == host && proc == None
    {
      this.host := host;
      proc, pump := None, None;
    }

    /** However many were killed, at most one more process runs than outlived its kill. */
    lemma LiveProcesses()
      requires Valid()
      ensures |host.live| <= 1 + |host.outlived|
    {
      var all := host.outlived + Handle();
      assert |all| <= |host.outlived| + 1;
      SubsetSize(host.live, all);
    }

    /** SIGTERM first; SIGKILL only after the grace period. `sent` are the signals it tried. The
        process can still be running afterwards only if one of them could not be delivered, or both
        were and it survived both waits; `outlived` then says so. */
    method KillGroup(pid: nat) returns (ghost sent: seq<Signalled>)
      requires host.Valid()
      modifies host`live, host`outlived, host`signals, host.clock
      ensures host.Valid() && LoadsNothing(old(host.live), host.live)
      ensures host.outlived == old(host.outlived) + if pid in host.live then {pid} else {}
      ensures host.signals == old(host.signals) + sent && Escalates(sent, pid)
      ensures host.clock.now >= old(host.clock.now)
      ensures |sent| == 2 ==> host.clock.now >= old(host.clock.now) + SIGKILL_GRACE
      ensures pid in host.live ==>
                !sent[|sent| - 1].delivered
                || (|sent| == 2 && host.clock.now >= old(host.clock.now) + SIGKILL_GRACE + SIGKILL_WAIT)
    {
      sent := [];
      var signals := [(SIGTERM, SIGKILL_GRACE), (SIGKILL, SIGKILL_WAIT)];
      var i := 0;
      while i < 2
        invariant 0 <= i <= 2 && |sent| == i
        invariant host.Valid() && host.live <= old(host.live) && host.outlived == old(host.outlived)
        invariant host.signals == old(host.signals) + sent
        invariant forall k :: 0 <= k < i ==> sent[k] == Signalled(pid, signals[k].0, true)
        invariant host.clock.now >= old(host.clock.now) +
                                   if i == 0 then 0.0 else if i == 1 then SIGKILL_GRACE else SIGKILL_GRACE + SIGKILL_WAIT
      {
        var delivered := host.SignalGroup(pid, signals[i].0);
        sent := sent + [Signalled(pid, signals[i].0, delivered)];
        if !delivered {
          break;
        }
        var exited := host.WaitExit(pid, signals[i].1);
        if exited {
          break;
        }
        i := i + 1;
      }
      if pid in host.live {
        host.outlived := host.outlived + {pid};
      }
    }

    /** Poll until nothing listens on the port, or raise at the deadline. */
    method WaitForPortFree() returns (error: Option<string>, ghost probes: seq<Happening>)
      requires host.Valid()
      modifies host`live, host`trace, host.clock
      ensures host.Valid() && LoadsNothing(old(host.live), host.live)
      ensures host.trace == old(host.trace) + probes && AllProbes(probes)
      ensures error.None? ==> FreeAtLast(probes)
      ensures error.Some? ==>
                NeverFree(probes) && host.clock.now >= old(host.clock.now) + PORT_FREE_TIMEOUT
      ensures |probes| <= Ticks(PORT_FREE_TIMEOUT, PORT_POLL_INTERVAL) + 1
      ensures Slept(old(host.clock.asked), host.clock.asked, |probes| - 1, PORT_POLL_INTERVAL)
    {
      var deadline := host.clock.now + PORT_FREE_TIMEOUT;
      assert deadline - host.clock.now == PORT_FREE_TIMEOUT;
      probes := [];
      while true
        invariant host.Valid() && host.live <= old(host.live)
        invariant deadline == old(host.clock.now) + PORT_FREE_TIMEOUT
        invariant host.trace == old(host.trace) + probes
        invariant Slept(old(host.clock.asked), host.clock.asked, |probes|, PORT_POLL_INTERVAL)
        invariant forall k :: 0 <= k < |probes| ==> probes[k] == Probed(true)
        invariant |probes| + Ticks(deadline - host.clock.now, PORT_POLL_INTERVAL) <= Ticks(PORT_FREE_TIMEOUT, PORT_POLL_INTERVAL)
        decreases Ticks(PORT_FREE_TIMEOUT, PORT_POLL_INTERVAL) - |probes|
      {
        ghost var head := host.clock.now;
        var inUse := host.PortInUse();
        probes := probes + [Probed(inUse)];
        if !inUse {
          return None, probes;
        }
        if host.clock.now >= deadline {
          return Some("something is still listening"), probes;
        }
        ghost var checked := host.clock.now;
        host.clock.Sleep(PORT_POLL_INTERVAL);
        OneTick(deadline, head, checked, host.clock.now, PORT_POLL_INTERVAL);
      }
    }

    /** The handle goes first, whatever happens next: a stop that raises does not get to try the
        same process again. Only its own process is signalled (`sent`), and it is left running only
        after every signal there is, or one that could not be delivered. */
    method Stop() returns (error: Option<string>, ghost probes: seq<Happening>, ghost sent: seq<Signalled>)
      requires Valid()
      modifies this, host`live, host`outlived, host`trace, host`signals, host.clock
      ensures Valid() && proc == None && pump == None && LoadsNothing(old(host.live), host.live)
      ensures old(host.outlived) <= host.outlived <= old(host.outlived) + old(Handle())
      ensures host.signals == old(host.signals) + sent
      ensures sent != [] ==> old(proc).Some? && Escalates(sent, old(proc).value)
      ensures old(proc).Some? && old(proc).value in host.live ==>
                sent != [] && (!sent[|sent| - 1].delivered || |sent| == 2)
      ensures host.trace == old(host.trace) + probes && AllProbes(probes)
      ensures error.None? ==> FreeAtLast(probes)
      ensures error.Some? ==> NeverFree(probes) && host.clock.now >= old(host.clock.now) + PORT_FREE_TIMEOUT
    {
      var held, pumped := proc, pump;
      proc, pump := None, None;
      sent := [];
      if held.Some? {
        var exited := host.HasExited(held.value);
        if !exited {
          sent := KillGroup(held.value);
        }
      }
      if pumped.Some? {
        host.Await();
      }
      error, probes := WaitForPortFree();
      DisciplinedExtend(old(host.trace), probes);
    }

    /** A spawn only after the port was seen free and the memory seen released. It raises for one of
        three causes: the port never came free, the memory stayed held, or - with both in order - the
        command could not be started; and each is on record, in that order. */
    method Activate() returns (error: Option<string>, ghost probes: seq<Happening>, ghost seen: seq<Happening>)
      requires Valid()
      modifies this, host
      modifies host.clock
      ensures Valid()
      ensures error.Some? ==> proc == None && LoadsNothing(old(host.live), host.live)
      ensures error.None? ==> proc.Some? && pump == proc && LoadsOnly(old(host.live), host.live, proc.value) && proc.value !in old(host.live)
      ensures old(host.outlived) <= host.outlived <= old(host.outlived) + old(Handle())
      ensures host.trace == old(host.trace) + [ActivateBegan] + probes + seen + if error.None? then [Spawned(proc.value)] else []
      ensures error.None? ==> FreeAtLast(probes) && SawRelease(seen, VRAM_THRESHOLD_MB)
      ensures error.Some? ==>
                || (NeverFree(probes) && seen == [])
                || (FreeAtLast(probes) && seen != [] && AllAbove(seen, VRAM_THRESHOLD_MB))
                || (FreeAtLast(probes) && SawRelease(seen, VRAM_THRESHOLD_MB))
    {
      seen := [];
      DisciplinedExtend(host.trace, [ActivateBegan]);
      host.trace := host.trace + [ActivateBegan];
      ghost var sent;
      error, probes, sent := Stop();
      if error.Some? {
        return;
      }
      error, seen := WaitForVramRelease(host, VRAM_THRESHOLD_MB, VRAM_TIMEOUT, VRAM_POLL_INTERVAL);
      ghost var ready := host.trace;
      assert ready == old(host.trace) + [ActivateBegan] + probes + seen;
      DisciplinedExtend(old(host.trace) + [ActivateBegan] + probes, seen);
      if error.Some? {
        return;
      }
      var pid := host.Spawn();
      if pid.None? {
        error := Some("could not start vllm");
        return;
      }
      DisciplinedSpawn(old(host.trace), probes, seen, pid.value);
      proc := pid;
      pump := pid;
    }

    method AwaitReleased(timeout: real) returns (error: Option<string>, ghost seen: seq<Happening>)
      requires Valid()
      modifies host`live, host`trace, host.clock
      ensures Valid() && proc == old(proc) && LoadsNothing(old(host.live), host.live)
      ensures host.trace == old(host.trace) + seen
      ensures error.None? ==> SawRelease(seen, VRAM_THRESHOLD_MB)
      ensures error.Some? ==> AllAbove(seen, VRAM_THRESHOLD_MB) && host.clock.now >= old(host.clock.now) + timeout
    {
      error, seen := WaitForVramRelease(host, VRAM_THRESHOLD_MB, timeout, VRAM_POLL_INTERVAL);
      DisciplinedExtend(old(host.trace), seen);
    }

    /** `aclose` stops once more, so it can raise too; with no process left it kills nothing. */
    method Aclose() returns (error: Option<string>)
      requires Valid()
      modifies this, host`live, host`outlived, host`trace, host`signals, host.clock
      ensures Valid() && proc == None && LoadsNothing(old(host.live), host.live)
      ensures old(proc).None? ==> host.outlived == old(host.outlived) && host.signals == old(host.signals)
    {
      ghost var probes, sent;
      error, probes, sent := Stop();
    }
  }
}
