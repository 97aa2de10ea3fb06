/** Safety over whole runs of the supervisor, and the runs that show where it stops. */
module SupervisorRuns {
  import opened Prelude
  import opened ModelStates
  import opened Catalogs
  import opened Jobs
  import opened SupervisorMachine
  import opened SupervisorInvariant

  // ------------------------------------------------------------- transition safety

  /** The edges any step ever takes: fewer than are legal. */
  predicate Walked(source: ModelState, target: ModelState) {
    match target
    case Idle => false
    case Stopping => source == Idle || source == Ready || source == Error
    case Loading => source == Stopping || source == Error
    case Ready => source == Loading
    case Error => source == Stopping || source == Loading || source == Ready
  }

  /** What a step did to the visible state, and to the jobs that were already there. */
  ghost predicate SafeStep(s: Sup, e: Event, s': Sup) {
    && (s'.illegal != s.illegal <==> e.HealthReturned? && e.healthy && s.state == Error)
    && (s'.state == s.state || (CanTransition(s.state, s'.state) && Walked(s.state, s'.state)))
    && (s.state != Idle ==> s'.state != Idle)
    && KeepsHistory(s, s')
  }

  /** Jobs are only added; a model never changes, and a finished job is history. */
  ghost predicate KeepsHistory(s: Sup, s': Sup) {
    && |s.jobs| <= |s'.jobs|
    && forall j :: 0 <= j < |s.jobs| ==>
                     && s'.jobs[j].model == s.jobs[j].model
                     && (IsFinal(s.jobs[j].status) ==> s'.jobs[j] == s.jobs[j])
  }

  lemma SafeStartLoad(cfg: Config, s: Sup, spec: ModelSpec, job: nat)
    requires s.state in {Stopping, Error} && job < |s.jobs| && s.jobs[job].status == Running
    ensures var s' := StartLoad(cfg, s, spec, job);
            && s'.illegal == s.illegal && s'.state in {Loading, Error}
            && KeepsHistory(s, s')
  {
    assert CanTransition(s.state, Loading) && (s.state != Error ==> CanTransition(s.state, Error));
    var s' := StartLoad(cfg, s, spec, job);
    assert s'.jobs == s.jobs || s'.jobs == SetStatus(s.jobs, job, Failed);
  }

  lemma SafeStopCurrent(cfg: Config, s: Sup, spec: ModelSpec, job: nat)
    requires s.state in {Stopping, Error} && job < |s.jobs| && s.jobs[job].status == Running
    ensures var s' := StopCurrent(cfg, s, spec, job);
            && s'.illegal == s.illegal && (s'.state == s.state || s'.state in {Loading, Error})
            && KeepsHistory(s, s')
  {
    if s.backend.None? {
      SafeStartLoad(cfg, s, spec, job);
    }
  }

  lemma SafeDrain(cfg: Config, s: Sup, e: Event)
    requires JobsInv(s) && TaskInv(cfg, s) && Enabled(s, e) && (e.TaskStart? || e.DrainTick?)
    ensures SafeStep(s, e, Step(cfg, s, e))
  {
    SafeStopCurrent(cfg, s, s.task.spec, s.task.job);
    assert s.state == Stopping ==> CanTransition(s.state, Loading) && CanTransition(s.state, Error);
  }

  lemma SafeUnload(cfg: Config, s: Sup, e: Event)
    requires JobsInv(s) && TaskInv(cfg, s) && Enabled(s, e) && (e.StopReturned? || e.ReleaseReturned? || e.CloseReturned?)
    ensures SafeStep(s, e, Step(cfg, s, e))
  {
    if e.CloseReturned? && e.error.None? && s.task.phase.raised.None? {
      SafeStartLoad(cfg, s.(previous := s.active, active := None), s.task.spec, s.task.job);
    }
  }

  lemma SafeLoad(cfg: Config, s: Sup, e: Event)
    requires JobsInv(s) && TaskInv(cfg, s) && Enabled(s, e) && (e.LoadReturned? || e.HealthReturned?)
    ensures SafeStep(s, e, Step(cfg, s, e))
  {
    assert s.state == Loading ==> CanTransition(s.state, Ready) && CanTransition(s.state, Error);
  }

  lemma SafeRequest(cfg: Config, s: Sup, e: Event)
    requires Inv(cfg, s) && Enabled(s, e) && !IsTaskEvent(e)
    ensures SafeStep(s, e, Step(cfg, s, e))
  {
    assert e.Activate? && ActivateAnswer(cfg, s, e.id) == Accepted ==> CanTransition(s.state, Stopping);
    assert e.WatchVerdict? && s.state != Error ==> CanTransition(s.state, Error);
  }

  /** Every transition a step attempts is legal, but for one: a healthy poll after a stale verdict
      turned `loading` into `error`. There the step still ends cleanly. The watchdog survives
      every verdict, and `idle` is never entered again, nor `stopping` or `loading` from `loading`. */
  lemma TransitionSafety(cfg: Config, s: Sup, e: Event)
    requires Reachable(cfg, s) && Enabled(s, e)
    ensures var s' := Step(cfg, s, e);
            && (s'.illegal != s.illegal <==> e.HealthReturned? && e.healthy && s.state == Error)
            && (s'.illegal != s.illegal ==>
                  && s'.state == Error && s'.active == None && s'.lastError.Some? && !s'.locked
                  && s.task.Live? && s.task.job < |s'.jobs| && s'.jobs[s.task.job].status == Failed)
            && (s'.state == s.state || (CanTransition(s.state, s'.state) && Walked(s.state, s'.state)))
            && s'.watchdog != Dead
            && (s.state != Idle ==> s'.state != Idle)
  {
    ReachableInv(cfg, s);
    SafeSteps(cfg, s, e);
    assert Step(cfg, s, e).watchdog != Dead by {
      StepKeepsInv(cfg, s, e);
    }
    if e.HealthReturned? && e.healthy && s.state == Error {
      FinishRefused(cfg, s, e.diskOk);
    }
  }

  lemma SafeSteps(cfg: Config, s: Sup, e: Event)
    requires Inv(cfg, s) && Enabled(s, e)
    ensures SafeStep(s, e, Step(cfg, s, e))
  {
    if e.LoadReturned? || e.HealthReturned? {
      SafeLoad(cfg, s, e);
    } else if e.TaskStart? || e.DrainTick? {
      SafeDrain(cfg, s, e);
    } else if IsTaskEvent(e) {
      SafeUnload(cfg, s, e);
    } else {
      SafeRequest(cfg, s, e);
    }
  }

  /** Only an unhealthy verdict can put `error` under a task that is still running. */
  lemma OnlyVerdictsInterrupt(cfg: Config, s: Sup, e: Event)
    requires Reachable(cfg, s) && Enabled(s, e) && s.state != Error
    ensures var s' := Step(cfg, s, e);
            s'.state == Error && s'.task.Live? <==> s.task.Live? && e == WatchVerdict(false)
  {
    if IsTaskEvent(e) {
      TaskDoesNotInterrupt(cfg, s, e);
    } else {
      ReachableInv(cfg, s);
      RequestsDoNotInterrupt(cfg, s, e);
    }
  }

  lemma TaskDoesNotInterrupt(cfg: Config, s: Sup, e: Event)
    requires Enabled(s, e) && IsTaskEvent(e) && s.state != Error
    ensures Step(cfg, s, e).task.Live? ==> Step(cfg, s, e).state != Error
  {
  }

  lemma RequestsDoNotInterrupt(cfg: Config, s: Sup, e: Event)
    requires Enabled(s, e) && !IsTaskEvent(e) && s.state != Error
    requires e.WatchVerdict? ==> s.state != Idle
    ensures var s' := Step(cfg, s, e);
            s'.state == Error && s'.task.Live? <==> s.task.Live? && e == WatchVerdict(false)
  {
    assert s.state != Idle ==> CanTransition(s.state, Error);
  }

  // ------------------------------------------------------------------ job history

  lemma {:induction false} FinishedJobsNeverChange(cfg: Config, s: Sup, events: seq<Event>, j: nat)
    requires Inv(cfg, s) && Run(cfg, s, events).Some? && j < |s.jobs| && IsFinal(s.jobs[j].status)
    ensures var s' := Run(cfg, s, events).value;
            j < |s'.jobs| && s'.jobs[j] == s.jobs[j]
    decreases |events|
  {
    if events != [] {
      StepKeepsInv(cfg, s, events[0]);
      SafeSteps(cfg, s, events[0]);
      FinishedJobsNeverChange(cfg, Step(cfg, s, events[0]), events[1..], j);
    }
  }

  // --------------------------------------------------------------- no crash loop

  /** `backend.activate` is called at most once per job, and only for jobs that exist. */
  lemma LoadedAtMostOnce(cfg: Config, s: Sup, i: nat, j: nat)
    requires Reachable(cfg, s) && i < |s.calls| && j < |s.calls|
    requires s.calls[i].Load? && s.calls[j].Load? && s.calls[i].job == s.calls[j].job
    ensures i == j && s.calls[i].job < |s.jobs|
  {
    ReachableInv(cfg, s);
  }

  /** From `error` with nothing running, and without a catalogued model being activated, nothing
      the watchdog or the relays do leaves `error` or touches a backend. */
  lemma {:induction false} ErrorStays(cfg: Config, s: Sup, events: seq<Event>)
    requires s.state == Error && s.task == NoTask && Run(cfg, s, events).Some?
    requires forall e :: e in events && e.Activate? ==> cfg.catalog.Get(e.id).None?
    ensures var s' := Run(cfg, s, events).value;
            s'.state == Error && s'.task == NoTask && s'.calls == s.calls && s'.jobs == s.jobs
    decreases |events|
  {
    if events != [] {
      ErrorStep(cfg, s, events[0]);
      ErrorStays(cfg, Step(cfg, s, events[0]), events[1..]);
    }
  }

  lemma ErrorStep(cfg: Config, s: Sup, e: Event)
    requires s.state == Error && s.task == NoTask && Enabled(s, e)
    requires e.Activate? ==> cfg.catalog.Get(e.id).None?
    ensures var s' := Step(cfg, s, e);
            s'.state == Error && s'.task == NoTask && s'.calls == s.calls && s'.jobs == s.jobs
  {
  }

  // ------------------------------------------------------ every load is unloaded

  predicate TakesTurn(calls: seq<BackendCall>, k: nat)
    requires k < |calls|
  {
    if k % 2 == 0 then calls[k].Load? else calls[k] == Unload(calls[k - 1].job)
  }

  /** Loads and unloads take turns, each unload that of the load before it; a backend is in hand
      exactly after a load, and it is the one that was loaded. */
  ghost predicate Alternate(s: Sup) {
    && (forall k :: 0 <= k < |s.calls| ==> TakesTurn(s.calls, k))
    && (s.backend.Some? <==> |s.calls| % 2 == 1)
    && (s.backend.Some? ==> s.calls[|s.calls| - 1] == Load(s.backend.value.job))
  }

  /** What a step does to the calls and to the backend. */
  ghost predicate CallsMove(s: Sup, s': Sup) {
    || (s'.calls == s.calls && s'.backend == s.backend)
    || (s.backend.Some? && s'.backend == None && s'.calls == s.calls + [Unload(s.backend.value.job)])
    || (s.backend == None && s'.backend.Some? && s'.calls == s.calls + [Load(s'.backend.value.job)])
  }

  lemma DrainMoves(cfg: Config, s: Sup, e: Event)
    requires JobsInv(s) && TaskInv(cfg, s) && Enabled(s, e) && (e.TaskStart? || e.DrainTick?)
    ensures CallsMove(s, Step(cfg, s, e))
  {
    assert CanTransition(s.state, Loading);
  }

  lemma UnloadMoves(cfg: Config, s: Sup, e: Event)
    requires JobsInv(s) && TaskInv(cfg, s) && Enabled(s, e) && (e.StopReturned? || e.ReleaseReturned? || e.CloseReturned?)
    ensures CallsMove(s, Step(cfg, s, e))
  {
    assert CanTransition(s.state, Loading);
  }

  lemma OthersMove(cfg: Config, s: Sup, e: Event)
    requires Enabled(s, e) && (!IsTaskEvent(e) || e.LoadReturned? || e.HealthReturned?)
    ensures CallsMove(s, Step(cfg, s, e))
  {
  }

  lemma StepAlternates(cfg: Config, s: Sup, e: Event)
    requires JobsInv(s) && TaskInv(cfg, s) && Enabled(s, e) && Alternate(s)
    ensures Alternate(Step(cfg, s, e))
  {
    if e.TaskStart? || e.DrainTick? {
      DrainMoves(cfg, s, e);
    } else if IsTaskEvent(e) && !e.LoadReturned? && !e.HealthReturned? {
      UnloadMoves(cfg, s, e);
    } else {
      OthersMove(cfg, s, e);
    }
    MovesAlternate(s, Step(cfg, s, e));
  }

  lemma MovesAlternate(s: Sup, s': Sup)
    requires Alternate(s) && CallsMove(s, s')
    ensures Alternate(s')
  {
    var n := |s.calls|;
    forall k | 0 <= k < |s'.calls|
      ensures TakesTurn(s'.calls, k)
    {
      if k < n {
        assert TakesTurn(s.calls, k) && s'.calls[k] == s.calls[k];
        assert k > 0 ==> s'.calls[k - 1] == s.calls[k - 1];
      } else if s.backend.Some? {
        assert s'.calls[n] == Unload(s.backend.value.job) && s'.calls[n - 1] == s.calls[n - 1];
      } else {
        assert s'.calls[n] == Load(s'.backend.value.job);
      }
    }
  }

  lemma {:induction false} RunAlternates(cfg: Config, s: Sup, events: seq<Event>)
    requires Inv(cfg, s) && Alternate(s) && Run(cfg, s, events).Some?
    ensures Alternate(Run(cfg, s, events).value)
    decreases |events|
  {
    if events != [] {
      StepKeepsInv(cfg, s, events[0]);
      StepAlternates(cfg, s, events[0]);
      RunAlternates(cfg, Step(cfg, s, events[0]), events[1..]);
    }
  }

  /** No load is ever issued on top of one that was not asked to unload, whatever came of either. */
  lemma CallsAlternate(cfg: Config, s: Sup)
    requires Reachable(cfg, s)
    ensures Alternate(s)
  {
    var events :| Run(cfg, Init(), events) == Some(s);
    RunAlternates(cfg, Init(), events);
  }

  // ------------------------------------------------------------------- requests

  /** Retry-After is honest: mid-switch the answer is the estimate in the catalog entry the switch is
      for, or 10 when that is 0 - never the outgoing model's, and always a positive delay. */
  lemma RetryAfterIsHonest(cfg: Config, s: Sup, requested: ModelId)
    requires Reachable(cfg, s) && IsSwitching(s.state)
    ensures s.task.Live? && s.jobs != [] && s.jobs[|s.jobs| - 1] == JobRecord(s.task.spec.id, Running)
    ensures cfg.catalog.Get(s.task.spec.id) == Some(s.task.spec) && s.pending == Some(s.task.spec.id)
    ensures Guard(cfg, s, requested) == ModelLoading(if s.task.spec.estimate == 0 then 10 else s.task.spec.estimate)
    ensures Guard(cfg, s, requested).retryAfter > 0
  {
    ReachableInv(cfg, s);
  }

  /** While a switch is live no completion gets through, whatever the visible state says. */
  lemma NothingPassesMidSwitch(cfg: Config, s: Sup, requested: ModelId)
    requires Reachable(cfg, s) && s.locked
    ensures Guard(cfg, s, requested) != Pass
    ensures StepRelayArrive(cfg, s, requested) == s
  {
    ReachableInv(cfg, s);
  }

  /** The model is the one being served. */
  predicate Serving(s: Sup, id: ModelId) {
    s.state == Ready && s.active == Some(id)
  }

  /** Each of the four answers, exactly when it is due. An id outside the catalog, a lock that is
      held, or a model that is serving already changes nothing at all; any other request is never
      refused: it gets the lock, a running job and a task for its own catalog entry. */
  lemma ActivateIsAnswered(cfg: Config, s: Sup, id: ModelId)
    requires Reachable(cfg, s)
    ensures var known, answer, s' := cfg.catalog.Get(id).Some?, ActivateAnswer(cfg, s, id), Step(cfg, s, Activate(id));
            && (answer == UnknownModel <==> !known)
            && (answer == InProgress <==> known && s.locked)
            && (answer == AlreadyActive <==> Serving(s, id))
            && (!known || s.locked || Serving(s, id) ==> s' == s)
            && (known && !s.locked && !Serving(s, id) ==>
                  && answer == Accepted
                  && s'.state == Stopping && s'.locked && s'.pending == Some(id)
                  && s'.jobs == s.jobs + [JobRecord(id, Running)]
                  && s'.task == Live(cfg.catalog.Get(id).value, |s.jobs|, AtStart)
                  && s'.backend == s.backend && s'.active == s.active && s'.calls == s.calls)
  {
    ReachableInv(cfg, s);
    if !s.locked {
      assert CanTransition(s.state, Stopping);
    }
  }

  // ---------------------------------------------------------------------- drain

  /** Streams still open when the drain lets the switch go on: only past the deadline. */
  lemma DrainWaitsForStreams(cfg: Config, s: Sup, e: Event)
    requires Reachable(cfg, s) && Enabled(s, e) && (e.TaskStart? || e.DrainTick?)
    ensures var s' := Step(cfg, s, e);
            s'.calls != s.calls || !s'.locked || s'.backend != s.backend ==>
              || Streams(s.relays) == 0
              || (e.TaskStart? && cfg.drainTimeout <= 0.0)
              || (e.DrainTick? && e.t >= s.task.phase.deadline)
    ensures var s' := Step(cfg, s, e);
            s'.task.Live? && s'.task.phase.InDrain? ==>
              && Streams(s.relays) > 0
              && e.t < s'.task.phase.deadline
              && s'.task.phase.wake == e.t + DRAIN_POLL_INTERVAL < s'.task.phase.deadline + DRAIN_POLL_INTERVAL
              && s'.task.phase.deadline == if e.TaskStart? then e.t + cfg.drainTimeout else s.task.phase.deadline
  {
    ReachableInv(cfg, s);
  }

  // -------------------------------------------------------------- building runs

  lemma {:induction false} RunAppend(cfg: Config, s: Sup, events: seq<Event>, e: Event)
    requires Run(cfg, s, events).Some? && Enabled(Run(cfg, s, events).value, e)
    ensures Run(cfg, s, events + [e]) == Some(Step(cfg, Run(cfg, s, events).value, e))
    decreases |events|
  {
    var more := events + [e];
    if events == [] {
      assert more[1..] == [];
    } else {
      assert more[1..] == events[1..] + [e];
      RunAppend(cfg, Step(cfg, s, events[0]), events[1..], e);
    }
  }

  lemma ReachableStep(cfg: Config, s: Sup, e: Event) returns (s': Sup)
    requires Reachable(cfg, s) && Enabled(s, e)
    ensures s' == Step(cfg, s, e) && Reachable(cfg, s')
  {
    s' := Step(cfg, s, e);
    var events :| Run(cfg, Init(), events) == Some(s);
    RunAppend(cfg, Init(), events, e);
  }

  lemma InitReachable(cfg: Config)
    ensures Reachable(cfg, Init())
  {
    assert Run(cfg, Init(), []) == Some(Init());
  }

  /** From rest to `ready`, with nothing in flight and every call answered well. */
  lemma FirstActivation(cfg: Config, spec: ModelSpec) returns (s: Sup)
    requires Catalogued(cfg, spec) && spec.backend in cfg.backends
    ensures Reachable(cfg, s) && s.state == Ready && s.active == Some(spec.id) && s.jobs == [JobRecord(spec.id, Succeeded)]
    ensures s.backend == Some(Backend(spec, 0)) && s.watchdog == Asleep && s.relays == [] && s.inFlight == 0
    ensures s.task == NoTask && !s.locked && s.calls == [Load(0)]
  {
    InitReachable(cfg);
    s := ReachableStep(cfg, Init(), Activate(spec.id));
    s := ReachableStep(cfg, s, TaskStart(0.0));
    s := ReachableStep(cfg, s, LoadReturned(None, 1.0));
    s := ReachableStep(cfg, s, HealthReturned(true, 1.0, true));
  }

  /** "The watchdog leaves a switch alone" is not true: an answer asked for in `ready` can arrive
      in the middle of the next switch. The switch then fails even though its model came up. */
  lemma StaleVerdictFailsHealthySwitch(cfg: Config, a: ModelSpec, b: ModelSpec) returns (loading: Sup, after: Sup)
    requires Catalogued(cfg, a) && Catalogued(cfg, b) && a.id != b.id
    requires a.backend in cfg.backends && b.backend in cfg.backends
    ensures Reachable(cfg, loading) && loading.task.Live? && loading.task.phase.InPoll?
    ensures Enabled(loading, HealthReturned(true, loading.task.phase.wake, true))
    ensures after == Step(cfg, loading, HealthReturned(true, loading.task.phase.wake, true))
    ensures after.state == Error && after.active == None && |after.jobs| == 2 && after.jobs[1] == JobRecord(b.id, Failed)
  {
    var s := FirstActivation(cfg, a);
    s := ReachableStep(cfg, s, WatchSample);
    s := CleanUnload(cfg, s, b);
    s := ReachableStep(cfg, s, WatchVerdict(false));
    loading := ReachableStep(cfg, s, LoadReturned(None, 3.0));
    ReachableInv(cfg, loading);
    FinishRefused(cfg, loading, true);
    after := Step(cfg, loading, HealthReturned(true, 3.0, true));
  }

  lemma UnloadBegins(cfg: Config, ready: Sup, b: ModelSpec) returns (s: Sup)
    requires Reachable(cfg, ready) && ready.state == Ready && ready.inFlight == 0
    requires Catalogued(cfg, b) && ready.active != Some(b.id)
    ensures Reachable(cfg, s)
    ensures s.state == Stopping && s.backend == None && s.watchdog == ready.watchdog
    ensures s.task.Live? && s.task.spec == b && s.task.job == |ready.jobs| && s.task.phase.InStop?
    ensures s.jobs == ready.jobs + [JobRecord(b.id, Running)]
    ensures s.active == ready.active && s.saved == ready.saved
  {
    ReachableInv(cfg, ready);
    s := ReachableStep(cfg, ready, Activate(b.id));
    s := ReachableStep(cfg, s, TaskStart(2.0));
  }

  /** From `ready` with nothing in flight to the moment the next model's load is issued. */
  lemma CleanUnload(cfg: Config, ready: Sup, b: ModelSpec) returns (s: Sup)
    requires Reachable(cfg, ready) && ready.state == Ready && ready.inFlight == 0
    requires Catalogued(cfg, b) && ready.active != Some(b.id) && b.backend in cfg.backends
    ensures Reachable(cfg, s)
    ensures s.state == Loading && s.task == Live(b, |ready.jobs|, InLoad) && s.watchdog == ready.watchdog
    ensures s.jobs == ready.jobs + [JobRecord(b.id, Running)]
    ensures s.previous == ready.active && s.saved == ready.saved
  {
    s := UnloadBegins(cfg, ready, b);
    s := ReachableStep(cfg, s, StopReturned(None));
    s := ReachableStep(cfg, s, ReleaseReturned(None));
    s := ReachableStep(cfg, s, CloseReturned(None));
  }

  /** A switch on which every call is answered well: from any reachable `ready` with no stream open
      to `ready` for the other model, the old one remembered as previous. Only the record for the
      next restart depends on the disk. */
  lemma CleanSwitch(cfg: Config, ready: Sup, b: ModelSpec, diskOk: bool) returns (s: Sup)
    requires Reachable(cfg, ready) && ready.state == Ready && ready.inFlight == 0
    requires Catalogued(cfg, b) && ready.active != Some(b.id) && b.backend in cfg.backends
    ensures Reachable(cfg, s) && ReadyOk(cfg, s) && s.state == Ready
    ensures s.active == Some(b.id) && s.previous == ready.active && s.pending == None
    ensures s.saved == if diskOk then Some(b.id) else ready.saved
    ensures s.jobs == ready.jobs + [JobRecord(b.id, Succeeded)]
    ensures Guard(cfg, s, b.id) == Pass && forall id :: id != b.id ==> Guard(cfg, s, id) == Mismatch
  {
    s := CleanUnload(cfg, ready, b);
    s := ReachableStep(cfg, s, LoadReturned(None, 3.0));
    s := ReachableStep(cfg, s, HealthReturned(true, 3.0, diskOk));
    ReachableInv(cfg, s);
  }

  /** "The drain waits for every accepted completion" is not true either: only streams whose
      generator has started are counted, so one still waiting for the upstream's first answer is
      cut off at once. */
  lemma UnstartedRelayIsNotDrained(cfg: Config, a: ModelSpec, b: ModelSpec) returns (s: Sup)
    requires Catalogued(cfg, a) && Catalogued(cfg, b) && a.id != b.id
    requires a.backend in cfg.backends && cfg.drainTimeout > 0.0
    ensures Reachable(cfg, s) && s.task.Live? && s.task.phase == InStop(Backend(a, 0))
    ensures |s.relays| == 1 && s.relays[0].phase == Sent && s.relays[0].url == Backend(a, 0)
  {
    s := FirstActivation(cfg, a);
    s := ReachableStep(cfg, s, RelayArrive(a.id));
    s := ReachableStep(cfg, s, Activate(b.id));
    s := ReachableStep(cfg, s, TaskStart(2.0));
  }
}
