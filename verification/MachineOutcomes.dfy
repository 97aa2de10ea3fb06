/** What each answer of the outside world leads to: how a switch ends, what a failed unload rules
    out, what the watchdog does, and what a completion is told. */
module SupervisorOutcomes {
  import opened Prelude
  import opened ModelStates
  import opened Catalogs
  import opened Jobs
  import opened SupervisorMachine
  import opened SupervisorInvariant

  // ---------------------------------------------------------- how a switch ends

  /** The drain is over, and with nothing to unload the load is next. */
  predicate SkipsToLoad(cfg: Config, s: Sup, e: Event)
    requires Enabled(s, e) && (e.TaskStart? || e.DrainTick?)
  {
    && s.backend == None
    && (Streams(s.relays) == 0 || if e.TaskStart? then cfg.drainTimeout <= 0.0 else e.t >= s.task.phase.deadline)
  }

  /** An unload or a load that raised, a backend nobody knows, a load that took too long, or one
      that came up after the watchdog had already given a stale verdict. */
  predicate Fails(cfg: Config, s: Sup, e: Event)
    requires Enabled(s, e)
  {
    match e
    case CloseReturned(error) => error.Some? || s.task.phase.raised.Some? || s.task.spec.backend !in cfg.backends
    case LoadReturned(error, _) => error.Some?
    case HealthReturned(healthy, t, _) => if healthy then s.state == Error else t >= s.task.phase.deadline
    case TaskStart(_) => SkipsToLoad(cfg, s, e) && s.task.spec.backend !in cfg.backends
    case DrainTick(_) => SkipsToLoad(cfg, s, e) && s.task.spec.backend !in cfg.backends
    case _ => false
  }

  /** The exception that ends it. `aclose` is the last to raise, so its error is the one seen. */
  function Reason(s: Sup, e: Event): Raised
    requires Enabled(s, e)
  {
    match e
    case CloseReturned(error) =>
      if error.Some? then error.value
      else if s.task.phase.raised.Some? then s.task.phase.raised.value
      else UNKNOWN_BACKEND
    case LoadReturned(error, _) => if error.Some? then error.value else UNKNOWN_BACKEND
    case HealthReturned(healthy, _, _) => if healthy then ILLEGAL_TRANSITION else NOT_READY
    case _ => UNKNOWN_BACKEND
  }

  /** A backend's failure is shown in its own words; anything else is said to be unexpected. */
  ghost predicate Shows(lastError: Option<string>, raised: Raised) {
    match raised
    case BackendFailed(text) => lastError == Some(text)
    case Unexpected(text) => lastError == Some("unexpected error: " + text)
  }

  predicate Succeeds(s: Sup, e: Event) {
    e.HealthReturned? && e.healthy && s.state != Error
  }

  /** What a step does to the live activation: it fails exactly on those answers, succeeds exactly
      on a healthy poll, and on any other keeps the lock. Either end is complete: job, state, active
      model, error and lock agree. */
  ghost predicate Ends(cfg: Config, s: Sup, e: Event, s': Sup)
    requires Enabled(s, e) && s.task.Live? && s.task.job < |s.jobs|
  {
    && |s.jobs| <= |s'.jobs|
    && (s'.jobs[s.task.job].status == Failed <==> Fails(cfg, s, e))
    && (s'.jobs[s.task.job].status == Succeeded <==> Succeeds(s, e))
    && (s'.locked <==> !Fails(cfg, s, e) && !Succeeds(s, e))
    && (Fails(cfg, s, e) ==>
          s'.state == Error && s'.active == None && Shows(s'.lastError, Reason(s, e)) && s'.calls == s.calls)
    && (Succeeds(s, e) ==>
          s'.state == Ready && s'.active == Some(s.task.spec.id) && s'.lastError == None && s'.pending == None)
  }

  lemma SwitchEndsExactly(cfg: Config, s: Sup, e: Event)
    requires Reachable(cfg, s) && s.locked && Enabled(s, e)
    ensures s.task.Live? && s.task.job < |s.jobs| && Ends(cfg, s, e, Step(cfg, s, e))
  {
    ReachableInv(cfg, s);
    if e.HealthReturned? {
      PollEnds(cfg, s, e);
    } else if e.LoadReturned? || e.CloseReturned? {
      CallEnds(cfg, s, e);
    } else if IsTaskEvent(e) {
      UnloadEnds(cfg, s, e);
    } else {
      OthersEndNothing(cfg, s, e);
    }
  }

  lemma PollEnds(cfg: Config, s: Sup, e: Event)
    requires JobsInv(s) && TaskInv(cfg, s) && s.locked && Enabled(s, e) && e.HealthReturned?
    ensures Ends(cfg, s, e, Step(cfg, s, e))
  {
    assert s.state == Loading ==> CanTransition(s.state, Ready) && CanTransition(s.state, Error);
  }

  lemma CallEnds(cfg: Config, s: Sup, e: Event)
    requires JobsInv(s) && TaskInv(cfg, s) && s.locked && Enabled(s, e) && (e.LoadReturned? || e.CloseReturned?)
    ensures Ends(cfg, s, e, Step(cfg, s, e))
  {
    assert s.state != Error ==> CanTransition(s.state, Error);
    assert e.CloseReturned? ==> CanTransition(s.state, Loading);
  }

  lemma UnloadEnds(cfg: Config, s: Sup, e: Event)
    requires JobsInv(s) && TaskInv(cfg, s) && s.inFlight == Streams(s.relays)
    requires s.locked && Enabled(s, e) && (e.TaskStart? || e.DrainTick? || e.StopReturned? || e.ReleaseReturned?)
    ensures Ends(cfg, s, e, Step(cfg, s, e))
  {
    assert s.state != Error ==> CanTransition(s.state, Error);
    assert e.TaskStart? || e.DrainTick? ==> CanTransition(s.state, Loading);
  }

  lemma OthersEndNothing(cfg: Config, s: Sup, e: Event)
    requires JobsInv(s) && s.locked && Enabled(s, e) && !IsTaskEvent(e)
    ensures Ends(cfg, s, e, Step(cfg, s, e))
  {
  }

  /** Once an unload has raised, the next model is not loaded on top of it in this switch: whatever
      `aclose` says, the switch ends there, with the error that a reader should see. */
  lemma FailedUnloadEndsTheSwitch(cfg: Config, s: Sup, raised: Raised, close: Option<Raised>)
    requires Reachable(cfg, s) && s.task.Live? && (s.task.phase.InStop? || s.task.phase.InRelease?)
    ensures var e := if s.task.phase.InStop? then StopReturned(Some(raised)) else ReleaseReturned(Some(raised));
            var closing := Step(cfg, s, e);
            && Enabled(s, e) && Enabled(closing, CloseReturned(close)) && closing.calls == s.calls
            && var s' := Step(cfg, closing, CloseReturned(close));
               && s'.calls == s.calls && s'.state == Error && !s'.locked && s'.backend == None
               && Shows(s'.lastError, if close.Some? then close.value else raised)
  {
    ReachableInv(cfg, s);
    assert s.state != Error ==> CanTransition(s.state, Error);
  }

  // ------------------------------------------------------------------ the watchdog

  /** The watchdog asks exactly in `ready`, and then the backend that serves the active model. */
  lemma WatchdogAsksTheServingBackend(cfg: Config, s: Sup)
    requires Reachable(cfg, s) && Enabled(s, WatchSample)
    ensures var s' := Step(cfg, s, WatchSample);
            && (s'.watchdog.Asking? <==> s.state == Ready)
            && (s.state == Ready ==>
                  && s.active.Some? && s'.watchdog == Asking(s.backend.value)
                  && cfg.catalog.Get(s.active.value) == Some(s.backend.value.spec))
            && s' == s.(watchdog := s'.watchdog)
  {
    ReachableInv(cfg, s);
  }

  /** A bad verdict always shows - `error`, a reason, nothing active - and never acts: no call, no
      job, no change to a running switch. A good one changes nothing. */
  lemma VerdictShowsButDoesNotAct(cfg: Config, s: Sup, healthy: bool)
    requires Reachable(cfg, s) && Enabled(s, WatchVerdict(healthy))
    ensures var s' := Step(cfg, s, WatchVerdict(healthy));
            && s'.watchdog == Asleep
            && (healthy ==> s' == s.(watchdog := Asleep))
            && (!healthy ==> s'.state == Error && s'.active == None && s'.lastError.Some?)
            && s'.calls == s.calls && s'.jobs == s.jobs && s'.task == s.task && s'.backend == s.backend
            && s'.locked == s.locked && s'.illegal == s.illegal
  {
    ReachableInv(cfg, s);
    assert s.state != Error ==> CanTransition(s.state, Error);
  }

  // ------------------------------------------------------------------ completions

  /** What a completion is told, state by state: retry later during a switch, nothing active in
      `idle` and `error`, and in `ready` the model it named or a mismatch. */
  lemma GuardFollowsTheState(cfg: Config, s: Sup, requested: ModelId)
    requires Reachable(cfg, s)
    ensures var v := Guard(cfg, s, requested);
            && (v.ModelLoading? <==> s.state == Stopping || s.state == Loading)
            && (v == NotActive <==> s.state == Idle || s.state == Error)
            && (s.state == Ready ==> s.active.Some? && v == if requested == s.active.value then Pass else Mismatch)
  {
    ReachableInv(cfg, s);
  }
}
