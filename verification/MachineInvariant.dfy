/** What every interleaving of the supervisor's actors keeps. */
module SupervisorInvariant {
  import opened Prelude
  import opened ModelStates
  import opened Catalogs
  import opened Jobs
  import opened SupervisorMachine

  ghost predicate Catalogued(cfg: Config, spec: ModelSpec) {
    cfg.catalog.Get(spec.id) == Some(spec)
  }

  /** A backend instance belongs to a job for the model its spec names. */
  ghost predicate BackendOk(cfg: Config, s: Sup, b: Backend) {
    Catalogued(cfg, b.spec) && b.job < |s.jobs| && s.jobs[b.job].model == b.spec.id
  }

  predicate Loaded(p: Phase) {
    p.InLoad? || p.InPoll?
  }

  predicate Unloading(p: Phase) {
    p.InStop? || p.InRelease? || p.InClose?
  }

  /** Single flight: the lock, the live task and the running job are one thing, and that job is
      the newest; every other job is finished. */
  ghost predicate JobsInv(s: Sup) {
    && (s.locked <==> s.task.Live?)
    && (s.task.Live? ==>
          s.task.job == |s.jobs| - 1 && s.jobs[s.task.job] == JobRecord(s.task.spec.id, Running))
    && (forall j :: 0 <= j < |s.jobs| && (s.task.Live? ==> j != s.task.job) ==> IsFinal(s.jobs[j].status))
  }

  /** Where the activation is, against what the supervisor shows. A stale watchdog verdict is the only
      thing that can turn `stopping` or `loading` into `error` under a live task. */
  ghost predicate TaskInv(cfg: Config, s: Sup) {
    s.task.Live? ==>
      var Live(spec, job, phase) := s.task;
      && Catalogued(cfg, spec)
      && s.pending == Some(spec.id)
      && (if Loaded(phase) then
            && s.state in {Loading, Error}
            && s.backend == Some(Backend(spec, job))
            && s.active == None
          else
            && s.state in {Stopping, Error}
            && (s.backend.Some? ==> s.backend.value.job < job))
      && (Unloading(phase) ==>
            s.backend == None && BackendOk(cfg, s, phase.outgoing) && phase.outgoing.job < job)
      && (phase.InDrain? ==> phase.wake < phase.deadline + DRAIN_POLL_INTERVAL)
  }

  /** What each visible state promises. */
  ghost predicate StateInv(cfg: Config, s: Sup) {
    && (s.state == Idle <==> s.jobs == [])
    && (s.state == Idle ==>
          s.active == None && s.backend == None && s.task == NoTask && s.watchdog == Asleep && s.relays == [])
    && (s.state == Stopping ==> s.task.Live? && !Loaded(s.task.phase))
    && (s.state == Loading ==> s.task.Live? && Loaded(s.task.phase) && s.active == None)
    && (s.state == Ready ==> ReadyOk(cfg, s))
    && (s.state == Error ==> s.active == None && s.lastError.Some?)
    && (s.backend.Some? ==> BackendOk(cfg, s, s.backend.value))
    && (s.active.Some? && s.backend.None? ==> s.task.Live? && Unloading(s.task.phase))
  }

  /** `ready` is the whole truth: nothing in progress, nothing wrong, and the backend was built
      for the very job that made this model active. */
  ghost predicate ReadyOk(cfg: Config, s: Sup) {
    && !s.locked && s.task == NoTask
    && s.active.Some? && s.lastError == None
    && s.jobs != [] && s.jobs[|s.jobs| - 1] == JobRecord(s.active.value, Succeeded)
    && s.backend.Some? && s.backend.value.job == |s.jobs| - 1
    && s.backend.value.spec.id == s.active.value && Catalogued(cfg, s.backend.value.spec)
  }

  /** The only edge ever refused is the last one, into `ready`, after a stale verdict. */
  ghost predicate EdgesInv(s: Sup) {
    && s.watchdog != Dead
    && (forall e :: e in s.illegal ==> e == (Error, Ready))
  }

  /** Loads carry strictly increasing jobs, and none belongs to a job that has yet to load. */
  ghost predicate CallsInv(s: Sup) {
    && (forall i, j :: 0 <= i < j < |s.calls| && s.calls[i].Load? && s.calls[j].Load? ==>
                         s.calls[i].job < s.calls[j].job)
    && (forall i :: 0 <= i < |s.calls| && s.calls[i].Load? ==> s.calls[i].job < LoadBound(s))
  }

  function LoadBound(s: Sup): int {
    if s.task.Live? && !Loaded(s.task.phase) then s.task.job else |s.jobs|
  }

  /** What was remembered for a restart did once become ready. */
  ghost predicate SavedInv(s: Sup) {
    s.saved.Some? ==> exists j :: 0 <= j < |s.jobs| && s.jobs[j] == JobRecord(s.saved.value, Succeeded)
  }

  function Streams(relays: seq<Relay>): nat {
    if relays == [] then 0
    else Streams(relays[..|relays| - 1]) + (if relays[|relays| - 1].phase == Streaming then 1 else 0)
  }

  /** The counter is the number of open streams, and whatever a relay read belongs to one model. */
  ghost predicate RelaysInv(cfg: Config, s: Sup) {
    && s.inFlight == Streams(s.relays)
    && (forall i :: 0 <= i < |s.relays| ==> Coherent(cfg, s.relays[i]))
  }

  ghost predicate Coherent(cfg: Config, r: Relay) {
    && r.url == r.headers
    && r.url.spec.id == r.requested
    && Catalogued(cfg, r.url.spec)
    && r.model == r.url.spec.modelRef
  }

  ghost predicate Inv(cfg: Config, s: Sup) {
    JobsInv(s) && TaskInv(cfg, s) && StateInv(cfg, s) && EdgesInv(s) && CallsInv(s) && SavedInv(s) && RelaysInv(cfg, s)
  }

  // ------------------------------------------------------- the invariant is kept

  lemma {:induction false} StreamsUpdate(relays: seq<Relay>, i: nat, r: Relay)
    requires i < |relays|
    ensures Streams(relays[i := r]) ==
            Streams(relays) - (if relays[i].phase == Streaming then 1 else 0) + (if r.phase == Streaming then 1 else 0)
  {
    var n := |relays| - 1;
    if i < n {
      assert relays[i := r][..n] == relays[..n][i := r];
      StreamsUpdate(relays[..n], i, r);
    } else {
      assert relays[i := r][..n] == relays[..n];
    }
  }

  lemma StreamsAppend(relays: seq<Relay>, r: Relay)
    ensures Streams(relays + [r]) == Streams(relays) + (if r.phase == Streaming then 1 else 0)
  {
    assert (relays + [r])[..|relays|] == relays;
  }

  lemma SavedKept(s: Sup, s': Sup)
    requires SavedInv(s) && s'.saved == s.saved && |s.jobs| <= |s'.jobs|
    requires forall j :: 0 <= j < |s.jobs| && s.jobs[j].status == Succeeded ==> s'.jobs[j] == s.jobs[j]
    ensures SavedInv(s')
  {
    if s.saved.Some? {
      var j :| 0 <= j < |s.jobs| && s.jobs[j] == JobRecord(s.saved.value, Succeeded);
      assert s'.jobs[j] == JobRecord(s'.saved.value, Succeeded);
    }
  }

  lemma EndFailedKeepsInv(cfg: Config, s: Sup, raised: Raised)
    requires JobsInv(s) && s.task.Live? && s.state != Idle && s.jobs != []
    requires EdgesInv(s) && CallsInv(s) && SavedInv(s) && RelaysInv(cfg, s)
    requires s.backend.Some? ==> BackendOk(cfg, s, s.backend.value)
    ensures var s' := EndFailed(s, s.task.job, raised);
            Inv(cfg, s') && s'.state == Error && s'.jobs[s.task.job].status == Failed && s'.illegal == s.illegal
  {
    var s' := EndFailed(s, s.task.job, raised);
    assert s.state != Error ==> CanTransition(s.state, Error);
    SavedKept(s, s');
  }

  lemma StartLoadKeepsInv(cfg: Config, s: Sup)
    requires s.task.Live? && Catalogued(cfg, s.task.spec)
    requires JobsInv(s) && EdgesInv(s) && CallsInv(s) && SavedInv(s) && RelaysInv(cfg, s)
    requires s.state in {Stopping, Error} && s.jobs != [] && s.backend == None && s.active == None
    requires s.state == Error ==> s.lastError.Some?
    requires s.pending == Some(s.task.spec.id) && !Loaded(s.task.phase)
    ensures Inv(cfg, StartLoad(cfg, s, s.task.spec, s.task.job))
    ensures StartLoad(cfg, s, s.task.spec, s.task.job).illegal == s.illegal
  {
    var Live(spec, job, _) := s.task;
    var s' := StartLoad(cfg, s, spec, job);
    if spec.backend !in cfg.backends {
      EndFailedKeepsInv(cfg, s, UNKNOWN_BACKEND);
    } else {
      assert CanTransition(s.state, Loading);
      SavedKept(s, s');
      assert s'.calls == s.calls + [Load(job)];
    }
  }

  lemma StopCurrentKeepsInv(cfg: Config, s: Sup)
    requires Inv(cfg, s) && s.task.Live? && (s.task.phase.AtStart? || s.task.phase.InDrain?)
    ensures Inv(cfg, StopCurrent(cfg, s, s.task.spec, s.task.job))
  {
    if s.backend.None? {
      StartLoadKeepsInv(cfg, s);
    } else {
      SavedKept(s, StopCurrent(cfg, s, s.task.spec, s.task.job));
    }
  }

  /** A load that comes up while the state is still `loading` ends in `ready`. */
  lemma FinishReady(cfg: Config, s: Sup, diskOk: bool)
    requires Inv(cfg, s) && s.task.Live? && s.task.phase.InPoll? && s.state == Loading
    ensures var s' := Finish(s, s.task.spec, s.task.job, diskOk);
            Inv(cfg, s') && s'.state == Ready && s'.illegal == s.illegal && s'.active == Some(s.task.spec.id)
  {
    var Live(spec, job, _) := s.task;
    var s' := Finish(s, spec, job, diskOk);
    assert s'.jobs == SetStatus(s.jobs, job, Succeeded);
    assert s'.jobs[job] == JobRecord(spec.id, Succeeded);
    if !diskOk {
      SavedKept(s, s');
    }
  }

  /** After a stale verdict the same load is refused its edge: the exception is absorbed, and the
      segment ends in `error` with a failed job, no active model and a free lock. */
  lemma FinishRefused(cfg: Config, s: Sup, diskOk: bool)
    requires Inv(cfg, s) && s.task.Live? && s.task.phase.InPoll? && s.state == Error
    ensures var s' := Finish(s, s.task.spec, s.task.job, diskOk);
            && Inv(cfg, s') && s'.state == Error && s'.illegal == s.illegal + [(Error, Ready)]
            && s'.active == None && s'.jobs[s.task.job].status == Failed && !s'.locked
  {
    var t := s.(active := Some(s.task.spec.id), lastError := None, pending := None);
    var refused := t.(illegal := t.illegal + [(Error, Ready)]);
    EndFailedKeepsInv(cfg, refused, ILLEGAL_TRANSITION);
  }

  lemma StartKeepsInv(cfg: Config, s: Sup, t: real)
    requires Inv(cfg, s) && s.task.Live? && s.task.phase.AtStart?
    ensures Inv(cfg, StepStart(cfg, s, t))
  {
    if s.inFlight <= 0 || cfg.drainTimeout <= 0.0 {
      StopCurrentKeepsInv(cfg, s);
    } else {
      SavedKept(s, StepStart(cfg, s, t));
    }
  }

  lemma DrainKeepsInv(cfg: Config, s: Sup, t: real)
    requires Inv(cfg, s) && s.task.Live? && s.task.phase.InDrain?
    ensures Inv(cfg, StepDrain(cfg, s, t))
  {
    if s.inFlight <= 0 || t >= s.task.phase.deadline {
      StopCurrentKeepsInv(cfg, s);
    } else {
      SavedKept(s, StepDrain(cfg, s, t));
    }
  }

  lemma StopKeepsInv(cfg: Config, s: Sup, error: Option<Raised>)
    requires Inv(cfg, s) && s.task.Live? && s.task.phase.InStop?
    ensures Inv(cfg, StepStop(s, error))
  {
    SavedKept(s, StepStop(s, error));
  }

  lemma ReleaseKeepsInv(cfg: Config, s: Sup, error: Option<Raised>)
    requires Inv(cfg, s) && s.task.Live? && s.task.phase.InRelease?
    ensures Inv(cfg, StepRelease(s, error))
  {
    SavedKept(s, StepRelease(s, error));
  }

  lemma CloseKeepsInv(cfg: Config, s: Sup, error: Option<Raised>)
    requires Inv(cfg, s) && s.task.Live? && s.task.phase.InClose?
    ensures Inv(cfg, StepClose(cfg, s, error))
  {
    if error.Some? {
      EndFailedKeepsInv(cfg, s, error.value);
    } else if s.task.phase.raised.Some? {
      EndFailedKeepsInv(cfg, s, s.task.phase.raised.value);
    } else {
      StartLoadKeepsInv(cfg, s.(previous := s.active, active := None));
    }
  }

  lemma LoadKeepsInv(cfg: Config, s: Sup, error: Option<Raised>, t: real)
    requires Inv(cfg, s) && s.task.Live? && s.task.phase.InLoad?
    ensures Inv(cfg, StepLoad(cfg, s, error, t))
  {
    if error.Some? {
      EndFailedKeepsInv(cfg, s, error.value);
    } else {
      SavedKept(s, StepLoad(cfg, s, error, t));
    }
  }

  lemma HealthKeepsInv(cfg: Config, s: Sup, healthy: bool, t: real, diskOk: bool)
    requires Inv(cfg, s) && s.task.Live? && s.task.phase.InPoll?
    ensures Inv(cfg, StepHealth(cfg, s, healthy, t, diskOk))
  {
    if healthy {
      if s.state == Error {
        FinishRefused(cfg, s, diskOk);
      } else {
        FinishReady(cfg, s, diskOk);
      }
    } else if t >= s.task.phase.deadline {
      EndFailedKeepsInv(cfg, s, NOT_READY);
    } else {
      SavedKept(s, StepHealth(cfg, s, healthy, t, diskOk));
    }
  }

  lemma ActivateKeepsInv(cfg: Config, s: Sup, id: ModelId)
    requires Inv(cfg, s)
    ensures Inv(cfg, StepActivate(cfg, s, id))
  {
    if ActivateAnswer(cfg, s, id) == Accepted {
      assert s.state in {Idle, Ready, Error};
      assert CanTransition(s.state, Stopping);
      SavedKept(s, StepActivate(cfg, s, id));
    }
  }

  lemma SampleKeepsInv(cfg: Config, s: Sup)
    requires Inv(cfg, s)
    ensures Inv(cfg, StepSample(s))
  {
    SavedKept(s, StepSample(s));
  }

  lemma VerdictKeepsInv(cfg: Config, s: Sup, healthy: bool)
    requires Inv(cfg, s) && s.watchdog.Asking?
    ensures Inv(cfg, StepVerdict(s, healthy))
  {
    if healthy {
      SavedKept(s, StepVerdict(s, healthy));
    } else {
      UnhealthyKeepsInv(cfg, s);
    }
  }

  lemma UnhealthyKeepsInv(cfg: Config, s: Sup)
    requires Inv(cfg, s) && s.watchdog.Asking?
    ensures Inv(cfg, StepVerdict(s, false))
  {
    assert s.state != Error ==> CanTransition(s.state, Error);
    var s' := s.(lastError := Some("the model backend stopped responding"), active := None, state := Error, watchdog := Asleep);
    assert StepVerdict(s, false) == s';
    SavedKept(s, s');
  }

  /** Coherent dispatch: a completion that passes the guard does so with no switch live, and what
      it then reads before its first await - the base URL, the upstream headers, the outgoing
      model name - all belongs to the one model it asked for. */
  lemma GuardPassesCoherently(cfg: Config, s: Sup, requested: ModelId)
    requires Inv(cfg, s) && Guard(cfg, s, requested) == Pass
    ensures !s.locked && s.task == NoTask
    ensures s.backend.Some? && s.backend.value.spec.id == requested
    ensures Coherent(cfg, Relay(requested, s.backend.value, s.backend.value, OutgoingModel(cfg, s.active, requested), Sent))
  {
  }

  lemma RelayFrame(cfg: Config, s: Sup, s': Sup)
    requires Inv(cfg, s) && s.state != Idle && RelaysInv(cfg, s')
    requires s' == s.(relays := s'.relays, inFlight := s'.inFlight)
    ensures Inv(cfg, s')
  {
    SavedKept(s, s');
  }

  lemma ArriveKeepsInv(cfg: Config, s: Sup, requested: ModelId)
    requires Inv(cfg, s)
    ensures Inv(cfg, StepRelayArrive(cfg, s, requested))
  {
    var s' := StepRelayArrive(cfg, s, requested);
    if s' != s {
      GuardPassesCoherently(cfg, s, requested);
      StreamsAppend(s.relays, s'.relays[|s.relays|]);
      RelayFrame(cfg, s, s');
    }
  }

  lemma RelayMoveKeepsInv(cfg: Config, s: Sup, i: nat)
    requires Inv(cfg, s) && i < |s.relays|
    ensures s.relays[i].phase == Sent ==> Inv(cfg, StepRelayStart(s, i))
    ensures Inv(cfg, StepRelayEnd(s, i))
  {
    StreamsUpdate(s.relays, i, s.relays[i].(phase := Streaming));
    StreamsUpdate(s.relays, i, s.relays[i].(phase := Closed));
    if s.relays[i].phase == Sent {
      RelayFrame(cfg, s, StepRelayStart(s, i));
    }
    RelayFrame(cfg, s, StepRelayEnd(s, i));
  }

  lemma StepKeepsInv(cfg: Config, s: Sup, e: Event)
    requires Inv(cfg, s) && Enabled(s, e)
    ensures Inv(cfg, Step(cfg, s, e))
  {
    if IsTaskEvent(e) {
      TaskKeepsInv(cfg, s, e);
    } else {
      OthersKeepInv(cfg, s, e);
    }
  }

  lemma TaskKeepsInv(cfg: Config, s: Sup, e: Event)
    requires Inv(cfg, s) && Enabled(s, e) && IsTaskEvent(e)
    ensures Inv(cfg, Step(cfg, s, e))
  {
    match e
    case TaskStart(t) => StartKeepsInv(cfg, s, t);
    case DrainTick(t) => DrainKeepsInv(cfg, s, t);
    case StopReturned(error) => StopKeepsInv(cfg, s, error);
    case ReleaseReturned(error) => ReleaseKeepsInv(cfg, s, error);
    case CloseReturned(error) => CloseKeepsInv(cfg, s, error);
    case LoadReturned(error, t) => LoadKeepsInv(cfg, s, error, t);
    case HealthReturned(healthy, t, diskOk) => HealthKeepsInv(cfg, s, healthy, t, diskOk);
  }

  lemma OthersKeepInv(cfg: Config, s: Sup, e: Event)
    requires Inv(cfg, s) && Enabled(s, e) && !IsTaskEvent(e)
    ensures Inv(cfg, Step(cfg, s, e))
  {
    match e
    case Activate(id) => ActivateKeepsInv(cfg, s, id);
    case WatchSample => SampleKeepsInv(cfg, s);
    case WatchVerdict(healthy) => VerdictKeepsInv(cfg, s, healthy);
    case RelayArrive(requested) => ArriveKeepsInv(cfg, s, requested);
    case RelayStart(i) => RelayMoveKeepsInv(cfg, s, i);
    case RelayEnd(i) => RelayMoveKeepsInv(cfg, s, i);
  }

  lemma {:induction false} RunKeepsInv(cfg: Config, s: Sup, events: seq<Event>)
    requires Inv(cfg, s) && Run(cfg, s, events).Some?
    ensures Inv(cfg, Run(cfg, s, events).value)
    decreases |events|
  {
    if events != [] {
      StepKeepsInv(cfg, s, events[0]);
      RunKeepsInv(cfg, Step(cfg, s, events[0]), events[1..]);
    }
  }

  /** Every state any interleaving can reach satisfies the whole invariant. */
  lemma ReachableInv(cfg: Config, s: Sup)
    requires Reachable(cfg, s)
    ensures Inv(cfg, s)
  {
    var events :| Run(cfg, Init(), events) == Some(s);
    RunKeepsInv(cfg, Init(), events);
  }
}
