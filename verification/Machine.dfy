/** The supervisor as an interleaved state machine (`supervisor/supervisor.py`, with the guard and
    the relay counter of `proxy.py`). Everything between two awaits is one atomic step, so an
    interleaving of the actors is a sequence of `Event`s. What the outside world answers (a backend
    call returning or raising, a health poll, a clock reading) is carried by the event. */
module SupervisorMachine {
  import opened Prelude
  import opened ModelStates
  import opened Catalogs
  import opened Jobs

  const DRAIN_POLL_INTERVAL: real := 0.1
  const UNLOAD_TIMEOUT: real := 30.0

  type PositiveSeconds = r: real | r > 0.0 witness 1.0

  datatype Config = Config(
    catalog: Catalog,
    backends: set<string>,
    drainTimeout: real,
    loadTimeout: real,
    pollInterval: PositiveSeconds)

  /** A backend instance: built once, for one job, from that job's spec. */
  datatype Backend = Backend(spec: ModelSpec, job: nat)

  /** What a call raised: a `BackendError` or a timeout, or anything else. */
  datatype Raised = BackendFailed(text: string) | Unexpected(text: string)

  /** What `last_error` says about it. */
  function Message(r: Raised): string {
    if r.BackendFailed? then r.text else "unexpected error: " + r.text
  }

  const UNKNOWN_BACKEND := BackendFailed("unknown backend")
  const NOT_READY := BackendFailed("not ready in time")
  const ILLEGAL_TRANSITION := Unexpected("illegal state transition")

  /** Where the activation task is suspended. */
  datatype Phase =
    | AtStart
    | InDrain(deadline: real, wake: real)
    | InStop(outgoing: Backend)
    | InRelease(outgoing: Backend)
    | InClose(outgoing: Backend, raised: Option<Raised>)
    | InLoad
    | InPoll(deadline: real, wake: real)

  datatype Task = NoTask | Live(spec: ModelSpec, job: nat, phase: Phase)

  /** The watchdog: asleep, awaiting a health answer it asked for, or killed by an exception. */
  datatype Watchdog = Asleep | Asking(backend: Backend) | Dead

  /** A dispatched completion, with what it read from the supervisor before its first await.
      Only a relay whose stream has started is counted. */
  datatype RelayPhase = Sent | Streaming | Closed
  datatype Relay = Relay(requested: ModelId, url: Backend, headers: Backend, model: string, phase: RelayPhase)

  /** Calls that load or unload weights. */
  datatype BackendCall = Load(job: nat) | Unload(job: nat)

  datatype Sup = Sup(
    state: ModelState,
    active: Option<ModelId>,
    previous: Option<ModelId>,
    pending: Option<ModelId>,
    lastError: Option<string>,
    saved: Option<ModelId>,
    locked: bool,
    jobs: seq<JobRecord>,
    backend: Option<Backend>,
    task: Task,
    watchdog: Watchdog,
    inFlight: int,
    relays: seq<Relay>,
    calls: seq<BackendCall>,
    illegal: seq<(ModelState, ModelState)>)

  function Init(): Sup {
    Sup(Idle, None, None, None, None, None, false, [], None, NoTask, Asleep, 0, [], [], [])
  }

  datatype Event =
    | Activate(id: ModelId)
    | TaskStart(t: real)
    | DrainTick(t: real)
    | StopReturned(error: Option<Raised>)
    | ReleaseReturned(error: Option<Raised>)
    | CloseReturned(error: Option<Raised>)
    | LoadReturned(error: Option<Raised>, t: real)
    | HealthReturned(healthy: bool, t: real, diskOk: bool)
    | WatchSample
    | WatchVerdict(healthy: bool)
    | RelayArrive(requested: ModelId)
    | RelayStart(i: nat)
    | RelayEnd(i: nat)

  // ------------------------------------------------------------ state changes

  /** Everything `_fail` and the end of a task leave alone. */
  predicate SameOutside(s: Sup, s': Sup) {
    s'.backend == s.backend && s'.calls == s.calls && s'.watchdog == s.watchdog
    && s'.relays == s.relays && s'.inFlight == s.inFlight
  }

  /** `_transition`: the second component is false when `IllegalTransitionError` was raised. */
  function Transition(s: Sup, target: ModelState): (Sup, bool) {
    if CanTransition(s.state, target) then (s.(state := target), true)
    else (s.(illegal := s.illegal + [(s.state, target)]), false)
  }

  /** `_fail` */
  function Fail(s: Sup, message: string): (Sup, bool) {
    var s := s.(lastError := Some(message), active := None);
    if s.state == Error then (s, true) else Transition(s, Error)
  }

  function SetStatus(jobs: seq<JobRecord>, j: nat, status: JobStatus): seq<JobRecord> {
    if j < |jobs| then jobs[j := jobs[j].(status := status)] else jobs
  }

  /** The `except` arms and the `finally` of `_activation_task`. */
  function EndFailed(s: Sup, job: nat, raised: Raised): (r: Sup)
    ensures SameOutside(s, r) && r.task == NoTask && !r.locked
  {
    var (s, ok) := Fail(s, Message(raised));
    var s := if ok then s.(jobs := SetStatus(s.jobs, job, Failed)) else s;
    s.(locked := false, task := NoTask)
  }

  /** From a healthy poll to the released lock: one segment without an await. */
  function Finish(s: Sup, spec: ModelSpec, job: nat, diskOk: bool): (r: Sup)
    ensures SameOutside(s, r) && r.task == NoTask && !r.locked
  {
    var s := s.(active := Some(spec.id), lastError := None, pending := None);
    var (s, ok) := Transition(s, Ready);
    if !ok then
      EndFailed(s, job, ILLEGAL_TRANSITION)
    else
      s.(saved := if diskOk then Some(spec.id) else s.saved,
         jobs := SetStatus(s.jobs, job, Succeeded),
         locked := false,
         task := NoTask)
  }

  /** Build the new backend, enter `loading`, and issue the load. */
  function StartLoad(cfg: Config, s: Sup, spec: ModelSpec, job: nat): Sup {
    if spec.backend !in cfg.backends then
      EndFailed(s, job, UNKNOWN_BACKEND)
    else
      var (s, ok) := Transition(s.(backend := Some(Backend(spec, job))), Loading);
      if !ok then
        EndFailed(s, job, ILLEGAL_TRANSITION)
      else
        s.(calls := s.calls + [Load(job)], task := Live(spec, job, InLoad))
  }

  /** The first segment of `_stop_current`: give the backend up, then ask it to stop. */
  function StopCurrent(cfg: Config, s: Sup, spec: ModelSpec, job: nat): Sup {
    match s.backend
    case None => StartLoad(cfg, s, spec, job)
    case Some(outgoing) =>
      s.(backend := None, calls := s.calls + [Unload(outgoing.job)], task := Live(spec, job, InStop(outgoing)))
  }

  // ---------------------------------------------------------------- requests

  datatype Answer = UnknownModel | InProgress | AlreadyActive | Accepted

  function ActivateAnswer(cfg: Config, s: Sup, id: ModelId): Answer {
    if cfg.catalog.Get(id).None? then UnknownModel
    else if s.locked then InProgress
    else if s.active == Some(id) && s.state == Ready then AlreadyActive
    else Accepted
  }

  /** Take the lock, create the running job, refuse completions from here on, start the activation. */
  function BeginSwitch(s: Sup, spec: ModelSpec): Sup {
    var job := |s.jobs|;
    var (s, ok) := Transition(s.(locked := true, jobs := s.jobs + [JobRecord(spec.id, Running)]), Stopping);
    if ok then s.(pending := Some(spec.id), task := Live(spec, job, AtStart)) else s
  }

  function StepActivate(cfg: Config, s: Sup, id: ModelId): Sup {
    if ActivateAnswer(cfg, s, id) != Accepted then s else BeginSwitch(s, cfg.catalog.Get(id).value)
  }

  datatype Verdict = Pass | ModelLoading(retryAfter: nat) | NotActive | Mismatch

  /** Python's `x or y` on an optional string: the empty string counts as absent. */
  function Or(x: Option<string>, y: string): string {
    if x.Some? && x.value != "" then x.value else y
  }

  function EstimatedSeconds(cfg: Config, id: ModelId): nat {
    match cfg.catalog.Get(id)
    case Some(spec) => spec.estimate
    case None => 0
  }

  /** `guard_state`, as a function of what it reads. */
  function GuardOn(cfg: Config, state: ModelState, active: Option<ModelId>, pending: Option<ModelId>, requested: ModelId): Verdict {
    if IsSwitching(state) then
      var estimate := EstimatedSeconds(cfg, Or(pending, Or(active, "")));
      ModelLoading(if estimate != 0 then estimate else 10)
    else if state != Ready || active.None? then NotActive
    else if requested != active.value then Mismatch
    else Pass
  }

  function Guard(cfg: Config, s: Sup, requested: ModelId): Verdict {
    GuardOn(cfg, s.state, s.active, s.pending, requested)
  }

  /** `active_model_ref or body["model"]` */
  function OutgoingModel(cfg: Config, active: Option<ModelId>, requested: ModelId): string {
    match active
    case None => requested
    case Some(id) =>
      match cfg.catalog.Get(id)
      case None => requested
      case Some(spec) => Or(Some(spec.modelRef), requested)
  }

  function StepRelayArrive(cfg: Config, s: Sup, requested: ModelId): Sup {
    if Guard(cfg, s, requested) != Pass || s.backend.None? then s
    else
      var b := s.backend.value;
      s.(relays := s.relays + [Relay(requested, b, b, OutgoingModel(cfg, s.active, requested), Sent)])
  }

  function SetRelay(relays: seq<Relay>, i: nat, phase: RelayPhase): seq<Relay>
    requires i < |relays|
  {
    relays[i := relays[i].(phase := phase)]
  }

  /** Entering `track_request()`. */
  function StepRelayStart(s: Sup, i: nat): Sup
    requires i < |s.relays|
  {
    s.(relays := SetRelay(s.relays, i, Streaming), inFlight := s.inFlight + 1)
  }

  /** However a relay ends, leaving `track_request()` undoes exactly what entering it did. */
  function StepRelayEnd(s: Sup, i: nat): Sup
    requires i < |s.relays|
  {
    s.(relays := SetRelay(s.relays, i, Closed),
       inFlight := if s.relays[i].phase == Streaming then s.inFlight - 1 else s.inFlight)
  }

  // ---------------------------------------------------------------- watchdog

  function StepSample(s: Sup): Sup {
    if s.state == Ready && s.backend.Some? then s.(watchdog := Asking(s.backend.value)) else s
  }

  function StepVerdict(s: Sup, healthy: bool): Sup {
    if healthy then s.(watchdog := Asleep)
    else
      var (s, ok) := Fail(s, "the model backend stopped responding");
      s.(watchdog := if ok then Asleep else Dead)
  }

  // ----------------------------------------------------------------- the steps

  /** When an event can happen: its actor is suspended there, and a sleep lasts at least as asked. */
  predicate Enabled(s: Sup, e: Event) {
    match e
    case Activate(_) => true
    case TaskStart(_) => s.task.Live? && s.task.phase.AtStart?
    case DrainTick(t) => s.task.Live? && s.task.phase.InDrain? && t >= s.task.phase.wake
    case StopReturned(_) => s.task.Live? && s.task.phase.InStop?
    case ReleaseReturned(_) => s.task.Live? && s.task.phase.InRelease?
    case CloseReturned(_) => s.task.Live? && s.task.phase.InClose?
    case LoadReturned(_, _) => s.task.Live? && s.task.phase.InLoad?
    case HealthReturned(_, t, _) => s.task.Live? && s.task.phase.InPoll? && t >= s.task.phase.wake
    case WatchSample => s.watchdog.Asleep?
    case WatchVerdict(_) => s.watchdog.Asking?
    case RelayArrive(_) => true
    case RelayStart(i) => i < |s.relays| && s.relays[i].phase == Sent
    case RelayEnd(i) => i < |s.relays| && s.relays[i].phase != Closed
  }

  /** `while self._in_flight > 0`: one turn, up to the sleep or the way out. */
  function DrainTurn(cfg: Config, s: Sup, deadline: real, t: real): Sup
    requires s.task.Live?
  {
    if s.inFlight <= 0 || t >= deadline then StopCurrent(cfg, s, s.task.spec, s.task.job)
    else s.(task := Live(s.task.spec, s.task.job, InDrain(deadline, t + DRAIN_POLL_INTERVAL)))
  }

  function StepStart(cfg: Config, s: Sup, t: real): Sup
    requires s.task.Live?
  {
    DrainTurn(cfg, s, t + cfg.drainTimeout, t)
  }

  function StepDrain(cfg: Config, s: Sup, t: real): Sup
    requires s.task.Live? && s.task.phase.InDrain?
  {
    DrainTurn(cfg, s, s.task.phase.deadline, t)
  }

  function StepStop(s: Sup, error: Option<Raised>): Sup
    requires s.task.Live? && s.task.phase.InStop?
  {
    var Live(spec, job, phase) := s.task;
    s.(task := Live(spec, job, if error.Some? then InClose(phase.outgoing, error) else InRelease(phase.outgoing)))
  }

  function StepRelease(s: Sup, error: Option<Raised>): Sup
    requires s.task.Live? && s.task.phase.InRelease?
  {
    var Live(spec, job, phase) := s.task;
    s.(task := Live(spec, job, InClose(phase.outgoing, error)))
  }

  function StepClose(cfg: Config, s: Sup, error: Option<Raised>): Sup
    requires s.task.Live? && s.task.phase.InClose?
  {
    var Live(spec, job, phase) := s.task;
    if error.Some? then EndFailed(s, job, error.value)
    else if phase.raised.Some? then EndFailed(s, job, phase.raised.value)
    else StartLoad(cfg, s.(previous := s.active, active := None), spec, job)
  }

  function StepLoad(cfg: Config, s: Sup, error: Option<Raised>, t: real): Sup
    requires s.task.Live?
  {
    var Live(spec, job, _) := s.task;
    if error.Some? then EndFailed(s, job, error.value)
    else s.(task := Live(spec, job, InPoll(t + cfg.loadTimeout, t)))
  }

  /** Give up once the deadline has passed; until then sleep, but never past it. */
  function NotHealthyYet(cfg: Config, s: Sup, deadline: real, t: real): Sup
    requires s.task.Live?
  {
    if t >= deadline then EndFailed(s, s.task.job, NOT_READY)
    else s.(task := Live(s.task.spec, s.task.job, InPoll(deadline, t + Min(cfg.pollInterval, deadline - t))))
  }

  function StepHealth(cfg: Config, s: Sup, healthy: bool, t: real, diskOk: bool): Sup
    requires s.task.Live? && s.task.phase.InPoll?
  {
    if healthy then Finish(s, s.task.spec, s.task.job, diskOk)
    else NotHealthyYet(cfg, s, s.task.phase.deadline, t)
  }

  /** A resumption of the activation task, as opposed to one of the other actors. */
  predicate IsTaskEvent(e: Event) {
    e.TaskStart? || e.DrainTick? || e.StopReturned? || e.ReleaseReturned? || e.CloseReturned?
    || e.LoadReturned? || e.HealthReturned?
  }

  function Step(cfg: Config, s: Sup, e: Event): Sup
    requires Enabled(s, e)
  {
    match e
    case Activate(id) => StepActivate(cfg, s, id)
    case TaskStart(t) => StepStart(cfg, s, t)
    case DrainTick(t) => StepDrain(cfg, s, t)
    case StopReturned(error) => StepStop(s, error)
    case ReleaseReturned(error) => StepRelease(s, error)
    case CloseReturned(error) => StepClose(cfg, s, error)
    case LoadReturned(error, t) => StepLoad(cfg, s, error, t)
    case HealthReturned(healthy, t, diskOk) => StepHealth(cfg, s, healthy, t, diskOk)
    case WatchSample => StepSample(s)
    case WatchVerdict(healthy) => StepVerdict(s, healthy)
    case RelayArrive(requested) => StepRelayArrive(cfg, s, requested)
    case RelayStart(i) => StepRelayStart(s, i)
    case RelayEnd(i) => StepRelayEnd(s, i)
  }

  /** The state after a run, or `None` when some event could not have happened. */
  function Run(cfg: Config, s: Sup, events: seq<Event>): Option<Sup>
    decreases |events|
  {
    if events == [] then Some(s)
    else if Enabled(s, events[0]) then Run(cfg, Step(cfg, s, events[0]), events[1..])
    else None
  }

  ghost predicate Reachable(cfg: Config, s: Sup) {
    exists events :: Run(cfg, Init(), events) == Some(s)
  }
}
