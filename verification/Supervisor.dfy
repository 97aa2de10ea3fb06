/** The supervisor itself (`supervisor/supervisor.py`): its fields, and a method for each stretch
    of code between two awaits, proved to do exactly what the state machine's step does. */
module Supervisors {
  import opened Prelude
  import opened ModelStates
  import opened Catalogs
  import opened Jobs
  import opened LogBuffers
  import opened SupervisorMachine
  import opened SupervisorInvariant
  import opened SupervisorRuns
  import M = SupervisorMachine

  /** Each job object shows its record. */
  ghost predicate Mirrors(log: seq<Job>, records: seq<JobRecord>)
    reads log
  {
    && |log| == |records|
    && (forall i :: 0 <= i < |log| ==> log[i].Record() == records[i])
  }

  /** Jobs numbered one after the other are distinct objects. */
  lemma OthersAreOthers(log: seq<Job>, k: nat)
    requires Numbered(log) && k < |log|
    ensures forall i :: 0 <= i < |log| && i != k ==> log[i] != log[k]
  {
    forall i | 0 <= i < |log| && i != k
      ensures log[i] != log[k]
    {
      JobIdsDiffer(i + 1, k + 1);
    }
  }

  /** A live activation's local `job` is the one its lock was taken for. */
  ghost predicate Owns(log: seq<Job>, task: Task, job: Job?) {
    task.Live? ==> task.job < |log| && job == log[task.job]
  }

  lemma PassesExactly(cfg: Config, s: Sup, requested: ModelId)
    requires Reachable(cfg, s)
    ensures Guard(cfg, s, requested) == Pass && s.backend.Some? <==> s.state == Ready && s.active == Some(requested)
    ensures Guard(cfg, s, requested) == Pass && s.backend.Some? ==>
              && !s.locked
              && Coherent(cfg, Relay(requested, s.backend.value, s.backend.value, M.OutgoingModel(cfg, s.active, requested), Sent))
  {
    ReachableInv(cfg, s);
  }

  datatype ActivateResult = Unknown | Busy | Already | Started(job: Job)

  class Supervisor {
    const cfg: Config
    const registry: JobRegistry
    const logbuf: LogBuffer

    var state: ModelState
    var activeModelId: Option<ModelId>
    var previousModelId: Option<ModelId>
    var pendingModelId: Option<ModelId>
    var lastError: Option<string>
    var lastModelFile: Option<ModelId>
    var locked: bool
    var backend: Option<Backend>
    var inFlight: int

    // The suspended coroutines: where each is, and its locals.
    var task: Task
    var job: Job?
    var watchdog: Watchdog
    var relays: seq<Relay>

    // What the runs are about, but no code reads; `records` mirrors every job ever created.
    ghost var records: seq<JobRecord>
    ghost var calls: seq<BackendCall>
    ghost var illegal: seq<(ModelState, ModelState)>

    /** The objects agree with the records kept about them. All that the parts of a segment need. */
    ghost predicate Wired()
      reads this, registry, registry.Log, logbuf
    {
      registry.Valid() && logbuf.Valid() && Mirrors(registry.Log, records) && Owns(registry.Log, task, job)
    }

    /** And what the object shows is a state that some interleaving reaches. */
    ghost predicate Valid()
      reads this, registry, registry.Log, logbuf
    {
      Wired() && Reachable(cfg, View())
    }

    /** What a caller may rely on between any two segments. */
    ghost predicate Promises()
      reads this
    {
      && (locked <==> task.Live?)
      && (state == Stopping || state == Loading ==> locked)
      && (state == Ready ==> ReadyOk(cfg, View()))
      && (state == Error ==> activeModelId == None && lastError.Some?)
      && inFlight == Streams(relays)
      && watchdog != Dead
    }

    /** A whole segment that did what the machine's step does has kept all of it. */
    lemma Settle(was: Sup, e: Event)
      requires Wired() && Reachable(cfg, was) && Enabled(was, e) && View() == Step(cfg, was, e)
      ensures Valid() && Promises()
    {
      var s := ReachableStep(cfg, was, e);
      Kept();
    }

    lemma Kept()
      requires Valid()
      ensures Promises()
    {
      ReachableInv(cfg, View());
    }

    ghost function View(): Sup
      reads this
    {
      Sup(state, activeModelId, previousModelId, pendingModelId, lastError, lastModelFile, locked,
          records, backend, task, watchdog, inFlight, relays, calls, illegal)
    }

    constructor (cfg: Config, logbuf: LogBuffer)
      requires logbuf.Valid()
      ensures Valid() && View() == Init() && Promises()
      ensures this.cfg == cfg && this.logbuf == logbuf && fresh(registry)
    {
      this.cfg, this.logbuf := cfg, logbuf;
      registry := new JobRegistry();
      state := Idle;
      activeModelId, previousModelId, pendingModelId, lastError, lastModelFile := None, None, None, None, None;
      locked, backend, inFlight := false, None, 0;
      task, job, watchdog := NoTask, null, Asleep;
      records, relays, calls, illegal := [], [], [], [];
      new;
      InitReachable(cfg);
    }

    // ------------------------------------------------------------ state changes

    /** False where the source raises `IllegalTransitionError`. */
    method Transition(target: ModelState) returns (ok: bool)
      requires Wired()
      modifies this`state, this`illegal
      ensures Wired()
      ensures (View(), ok) == M.Transition(old(View()), target)
    {
      if !CanTransition(state, target) {
        illegal := illegal + [(state, target)];
        return false;
      }
      state := target;
      return true;
    }

    method Fail(message: string) returns (ok: bool)
      requires Wired()
      modifies this`state, this`illegal, this`lastError, this`activeModelId
      ensures Wired()
      ensures (View(), ok) == M.Fail(old(View()), message)
    {
      lastError := Some(message);
      activeModelId := None;
      ok := true;
      if state != Error {
        ok := Transition(Error);
      }
    }

    // --------------------------------------------------------------------- jobs

    method CreateJob(modelId: ModelId) returns (created: Job)
      requires Wired()
      modifies registry, this`records
      ensures Wired() && records == old(records) + [JobRecord(modelId, Running)]
      ensures registry.Log == old(registry.Log) + [created]
      ensures |registry.Log| == |records| == registry.counter - 1
    {
      created := registry.Create(modelId);
      created.Start();
      records := records + [JobRecord(modelId, Running)];
    }

    /** A failed job keeps the exception's own text, and takes the last lines of the log with it. */
    method JobFails(raised: Raised)
      requires Wired() && task.Live?
      modifies job, this`records
      ensures Wired() && records == SetStatus(old(records), task.job, Failed)
      ensures job.error == Some(raised.text) && job.logTail == Last(logbuf.Log, Requestable(20, logbuf.capacity))
    {
      OthersAreOthers(registry.Log, task.job);
      var lines := logbuf.Tail(20);
      job.Fail(raised.text, lines);
      records := SetStatus(records, task.job, Failed);
    }

    method JobSucceeds()
      requires Wired() && task.Live?
      modifies job, this`records
      ensures Wired() && records == SetStatus(old(records), task.job, Succeeded)
    {
      OthersAreOthers(registry.Log, task.job);
      job.Succeed();
      records := SetStatus(records, task.job, Succeeded);
    }

    /** The `except` arms and the `finally` of `_activation_task`. */
    method ActivationFailed(raised: Raised)
      requires Wired() && task.Live?
      modifies this, job
      ensures Wired() && View() == M.EndFailed(old(View()), old(task.job), raised)
      ensures old(state) != Idle ==> old(job).error == Some(raised.text)
    {
      var ok := Fail(Message(raised));
      if ok {
        JobFails(raised);
      }
      EndTask();
    }

    /** The activation is over and gives the lock back. */
    method EndTask()
      requires Wired()
      modifies this`locked, this`task
      ensures Wired() && View() == old(View()).(locked := false, task := NoTask)
    {
      locked := false;
      task := NoTask;
    }

    // --------------------------------------------------------------- activation

    method Activate(modelId: ModelId) returns (r: ActivateResult)
      requires Valid()
      modifies this, registry
      ensures Valid() && Promises() && View() == Step(cfg, old(View()), Event.Activate(modelId))
      ensures r == Unknown <==> cfg.catalog.Get(modelId) == None
      ensures r == Busy <==> cfg.catalog.Get(modelId).Some? && old(locked)
      ensures r == Already <==> old(state) == Ready && old(activeModelId) == Some(modelId)
      ensures !r.Started? ==> View() == old(View())
      ensures r.Started? ==> locked && state == Stopping && pendingModelId == Some(modelId)
      ensures r.Started? ==> registry.Log == old(registry.Log) + [r.job]
    {
      ghost var was := View();
      ActivateIsAnswered(cfg, was, modelId);
      r := Request(modelId);
      Settle(was, Event.Activate(modelId));
    }

    method Request(modelId: ModelId) returns (r: ActivateResult)
      requires Wired()
      modifies this, registry
      ensures Wired() && View() == StepActivate(cfg, old(View()), modelId)
      ensures match ActivateAnswer(cfg, old(View()), modelId)
              case UnknownModel => r == Unknown
              case InProgress => r == Busy
              case AlreadyActive => r == Already
              case Accepted => r.Started? && registry.Log == old(registry.Log) + [r.job]
    {
      var spec := cfg.catalog.Get(modelId);
      if spec.None? {
        return Unknown;
      }
      if locked {
        return Busy;
      }
      if activeModelId == Some(modelId) && state == Ready {
        return Already;
      }
      var created := BeginSwitch(spec.value);
      return Started(created);
    }

    /** Take the lock, create the job, and refuse completions from here on. */
    method BeginSwitch(spec: ModelSpec) returns (created: Job)
      requires Wired()
      modifies this, registry
      ensures Wired() && registry.Log == old(registry.Log) + [created]
      ensures View() == M.BeginSwitch(old(View()), spec)
    {
      created := TakeLock(spec);
      var ok := Transition(Stopping);
      if ok {
        StartTask(spec, created);
      }
    }

    method TakeLock(spec: ModelSpec) returns (created: Job)
      requires Wired()
      modifies this`locked, this`records, registry
      ensures Wired() && registry.Log == old(registry.Log) + [created]
      ensures |registry.Log| == registry.counter - 1 == |old(records)| + 1
      ensures View() == old(View()).(locked := true, jobs := old(records) + [JobRecord(spec.id, Running)])
    {
      locked := true;
      created := CreateJob(spec.id);
    }

    /** `asyncio.create_task`: the coroutine's locals, suspended before its first line. */
    method StartTask(spec: ModelSpec, created: Job)
      requires Wired() && registry.Log != [] && created == registry.Log[|registry.Log| - 1]
      requires |registry.Log| == registry.counter - 1
      modifies this`pendingModelId, this`job, this`task
      ensures Wired()
      ensures View() == old(View()).(pending := Some(spec.id), task := Live(spec, |registry.Log| - 1, AtStart))
    {
      assert registry.counter - 2 == |registry.Log| - 1;
      pendingModelId := Some(spec.id);
      job := created;
      task := Live(spec, registry.counter - 2, AtStart);
    }

    method TaskStart(now: real)
      requires Wired() && task.Live? && task.phase.AtStart?
      modifies this, job
      ensures Wired() && View() == StepStart(cfg, old(View()), now)
    {
      if inFlight == 0 {
        assert M.DrainTurn(cfg, View(), now + cfg.drainTimeout, now) == M.StopCurrent(cfg, View(), task.spec, task.job);
        StopCurrent();
      } else {
        DrainLoop(now + cfg.drainTimeout, now);
      }
    }

    method DrainTick(now: real)
      requires Wired() && task.Live? && task.phase.InDrain? && now >= task.phase.wake
      modifies this, job
      ensures Wired() && View() == StepDrain(cfg, old(View()), now)
    {
      DrainLoop(task.phase.deadline, now);
    }

    method DrainLoop(deadline: real, now: real)
      requires Wired() && task.Live?
      modifies this, job
      ensures Wired() && View() == M.DrainTurn(cfg, old(View()), deadline, now)
    {
      if inFlight > 0 && now < deadline {
        task := Live(task.spec, task.job, InDrain(deadline, now + DRAIN_POLL_INTERVAL));
      } else {
        StopCurrent();
      }
    }

    method StopCurrent()
      requires Wired() && task.Live?
      modifies this, job
      ensures Wired() && View() == M.StopCurrent(cfg, old(View()), old(task.spec), old(task.job))
    {
      var outgoing := backend;
      backend := None;
      if outgoing.None? {
        StartLoad();
      } else {
        calls := calls + [Unload(outgoing.value.job)];
        task := Live(task.spec, task.job, InStop(outgoing.value));
      }
    }

    method StopReturned(error: Option<Raised>)
      requires Wired() && task.Live? && task.phase.InStop?
      modifies this
      ensures Wired() && View() == StepStop(old(View()), error)
    {
      var outgoing := task.phase.outgoing;
      var next := if error.Some? then InClose(outgoing, error) else InRelease(outgoing);
      task := Live(task.spec, task.job, next);
    }

    method ReleaseReturned(error: Option<Raised>)
      requires Wired() && task.Live? && task.phase.InRelease?
      modifies this
      ensures Wired() && View() == StepRelease(old(View()), error)
    {
      task := Live(task.spec, task.job, InClose(task.phase.outgoing, error));
    }

    method CloseReturned(error: Option<Raised>)
      requires Wired() && task.Live? && task.phase.InClose?
      modifies this, job
      ensures Wired() && View() == StepClose(cfg, old(View()), error)
      ensures error.Some? && old(state) != Idle ==> old(job).error == Some(error.value.text)
    {
      var raised := if error.Some? then error else task.phase.raised;
      if raised.Some? {
        ActivationFailed(raised.value);
        return;
      }
      previousModelId := activeModelId;
      activeModelId := None;
      StartLoad();
    }

    method StartLoad()
      requires Wired() && task.Live?
      modifies this, job
      ensures Wired() && View() == M.StartLoad(cfg, old(View()), old(task.spec), old(task.job))
    {
      if task.spec.backend !in cfg.backends {
        ActivationFailed(UNKNOWN_BACKEND);
        return;
      }
      backend := Some(Backend(task.spec, task.job));
      ghost var built := View();
      assert built == old(View()).(backend := Some(Backend(task.spec, task.job)));
      var ok := Transition(Loading);
      if !ok {
        ActivationFailed(ILLEGAL_TRANSITION);
        return;
      }
      IssueLoad();
    }

    method IssueLoad()
      requires Wired() && task.Live?
      modifies this`calls, this`task
      ensures Wired()
      ensures View() == old(View()).(calls := old(calls) + [Load(old(task.job))], task := Live(old(task.spec), old(task.job), InLoad))
    {
      calls := calls + [Load(task.job)];
      task := Live(task.spec, task.job, InLoad);
    }

    method LoadReturned(error: Option<Raised>, now: real)
      requires Wired() && task.Live? && task.phase.InLoad?
      modifies this, job
      ensures Wired() && View() == StepLoad(cfg, old(View()), error, now)
      ensures error.Some? && old(state) != Idle ==> old(job).error == Some(error.value.text)
    {
      if error.Some? {
        ActivationFailed(error.value);
        return;
      }
      task := Live(task.spec, task.job, InPoll(now + cfg.loadTimeout, now));
    }

    method HealthReturned(healthy: bool, now: real, diskOk: bool)
      requires Wired() && task.Live? && task.phase.InPoll? && now >= task.phase.wake
      modifies this, job
      ensures Wired() && View() == StepHealth(cfg, old(View()), healthy, now, diskOk)
    {
      if healthy {
        Finish(diskOk);
      } else {
        NotHealthyYet(task.phase.deadline, now);
      }
    }

    method NotHealthyYet(deadline: real, now: real)
      requires Wired() && task.Live?
      modifies this, job
      ensures Wired()
      ensures View() == M.NotHealthyYet(cfg, old(View()), deadline, now)
    {
      if now >= deadline {
        ActivationFailed(NOT_READY);
      } else {
        task := Live(task.spec, task.job, InPoll(deadline, now + Min(cfg.pollInterval, deadline - now)));
      }
    }

    method Finish(diskOk: bool)
      requires Wired() && task.Live?
      modifies this, job
      ensures Wired() && View() == M.Finish(old(View()), old(task.spec), old(task.job), diskOk)
    {
      var ok := Announce();
      if !ok {
        ActivationFailed(ILLEGAL_TRANSITION);
        return;
      }
      PersistLastModel(task.spec.id, diskOk);
      Conclude();
    }

    /** Losing this to an `OSError` costs a restart's convenience and nothing else. */
    method PersistLastModel(modelId: ModelId, diskOk: bool)
      requires Wired()
      modifies this`lastModelFile
      ensures Wired()
      ensures View() == old(View()).(saved := if diskOk then Some(modelId) else old(lastModelFile))
    {
      if diskOk {
        lastModelFile := Some(modelId);
      }
    }

    /** The `else` and the `finally` of `_activation_task`. */
    method Conclude()
      requires Wired() && task.Live?
      modifies this`records, this`locked, this`task, job
      ensures Wired()
      ensures View() == old(View()).(jobs := SetStatus(old(records), old(task.job), Succeeded), locked := false, task := NoTask)
    {
      JobSucceeds();
      EndTask();
    }

    method Announce() returns (ok: bool)
      requires Wired() && task.Live?
      modifies this
      ensures Wired() && unchanged(`task, `job, `locked, `records, `lastModelFile)
      ensures (View(), ok) ==
              M.Transition(old(View()).(active := Some(task.spec.id), lastError := None, pending := None), Ready)
    {
      activeModelId := Some(task.spec.id);
      lastError := None;
      pendingModelId := None;
      ok := Transition(Ready);
    }

    // ----------------------------------------------------------------- watchdog

    method WatchSample()
      requires Wired() && watchdog.Asleep?
      modifies this
      ensures Wired() && View() == StepSample(old(View()))
    {
      if state != Ready || backend.None? {
        return;
      }
      watchdog := Asking(backend.value);
    }

    method WatchVerdict(healthy: bool)
      requires Wired() && watchdog.Asking?
      modifies this
      ensures Wired() && View() == StepVerdict(old(View()), healthy)
    {
      if healthy {
        watchdog := Asleep;
      } else {
        var ok := Fail("the model backend stopped responding");
        watchdog := if ok then Asleep else Dead;
      }
    }

    // -------------------------------------------------------------- completions

    /** The guard, and everything a completion reads before its first await. */
    method Dispatch(requested: ModelId) returns (relay: Option<Relay>)
      requires Valid()
      modifies this`relays
      ensures Valid() && Promises() && View() == Step(cfg, old(View()), RelayArrive(requested))
      ensures relays == old(relays) + if relay.Some? then [relay.value] else []
      ensures relay.Some? <==> state == Ready && activeModelId == Some(requested)
      ensures relay.Some? ==> !locked && Coherent(cfg, relay.value) && relay.value.requested == requested
    {
      ghost var was := View();
      PassesExactly(cfg, was, requested);
      relay := Arrive(requested);
      Settle(was, RelayArrive(requested));
    }

    method Arrive(requested: ModelId) returns (relay: Option<Relay>)
      requires Wired()
      modifies this`relays
      ensures Wired() && View() == StepRelayArrive(cfg, old(View()), requested)
      ensures relays == old(relays) + if relay.Some? then [relay.value] else []
      ensures relay.Some? <==> Guard(cfg, old(View()), requested) == Pass && backend.Some?
      ensures relay.Some? ==>
                relay.value == Relay(requested, backend.value, backend.value, OutgoingModel(cfg, activeModelId, requested), Sent)
    {
      if GuardOn(cfg, state, activeModelId, pendingModelId, requested) != Pass || backend.None? {
        return None;
      }
      var model := OutgoingModel(cfg, activeModelId, requested);
      relay := Some(Relay(requested, backend.value, backend.value, model, Sent));
      relays := relays + [relay.value];
    }

    /** `_InFlight.__aenter__` */
    method RelayStarts(i: nat)
      requires Wired() && i < |relays| && relays[i].phase == Sent
      modifies this`inFlight, this`relays
      ensures Wired() && View() == StepRelayStart(old(View()), i)
    {
      relays := SetRelay(relays, i, Streaming);
      inFlight := inFlight + 1;
    }

    /** `_InFlight.__aexit__`, reached on completion, abort and failure alike. */
    method StreamEnds(i: nat)
      requires Wired() && i < |relays| && relays[i].phase == Streaming
      modifies this`inFlight, this`relays
      ensures Wired() && View() == StepRelayEnd(old(View()), i)
    {
      relays := SetRelay(relays, i, Closed);
      inFlight := inFlight - 1;
    }

    /** A relay whose stream never started ends without having been counted. */
    method RelayDropped(i: nat)
      requires Wired() && i < |relays| && relays[i].phase == Sent
      modifies this`relays
      ensures Wired() && View() == StepRelayEnd(old(View()), i)
    {
      relays := SetRelay(relays, i, Closed);
    }

    // --------------------------------------------------------------- every segment

    /** Whatever resumes, with whatever answer: the object does the machine's step, and keeps what
        every reachable state keeps. */
    method Resume(e: Event)
      requires Valid() && Enabled(View(), e)
      modifies this, registry, job
      ensures Valid() && Promises() && View() == Step(cfg, old(View()), e)
    {
      ghost var was := View();
      if IsTaskEvent(e) {
        ResumeTask(e);
      } else {
        ResumeOther(e);
      }
      Settle(was, e);
    }

    method ResumeTask(e: Event)
      requires Wired() && Enabled(View(), e) && IsTaskEvent(e)
      modifies this, job
      ensures Wired() && View() == Step(cfg, old(View()), e)
    {
      match e
      case TaskStart(t) => TaskStart(t);
      case DrainTick(t) => DrainTick(t);
      case StopReturned(error) => StopReturned(error);
      case ReleaseReturned(error) => ReleaseReturned(error);
      case CloseReturned(error) => CloseReturned(error);
      case LoadReturned(error, t) => LoadReturned(error, t);
      case HealthReturned(healthy, t, diskOk) => HealthReturned(healthy, t, diskOk);
    }

    method ResumeOther(e: Event)
      requires Wired() && Enabled(View(), e) && !IsTaskEvent(e)
      modifies this, registry
      ensures Wired() && View() == Step(cfg, old(View()), e)
    {
      match e
      case Activate(id) => var r := Request(id);
      case WatchSample => WatchSample();
      case WatchVerdict(healthy) => WatchVerdict(healthy);
      case RelayArrive(requested) => var relay := Arrive(requested);
      case RelayStart(i) => RelayStarts(i);
      case RelayEnd(i) =>
        if relays[i].phase == Streaming {
          StreamEnds(i);
        } else {
          RelayDropped(i);
        }
    }

    // ------------------------------------------------------------------------ jobs

    /** Single flight, seen through the registry: the running job is its newest, so however small
        the registry is - unless it keeps nothing at all - its identifier finds it. */
    method RunningJob() returns (found: Option<Job>)
      requires Valid() && task.Live?
      ensures |registry.Log| == task.job + 1 && registry.Log[task.job] == job
      ensures registry.maxJobs >= 1 ==> found == Some(job) && found.value.status == Running
      ensures found == None || found == Some(job)
      ensures forall i :: 0 <= i < task.job ==> IsFinal(registry.Log[i].status)
    {
      ReachableInv(cfg, View());
      found := registry.Get(JobId(task.job + 1));
    }
  }
}
