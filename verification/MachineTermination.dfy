/** Every activation ends, whatever the backends answer, as long as their calls return. */
module SupervisorTermination {
  import opened Prelude
  import opened ModelStates
  import opened Catalogs
  import opened SupervisorMachine
  import opened SupervisorInvariant

  function Polls(cfg: Config): nat {
    Ticks(cfg.loadTimeout, cfg.pollInterval) + 1
  }

  /** How many more times the activation task can be resumed before it is done: the phase, then
      the sleeps left before the drain or load deadline. */
  function Budget(cfg: Config, task: Task): nat {
    match task
    case NoTask => 0
    case Live(_, _, phase) =>
      match phase
      case AtStart => Polls(cfg) + 6 + Ticks(cfg.drainTimeout, DRAIN_POLL_INTERVAL)
      case InDrain(deadline, wake) => Polls(cfg) + 5 + Ticks(deadline - wake, DRAIN_POLL_INTERVAL)
      case InStop(_) => Polls(cfg) + 4
      case InRelease(_) => Polls(cfg) + 3
      case InClose(_, _) => Polls(cfg) + 2
      case InLoad => Polls(cfg) + 1
      case InPoll(deadline, wake) => Ticks(deadline - wake, cfg.pollInterval) + 1
  }

  lemma DrainUsesBudget(cfg: Config, s: Sup, e: Event)
    requires Enabled(s, e) && (e.TaskStart? || e.DrainTick?)
    ensures Budget(cfg, Step(cfg, s, e).task) < Budget(cfg, s.task)
  {
    if e.TaskStart? {
      TicksOrder(cfg.drainTimeout - DRAIN_POLL_INTERVAL, cfg.drainTimeout, DRAIN_POLL_INTERVAL);
      assert (e.t + cfg.drainTimeout) - (e.t + DRAIN_POLL_INTERVAL) == cfg.drainTimeout - DRAIN_POLL_INTERVAL;
    } else {
      var InDrain(deadline, wake) := s.task.phase;
      if e.t < deadline {
        TicksOrder(deadline - (e.t + DRAIN_POLL_INTERVAL), deadline - wake, DRAIN_POLL_INTERVAL);
      }
    }
  }

  lemma PollUsesBudget(cfg: Config, s: Sup, e: Event)
    requires Enabled(s, e) && e.HealthReturned?
    ensures Budget(cfg, Step(cfg, s, e).task) < Budget(cfg, s.task)
  {
    var InPoll(deadline, wake) := s.task.phase;
    if !e.healthy && e.t < deadline {
      var next := e.t + Min(cfg.pollInterval, deadline - e.t);
      if next < deadline {
        TicksOrder(deadline - next, deadline - wake, cfg.pollInterval);
      } else {
        assert Ticks(deadline - wake, cfg.pollInterval) > 0;
      }
    }
  }

  lemma ResumptionUsesBudget(cfg: Config, s: Sup, e: Event)
    requires Enabled(s, e) && IsTaskEvent(e)
    ensures Budget(cfg, Step(cfg, s, e).task) < Budget(cfg, s.task)
  {
    if e.TaskStart? || e.DrainTick? {
      DrainUsesBudget(cfg, s, e);
    } else if e.HealthReturned? {
      PollUsesBudget(cfg, s, e);
    } else if e.LoadReturned? {
      assert (e.t + cfg.loadTimeout) - e.t == cfg.loadTimeout;
    }
  }

  lemma OthersKeepTask(cfg: Config, s: Sup, e: Event)
    requires Enabled(s, e) && !IsTaskEvent(e) && s.locked
    ensures Step(cfg, s, e).task == s.task && Step(cfg, s, e).locked
  {
  }

  function Resumptions(events: seq<Event>): nat {
    if events == [] then 0
    else (if IsTaskEvent(events[0]) then 1 else 0) + Resumptions(events[1..])
  }

  /** However the other actors interleave, a locked supervisor that resumes its task often enough
      has released the lock on the way. */
  lemma {:induction false} LockIsReleased(cfg: Config, s: Sup, events: seq<Event>)
    requires Inv(cfg, s) && s.locked && Run(cfg, s, events).Some?
    requires Resumptions(events) >= Budget(cfg, s.task)
    ensures exists k :: 0 <= k <= |events| && Run(cfg, s, events[..k]).Some? && !Run(cfg, s, events[..k]).value.locked
    decreases |events|
  {
    var e := events[0];
    var s' := Step(cfg, s, e);
    StepKeepsInv(cfg, s, e);
    if IsTaskEvent(e) {
      ResumptionUsesBudget(cfg, s, e);
    } else {
      OthersKeepTask(cfg, s, e);
    }
    var k: nat := 0;
    if s'.locked {
      LockIsReleased(cfg, s', events[1..]);
      k :| 0 <= k <= |events[1..]| && Run(cfg, s', events[1..][..k]).Some? && !Run(cfg, s', events[1..][..k]).value.locked;
    }
    PrefixRun(cfg, s, events, k);
    assert Run(cfg, s, events[..k + 1]).Some?;
  }

  lemma PrefixRun(cfg: Config, s: Sup, events: seq<Event>, k: nat)
    requires k < |events| && Enabled(s, events[0])
    ensures Run(cfg, s, events[..k + 1]) == Run(cfg, Step(cfg, s, events[0]), events[1..][..k])
  {
    assert events[..k + 1][1..] == events[1..][..k];
  }

  /** The earliest time the activation's current sleep can be over. */
  function Due(s: Sup): real {
    if s.task.Live? && s.task.phase.InDrain? then s.task.phase.wake
    else if s.task.Live? && s.task.phase.InPoll? then s.task.phase.wake
    else 0.0
  }

  /** What resuming the activation looks like, for any answer the world may give it. */
  function Resumption(s: Sup, error: Option<Raised>, healthy: bool, t: real, diskOk: bool): Event
    requires s.task.Live?
  {
    match s.task.phase
    case AtStart => TaskStart(t)
    case InDrain(_, _) => DrainTick(t)
    case InStop(_) => StopReturned(error)
    case InRelease(_) => ReleaseReturned(error)
    case InClose(_, _) => CloseReturned(error)
    case InLoad => LoadReturned(error, t)
    case InPoll(_, _) => HealthReturned(healthy, t, diskOk)
  }

  /** A held lock always has a task behind it that the next answer, any answer, moves on. */
  lemma AlwaysResumable(cfg: Config, s: Sup, error: Option<Raised>, healthy: bool, t: real, diskOk: bool)
    requires Reachable(cfg, s) && s.locked && t >= Due(s)
    ensures s.task.Live?
    ensures var e := Resumption(s, error, healthy, t, diskOk);
            Enabled(s, e) && IsTaskEvent(e) && Budget(cfg, Step(cfg, s, e).task) < Budget(cfg, s.task)
  {
    ReachableInv(cfg, s);
    ResumptionUsesBudget(cfg, s, Resumption(s, error, healthy, t, diskOk));
  }

  /** The budget a new activation starts with is fixed by the configuration alone. */
  lemma ActivationBudget(cfg: Config, s: Sup, id: ModelId)
    requires Reachable(cfg, s) && ActivateAnswer(cfg, s, id) == Accepted
    ensures Budget(cfg, StepActivate(cfg, s, id).task) ==
            Ticks(cfg.drainTimeout, DRAIN_POLL_INTERVAL) + Ticks(cfg.loadTimeout, cfg.pollInterval) + 7
  {
    ReachableInv(cfg, s);
    assert CanTransition(s.state, Stopping);
  }
}
