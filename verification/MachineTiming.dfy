/** How long the supervisor waits: for a load from when it was issued, and between two looks. */
module SupervisorTiming {
  import opened Prelude
  import opened ModelStates
  import opened Jobs
  import opened SupervisorMachine
  import opened SupervisorInvariant
  import opened SupervisorRuns

  /** Polling until `deadline`, for this job. */
  predicate PollsUntil(s: Sup, job: nat, deadline: real) {
    s.task.Live? && s.task.job == job && s.task.phase.InPoll? && s.task.phase.deadline == deadline
  }

  /** A load that returned has the whole load timeout to become healthy, from when it returned, and
      is polled at once. */
  lemma LoadGetsItsTimeout(cfg: Config, s: Sup, t: real)
    requires Reachable(cfg, s) && Enabled(s, LoadReturned(None, t))
    ensures var s' := Step(cfg, s, LoadReturned(None, t));
            && PollsUntil(s', s.task.job, t + cfg.loadTimeout) && s'.task.phase.wake == t
            && s' == s.(task := s'.task) && s'.task.spec == s.task.spec
  {
  }

  /** An unhealthy poll before the deadline is followed by another after one poll interval, or at the
      deadline if that is sooner; and the deadline stays. */
  lemma PollsPromptly(cfg: Config, s: Sup, t: real, diskOk: bool)
    requires Enabled(s, HealthReturned(false, t, diskOk)) && t < s.task.phase.deadline
    ensures var s' := Step(cfg, s, HealthReturned(false, t, diskOk));
            && PollsUntil(s', s.task.job, s.task.phase.deadline) && s' == s.(task := s'.task)
            && t < s'.task.phase.wake <= t + cfg.pollInterval
            && s'.task.phase.wake <= s.task.phase.deadline
            && (s'.task.phase.wake == t + cfg.pollInterval || s'.task.phase.wake == s.task.phase.deadline)
  {
  }

  lemma StepKeepsDeadline(cfg: Config, s: Sup, e: Event, job: nat, deadline: real)
    requires Enabled(s, e) && PollsUntil(s, job, deadline) && s.locked
    ensures var s' := Step(cfg, s, e); PollsUntil(s', job, deadline) || s'.task == NoTask
  {
  }

  /** A task that is over stays over; a later one is for a later job. */
  lemma OverStaysOver(cfg: Config, s: Sup, e: Event, job: nat)
    requires Inv(cfg, s) && Enabled(s, e) && job < |s.jobs| && (s.task.Live? ==> s.task.job > job)
    ensures var s' := Step(cfg, s, e); job < |s'.jobs| && (s'.task.Live? ==> s'.task.job > job)
  {
    SafeSteps(cfg, s, e);
    if IsTaskEvent(e) {
      TaskKeepsItsJob(cfg, s, e);
    } else {
      RequestsTakeTheNextJob(cfg, s, e);
    }
  }

  lemma TaskKeepsItsJob(cfg: Config, s: Sup, e: Event)
    requires Enabled(s, e) && IsTaskEvent(e)
    ensures Step(cfg, s, e).task.Live? ==> Step(cfg, s, e).task.job == s.task.job
  {
  }

  lemma RequestsTakeTheNextJob(cfg: Config, s: Sup, e: Event)
    requires Enabled(s, e) && !IsTaskEvent(e)
    ensures var s' := Step(cfg, s, e);
            s'.task.Live? ==> (s.task.Live? && s'.task.job == s.task.job) || s'.task.job == |s.jobs|
  {
  }

  /** Over any run, a poll keeps the deadline it started with for as long as its job is running. */
  lemma {:induction false} DeadlineStands(cfg: Config, s: Sup, events: seq<Event>, job: nat, deadline: real)
    requires Inv(cfg, s) && Run(cfg, s, events).Some? && job < |s.jobs|
    requires PollsUntil(s, job, deadline) || (s.task.Live? ==> s.task.job > job)
    ensures var s' := Run(cfg, s, events).value;
            job < |s'.jobs| && (PollsUntil(s', job, deadline) || (s'.task.Live? ==> s'.task.job > job))
    decreases |events|
  {
    if events != [] {
      var e := events[0];
      StepKeepsInv(cfg, s, e);
      if PollsUntil(s, job, deadline) {
        StepKeepsDeadline(cfg, s, e, job, deadline);
        SafeSteps(cfg, s, e);
      } else {
        OverStaysOver(cfg, s, e, job);
      }
      DeadlineStands(cfg, Step(cfg, s, e), events[1..], job, deadline);
    }
  }

  /** However the others interleave after a load returned at `t`: an unhealthy answer ends that
      activation as not ready exactly when it comes `loadTimeout` after `t`, or later. */
  lemma NotReadyOnlyAfterTheTimeout(cfg: Config, s: Sup, t: real, events: seq<Event>, now: real, diskOk: bool)
    requires Reachable(cfg, s) && Enabled(s, LoadReturned(None, t))
    requires Run(cfg, Step(cfg, s, LoadReturned(None, t)), events).Some?
    requires var s' := Run(cfg, Step(cfg, s, LoadReturned(None, t)), events).value;
             s'.task.Live? && s'.task.job == s.task.job && Enabled(s', HealthReturned(false, now, diskOk))
    ensures var s' := Run(cfg, Step(cfg, s, LoadReturned(None, t)), events).value;
            var s'' := Step(cfg, s', HealthReturned(false, now, diskOk));
            && s.task.job < |s''.jobs|
            && (s''.jobs[s.task.job].status == Failed <==> now >= t + cfg.loadTimeout)
            && (s''.locked <==> now < t + cfg.loadTimeout)
  {
    ReachableInv(cfg, s);
    var polled := Step(cfg, s, LoadReturned(None, t));
    LoadGetsItsTimeout(cfg, s, t);
    StepKeepsInv(cfg, s, LoadReturned(None, t));
    DeadlineStands(cfg, polled, events, s.task.job, t + cfg.loadTimeout);
    RunKeepsInv(cfg, polled, events);
    UnhealthyEnds(cfg, Run(cfg, polled, events).value, now, diskOk);
  }

  lemma UnhealthyEnds(cfg: Config, s: Sup, now: real, diskOk: bool)
    requires Inv(cfg, s) && Enabled(s, HealthReturned(false, now, diskOk))
    ensures var s' := Step(cfg, s, HealthReturned(false, now, diskOk));
            && s.task.job < |s'.jobs|
            && (s'.jobs[s.task.job].status == Failed <==> now >= s.task.phase.deadline)
            && (s'.locked <==> now < s.task.phase.deadline)
  {
    assert s.state != Error ==> CanTransition(s.state, Error);
  }
}
