/** The supervisor driving `vllm`: every spawn, stop, wait and close is the real call on the backend
    object of that activation, and every other segment interleaves freely. What each object keeps is
    handed from one to the next, so the spawn discipline and the bound on live processes hold over
    all of them. */
module VllmPlanes {
  import opened Prelude
  import opened SupervisorMachine
  import opened SupervisorInvariant
  import opened SupervisorResidency
  import opened BackendContract
  import opened LogBuffers
  import opened Hosts
  import opened VllmBackends
  import opened Supervisors

  /** The backend in hand has been activated and not yet been stopped. */
  predicate MayRun(s: Sup) {
    InHand(s).Some? && StageOf(s) == Settled
  }

  /** Some backend object has been built: one is in hand and has been activated, or is being closed. */
  predicate Built(s: Sup) {
    Closes(s) || (InHand(s).Some? && StageOf(s) != Coming)
  }

  lemma OtherKeeps(cfg: Config, s: Sup, e: Event, s': Sup)
    requires Enabled(s, e) && HoldsOn(cfg, s, e, s') && !e.LoadReturned? && !e.StopReturned? && !e.ReleaseReturned?
    ensures MayRun(s') ==> MayRun(s)
    ensures Built(s') ==> Built(s)
  {
  }

  lemma CallEnds(cfg: Config, s: Sup, e: Event, s': Sup)
    requires Enabled(s, e) && HoldsOn(cfg, s, e, s')
    requires e.StopReturned? || e.ReleaseReturned?
    ensures !MayRun(s')
  {
  }

  class VllmPlane {
    const sup: Supervisor
    const host: Host
    var instance: VllmBackend?

    /** Whatever runs belongs to the object in hand, if that has been activated and not stopped, or
        has outlived being killed; and every spawn of every object so far was earned. */
    ghost predicate Tidy(s: Sup)
      reads this`instance, instance, host
    {
      if instance == null then
        !Built(s) && host.Valid() && Disciplined(host.trace) && host.live <= host.outlived
      else
        instance.host == host && instance.Valid() && (!MayRun(s) ==> instance.proc == None)
    }

    ghost predicate Valid()
      reads this, sup, sup.registry, sup.registry.Log, sup.logbuf, instance, host
    {
      sup.Valid() && Tidy(sup.View())
    }

    constructor (cfg: Config, logbuf: LogBuffer, host: Host)
      requires logbuf.Valid() && host.Valid() && host.trace == [] && host.live == {}
      ensures Valid() && this.host == host
    {
      this.host := host;
      sup := new Supervisor(cfg, logbuf);
      instance := null;
    }

    /** Over every activation there ever was: one live process more than outlived their kill, none
        more while nothing is in hand or the next load is only about to be made, and no spawn that
        was not earned. */
    lemma Processes()
      requires Valid()
      ensures |host.live| <= 1 + |host.outlived|
      ensures !MayRun(sup.View()) ==> host.live <= host.outlived
      ensures Disciplined(host.trace)
    {
      if instance == null {
        SubsetSize(host.live, host.outlived);
      } else {
        instance.LiveProcesses();
      }
    }

    method Advance(e: Event)
      requires sup.Valid() && Enabled(sup.View(), e)
      modifies sup, sup.registry, sup.job
      ensures sup.Valid() && HoldsOn(sup.cfg, old(sup.View()), e, sup.View())
    {
      ReachableInv(sup.cfg, sup.View());
      HandAfterStep(sup.cfg, sup.View(), e);
      sup.Resume(e);
    }

    /** Any segment that is not the return of a call on the backend. */
    method Other(e: Event)
      requires Valid() && Enabled(sup.View(), e)
      requires !e.LoadReturned? && !e.StopReturned? && !e.ReleaseReturned? && !e.CloseReturned?
      modifies sup, sup.registry, sup.job, host`live, host.clock
      ensures Valid() && LoadsNothing(old(host.live), host.live)
    {
      ghost var s := sup.View();
      host.Await();
      Advance(e);
      OtherKeeps(sup.cfg, s, e, sup.View());
    }

    /** A fresh object, which may start its process because its predecessor has let go of its own. */
    method Activates() returns (raised: Option<Raised>)
      requires Tidy(sup.View()) && !MayRun(sup.View())
      modifies this`instance, host, host.clock
      ensures instance != null && fresh(instance) && instance.host == host && instance.Valid()
      ensures raised.Some? ==> LoadsNothing(old(host.live), host.live)
      ensures raised.None? ==> instance.proc.Some? && LoadsOnly(old(host.live), host.live, instance.proc.value)
      ensures host.outlived == old(host.outlived)
    {
      instance := new VllmBackend(host);
      var error;
      ghost var probes, seen;
      error, probes, seen := instance.Activate();
      raised := if error.Some? then Some(BackendFailed(error.value)) else None;
    }

    method Load(now: real) returns (raised: Option<Raised>)
      requires Valid() && sup.task.Live? && sup.task.phase.InLoad?
      modifies this`instance, sup, sup.registry, sup.job, host, host.clock
      ensures Valid()
      ensures raised.Some? ==> LoadsNothing(old(host.live), host.live)
      ensures raised.None? ==> instance != null && instance.proc.Some? && LoadsOnly(old(host.live), host.live, instance.proc.value)
      ensures host.outlived == old(host.outlived)
    {
      raised := Activates();
      Advance(LoadReturned(raised, now));
    }

    /** After the stop, returned or raised, whatever still runs has outlived being killed. */
    method Unload() returns (raised: Option<Raised>)
      requires Valid() && sup.task.Live? && sup.task.phase.InStop?
      modifies sup, sup.registry, sup.job, instance, host, host.clock
      ensures Valid() && LoadsNothing(old(host.live), host.live) && host.live <= host.outlived
    {
      HandOfTask(sup.cfg, sup.View());
      ghost var s := sup.View();
      var error;
      ghost var probes, sent;
      error, probes, sent := instance.Stop();
      raised := if error.Some? then Some(BackendFailed(error.value)) else None;
      Advance(StopReturned(raised));
      CallEnds(sup.cfg, s, StopReturned(raised), sup.View());
    }

    /** A wait that returns with a process still there is charged to those that outlived their kill. */
    method Release() returns (raised: Option<Raised>)
      requires Valid() && sup.task.Live? && sup.task.phase.InRelease?
      modifies sup, sup.registry, sup.job, host`live, host`trace, host.clock
      ensures Valid() && LoadsNothing(old(host.live), host.live) && host.live <= host.outlived
    {
      HandOfTask(sup.cfg, sup.View());
      ghost var s := sup.View();
      var error;
      ghost var seen;
      error, seen := instance.AwaitReleased(UNLOAD_TIMEOUT);
      raised := if error.Some? then Some(BackendFailed(error.value)) else None;
      Advance(ReleaseReturned(raised));
      CallEnds(sup.cfg, s, ReleaseReturned(raised), sup.View());
    }

    /** Closing stops once more, and has nothing left to kill. */
    method Close() returns (raised: Option<Raised>)
      requires Valid() && Closes(sup.View())
      modifies sup, sup.registry, sup.job, instance, host, host.clock
      ensures Valid() && LoadsNothing(old(host.live), host.live) && host.outlived == old(host.outlived)
    {
      HandOfTask(sup.cfg, sup.View());
      var error := instance.Aclose();
      raised := if error.Some? then Some(BackendFailed(error.value)) else None;
      Advance(CloseReturned(raised));
    }
  }
}
