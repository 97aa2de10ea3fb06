/** The supervisor driving `ollama`: every load, unload, wait and poll of the backend is the real
    call, and every other segment interleaves freely. Each call is proved to be a step of the world
    that the residency bound is about, so the bound is one on what the daemon really holds. */
module OllamaPlanes {
  import opened Prelude
  import opened Catalogs
  import opened ModelStates
  import opened SupervisorMachine
  import opened SupervisorInvariant
  import opened SupervisorResidency
  import opened BackendContract
  import opened OllamaBackends
  import opened LogBuffers
  import opened Supervisors

  function Tags(refs: set<string>): set<Unit> {
    set r | r in refs :: Tag(r)
  }

  lemma {:induction false} TagsSize(refs: set<string>)
    ensures |Tags(refs)| == |refs|
  {
    if refs == {} {
      assert Tags(refs) == {};
    } else {
      var r :| r in refs;
      TagsSize(refs - {r});
      assert Tags(refs) == Tags(refs - {r}) + {Tag(r)};
    }
  }

  /** What a backend object knows: the tag it has pinned, and the tag whose release it may await. */
  datatype Handle = Handle(pinned: Option<string>, released: Option<string>)

  /** A handle on the backend's own tag; or none, and then the tag is among those given up on. */
  predicate Refers(ref: Option<string>, b: Backend, w: World) {
    if ref.Some? then ref.value == b.spec.modelRef else UnitOf(b) in w.leaked
  }

  /** The backend in hand is an `ollama` one, and - unless its load is still awaited - its object
      knows its tag for as long as there is something to unload or to wait for. */
  predicate Knows(s: Sup, w: World, h: Option<Handle>) {
    InHand(s).Some? ==>
      var b := InHand(s).value;
      && b.spec.backend == OLLAMA
      && match StageOf(s)
         case Coming => true
         case Going => h.Some? && h.value.pinned == None && Refers(h.value.released, b, w)
         case Settled => h.Some? && h.value.released == None && Refers(h.value.pinned, b, w)
  }

  /** What the backend's own contract says about the call that `e` is the return of: what the daemon
      held before and after, and what the backend object knew before and after. */
  ghost predicate Call(s: Sup, e: Event, evidence: Evidence, before: set<string>, after: set<string>,
                       h: Option<Handle>, h': Option<Handle>)
    requires Enabled(s, e)
  {
    match e
    case LoadReturned(error, _) =>
      && LoadsOnly(before, after, s.task.spec.modelRef)
      && h' == Some(Handle(if error.None? then Some(s.task.spec.modelRef) else None, None))
    case StopReturned(_) =>
      LoadsNothing(before, after) && h.Some? && h' == Some(Handle(None, h.value.pinned))
    case ReleaseReturned(error) =>
      && LoadsNothing(before, after) && h.Some?
      && (error.None? && evidence == SeenGone ==> h.value.released.Some? && Released(after, h.value.released.value))
      && (error.None? && evidence == NothingPinned ==> h.value.released.None?)
    case _ => LoadsNothing(before, after) && h' == h
  }

  /** What an event adds to the counters. */
  ghost predicate Counts(e: Event, evidence: Evidence, w: World, w': World) {
    && w'.failedUnloads == w.failedUnloads + (if (e.StopReturned? || e.ReleaseReturned?) && e.error.Some? then 1 else 0)
    && w'.raisedLoads == w.raisedLoads + (if e.LoadReturned? && e.error.Some? then 1 else 0)
    && w'.unseen == w.unseen + (if ReturnsRelease(e) && evidence == Unseen then 1 else 0)
    && w.leaked <= w'.leaked
  }

  /** Every such call is a step of the world, and leaves the object knowing what it has to. */
  lemma CallIsWorldStep(cfg: Config, s: Sup, e: Event, s': Sup, evidence: Evidence, w: World,
                        before: set<string>, after: set<string>, h: Option<Handle>, h': Option<Handle>)
    requires Enabled(s, e) && HoldsOn(cfg, s, e, s') && cfg.backends <= {OLLAMA}
    requires w.resident == Tags(before) && Knows(s, w, h) && Call(s, e, evidence, before, after, h, h')
    ensures var w' := After(s, e, evidence, w, Tags(after));
            WorldStep(s, e, evidence, w, w') && Knows(s', w', h') && Counts(e, evidence, w, w')
  {
    if e.LoadReturned? {
      var ref := s.task.spec.modelRef;
      FewerTags(before + {ref}, after);
      assert Tags(before + {ref}) == Tags(before) + {Tag(ref)};
    } else {
      FewerTags(before, after);
    }
    ContractIsWorldStep(s, e, evidence, w, Tags(after));
  }

  lemma FewerTags(before: set<string>, after: set<string>)
    requires after <= before
    ensures Tags(after) <= Tags(before)
  {
  }

  lemma ReadyMeansHealthy(cfg: Config, s: Sup, e: Event)
    requires Reachable(cfg, s) && Enabled(s, e) && e.HealthReturned? && Step(cfg, s, e).state == Ready
    ensures e.healthy
  {
    ReachableInv(cfg, s);
  }

  class OllamaPlane {
    const sup: Supervisor
    const daemon: Daemon
    var instance: OllamaBackend?

    // What has happened to the daemon so far. A wait for release counts as unseen when its last look
    // was not answered, or not truthfully.
    ghost var world: World

    ghost function Handles(): Option<Handle>
      reads this`instance, instance
    {
      if instance == null then None else Some(Handle(instance.modelRef, instance.releasedRef))
    }

    /** The supervisor and the daemon are where some run of both together gets them. */
    ghost predicate Joined()
      reads this, sup, sup.registry, sup.registry.Log, sup.logbuf, daemon
    {
      && sup.Valid() && sup.cfg.backends <= {OLLAMA}
      && SystemReachable(sup.cfg, sup.View(), world)
      && world.resident == Tags(daemon.resident)
    }

    ghost predicate Valid()
      reads this, sup, sup.registry, sup.registry.Log, sup.logbuf, daemon, instance
    {
      && Joined() && Knows(sup.View(), world, Handles())
      && (instance != null ==> instance.daemon == daemon)
    }

    constructor (cfg: Config, logbuf: LogBuffer, daemon: Daemon)
      requires logbuf.Valid() && cfg.backends <= {OLLAMA} && daemon.resident == {}
      ensures Valid() && this.daemon == daemon && world == Empty()
    {
      this.daemon := daemon;
      sup := new Supervisor(cfg, logbuf);
      instance, world := null, Empty();
      new;
      SystemStarts(cfg);
      assert Tags({}) == {};
    }

    /** The bound, on the daemon itself: one model more than unloads that raised, loads that raised,
        and waits that returned without a truthful answer. Without those, two counters. */
    lemma Residents()
      requires Valid()
      ensures |daemon.resident| <= 1 + world.failedUnloads + world.raisedLoads + world.unseen
      ensures Failures(world) == 0 && InHand(sup.View()) == None ==> daemon.resident == {}
    {
      ResidencyBound(sup.cfg, sup.View(), world);
      TagsSize(daemon.resident);
      if Tags(daemon.resident) == {} {
        assert |daemon.resident| == 0;
      }
    }

    /** The supervisor resumes after a call that took the daemon from `before` to what it holds now. */
    method Advance(e: Event, ghost evidence: Evidence, ghost before: set<string>, ghost h: Option<Handle>)
      requires sup.Valid() && sup.cfg.backends <= {OLLAMA} && Enabled(sup.View(), e)
      requires SystemReachable(sup.cfg, sup.View(), world) && world.resident == Tags(before)
      requires Knows(sup.View(), world, h) && Call(sup.View(), e, evidence, before, daemon.resident, h, Handles())
      requires instance != null ==> instance.daemon == daemon
      modifies this`world, sup, sup.registry, sup.job
      ensures Valid() && Counts(e, evidence, old(world), world)
      ensures e.HealthReturned? && sup.state == Ready ==> e.healthy
    {
      ghost var s, h' := sup.View(), Handles();
      ghost var s' := Prepared(e, evidence, before, h, h');
      world := After(s, e, evidence, world, Tags(daemon.resident));
      sup.Resume(e);
      assert Handles() == h';
    }

    lemma Prepared(e: Event, evidence: Evidence, before: set<string>, h: Option<Handle>, h': Option<Handle>) returns (s': Sup)
      requires sup.Valid() && sup.cfg.backends <= {OLLAMA} && Enabled(sup.View(), e)
      requires SystemReachable(sup.cfg, sup.View(), world) && world.resident == Tags(before)
      requires Knows(sup.View(), world, h) && Call(sup.View(), e, evidence, before, daemon.resident, h, h')
      ensures s' == Step(sup.cfg, sup.View(), e)
      ensures var w := After(sup.View(), e, evidence, world, Tags(daemon.resident));
              SystemReachable(sup.cfg, s', w) && Knows(s', w, h') && Counts(e, evidence, world, w)
              && w.resident == Tags(daemon.resident)
      ensures e.HealthReturned? && s'.state == Ready ==> e.healthy
    {
      var s := sup.View();
      var w := After(s, e, evidence, world, Tags(daemon.resident));
      s' := Step(sup.cfg, s, e);
      ReachableInv(sup.cfg, s);
      HandAfterStep(sup.cfg, s, e);
      CallIsWorldStep(sup.cfg, s, e, s', evidence, world, before, daemon.resident, h, h');
      s' := SystemStep(sup.cfg, s, world, e, evidence, w);
      if e.HealthReturned? && s'.state == Ready {
        ReadyMeansHealthy(sup.cfg, s, e);
      }
    }

    /** Any segment that is not the return of a load, an unload or a wait. */
    method Other(e: Event)
      requires Valid() && Enabled(sup.View(), e) && !e.LoadReturned? && !e.StopReturned? && !e.ReleaseReturned?
      modifies this`world, sup, sup.registry, sup.job, daemon`resident, daemon.clock
      ensures Valid()
      ensures Counts(e, Unseen, old(world), world) && LoadsNothing(old(daemon.resident), daemon.resident)
    {
      daemon.Idle();
      Advance(e, Unseen, old(daemon.resident), Handles());
    }

    /** A fresh backend object, and its one load. */
    method Activates(spec: ModelSpec) returns (raised: Option<Raised>)
      modifies this`instance, daemon`resident, daemon`asked, daemon.clock
      ensures fresh(instance) && instance.daemon == daemon
      ensures Handles() == Some(Handle(if raised.None? then Some(spec.modelRef) else None, None))
      ensures LoadsOnly(old(daemon.resident), daemon.resident, spec.modelRef)
    {
      instance := new OllamaBackend(daemon);
      var error := instance.Activate(spec);
      raised := if error.Some? then Some(BackendFailed(error.value)) else None;
    }

    method Load(now: real) returns (raised: Option<Raised>)
      requires Valid() && sup.task.Live? && sup.task.phase.InLoad?
      modifies this, sup, sup.registry, sup.job, daemon`resident, daemon`asked, daemon.clock
      ensures Valid()
      ensures LoadsOnly(old(daemon.resident), daemon.resident, old(sup.task.spec.modelRef))
      ensures Counts(LoadReturned(raised, now), Unseen, old(world), world)
    {
      ghost var h, s, before := Handles(), sup.View(), daemon.resident;
      raised := Activates(sup.task.spec);
      assert sup.View() == s;
      Advance(LoadReturned(raised, now), Unseen, before, h);
    }

    method Stops(ghost s: Sup) returns (raised: Option<Raised>)
      requires instance != null && instance.daemon == daemon && s.task.Live? && s.task.phase.InStop?
      modifies instance, daemon`resident, daemon`asked, daemon.clock
      ensures old(instance.releasedRef) == None ==>
                Call(s, StopReturned(raised), Unseen, old(daemon.resident), daemon.resident, old(Handles()), Handles())
    {
      var error := instance.Stop();
      raised := if error.Some? then Some(BackendFailed(error.value)) else None;
    }

    method Unload() returns (raised: Option<Raised>)
      requires Valid() && sup.task.Live? && sup.task.phase.InStop?
      modifies this`world, sup, sup.registry, sup.job, instance, daemon`resident, daemon`asked, daemon.clock
      ensures Valid()
      ensures LoadsNothing(old(daemon.resident), daemon.resident)
      ensures Counts(StopReturned(raised), Unseen, old(world), world)
    {
      HandOfTask(sup.cfg, sup.View());
      ghost var h, s, before := Handles(), sup.View(), daemon.resident;
      raised := Stops(s);
      assert sup.View() == s;
      Advance(StopReturned(raised), Unseen, before, h);
    }

    /** How the wait for release ended, and on what evidence. */
    method Waits(ghost s: Sup) returns (raised: Option<Raised>, ghost evidence: Evidence)
      requires instance != null && instance.daemon == daemon && s.task.Live? && s.task.phase.InRelease?
      modifies instance, daemon`resident, daemon.clock
      ensures Call(s, ReleaseReturned(raised), evidence, old(daemon.resident), daemon.resident, old(Handles()), Handles())
      ensures raised.None? && evidence == SeenGone && old(instance.releasedRef) == Some(s.task.phase.outgoing.spec.modelRef) ==>
                Released(daemon.resident, s.task.phase.outgoing.spec.modelRef)
    {
      var awaited := instance.releasedRef;
      var error;
      ghost var looks;
      error, looks := instance.AwaitReleased(UNLOAD_TIMEOUT);
      raised := if error.Some? then Some(BackendFailed(error.value)) else None;
      evidence := NothingPinned;
      if awaited.Some? {
        evidence := if Truthful(looks[|looks| - 1], daemon.resident) then SeenGone else Unseen;
      }
    }

    /** A wait that returns on a truthful answer is one after which the tag is gone; on any other, it
        is counted, and charged only if the tag is still there. */
    method Release() returns (raised: Option<Raised>, ghost evidence: Evidence)
      requires Valid() && sup.task.Live? && sup.task.phase.InRelease?
      modifies this`world, sup, sup.registry, sup.job, instance, daemon`resident, daemon.clock
      ensures Valid()
      ensures LoadsNothing(old(daemon.resident), daemon.resident)
      ensures Counts(ReleaseReturned(raised), evidence, old(world), world)
      ensures raised.None? && evidence == SeenGone ==> Released(daemon.resident, old(sup.task.phase.outgoing).spec.modelRef)
    {
      HandOfTask(sup.cfg, sup.View());
      ghost var h, s, before := Handles(), sup.View(), daemon.resident;
      raised, evidence := Waits(s);
      assert sup.View() == s;
      Advance(ReleaseReturned(raised), evidence, before, h);
    }

    /** A poll that makes the supervisor say `ready` on a truthful answer found the tag resident. */
    method Poll(now: real, diskOk: bool) returns (healthy: bool, ghost body: Option<Json>)
      requires Valid() && sup.task.Live? && sup.task.phase.InPoll? && now >= sup.task.phase.wake
      modifies this`world, sup, sup.registry, sup.job, daemon`resident, daemon.clock
      ensures Valid()
      ensures LoadsNothing(old(daemon.resident), daemon.resident)
      ensures sup.state == Ready && Truthful(body, daemon.resident) ==> old(sup.task.spec.modelRef) in daemon.resident
    {
      HandOfTask(sup.cfg, sup.View());
      healthy, body := instance.Health();
      Advance(HealthReturned(healthy, now, diskOk), Unseen, old(daemon.resident), Handles());
    }
  }
}
