/** Runs of supervisor and engine together that use the whole residency bound up. */
module SupervisorResidencyRuns {
  import opened Prelude
  import opened ModelStates
  import opened Catalogs
  import opened Jobs
  import opened SupervisorMachine
  import opened SupervisorResidency

  const REFUSED := BackendFailed("ollama did not answer")

  /** No switch in progress and no stream open. */
  predicate Rests(s: Sup) {
    s.task == NoTask && !s.locked && s.inFlight == 0
  }

  /** The switch to `next` has issued its load, and waits for it. */
  predicate Loads(s: Sup, next: ModelSpec, jobs: seq<JobRecord>) {
    && s.state == Loading && s.locked && s.inFlight == 0
    && s.task == Live(next, |jobs|, InLoad)
    && s.backend == Some(Backend(next, |jobs|))
    && s.jobs == jobs + [JobRecord(next.id, Running)]
  }

  predicate Usable(cfg: Config, next: ModelSpec) {
    cfg.catalog.Get(next.id) == Some(next) && next.backend in cfg.backends
  }

  /** With nothing in hand there is nothing to stop. */
  lemma LoadsAtOnce(cfg: Config, s: Sup, w: World, next: ModelSpec) returns (s': Sup)
    requires SystemReachable(cfg, s, w) && Rests(s) && (s.state == Idle || s.state == Error) && s.backend == None
    requires Usable(cfg, next)
    ensures SystemReachable(cfg, s', w) && Loads(s', next, s.jobs)
  {
    s' := SystemStep(cfg, s, w, Activate(next.id), Unseen, w);
    s' := SystemStep(cfg, s', w, TaskStart(0.0), Unseen, w);
  }

  /** A backend whose load raised has pinned nothing: its stop asks for nothing, its wait for nothing. */
  lemma LoadsAfterRaisedLoad(cfg: Config, s: Sup, w: World, next: ModelSpec) returns (s': Sup)
    requires SystemReachable(cfg, s, w) && Rests(s) && s.state == Error
    requires s.active == None && s.backend.Some? && UnitOf(s.backend.value) in w.leaked && Usable(cfg, next)
    ensures SystemReachable(cfg, s', w) && Loads(s', next, s.jobs)
  {
    s' := SystemStep(cfg, s, w, Activate(next.id), Unseen, w);
    s' := SystemStep(cfg, s', w, TaskStart(0.0), Unseen, w);
    assert s'.task == Live(next, |s.jobs|, InStop(s.backend.value)) && s'.active == None;
    s' := StopsNothing(cfg, s', w);
  }

  lemma StopsNothing(cfg: Config, s: Sup, w: World) returns (s': Sup)
    requires SystemReachable(cfg, s, w) && s.state == Stopping && s.task.Live? && s.task.phase.InStop?
    requires UnitOf(s.task.phase.outgoing) in w.leaked && s.backend == None && s.task.spec.backend in cfg.backends
    ensures SystemReachable(cfg, s', w) && s'.state == Loading && s'.jobs == s.jobs
    ensures s'.locked == s.locked && s'.inFlight == s.inFlight
    ensures s'.task == Live(s.task.spec, s.task.job, InLoad) && s'.backend == Some(Backend(s.task.spec, s.task.job))
  {
    s' := SystemStep(cfg, s, w, StopReturned(None), Unseen, w);
    s' := SystemStep(cfg, s', w, ReleaseReturned(None), NothingPinned, w);
    s' := SystemStep(cfg, s', w, CloseReturned(None), Unseen, w);
  }

  /** The load takes hold, but its answer is lost. */
  lemma LoadRaises(cfg: Config, s: Sup, w: World, next: ModelSpec, jobs: seq<JobRecord>) returns (s': Sup, w': World)
    requires SystemReachable(cfg, s, w) && Loads(s, next, jobs)
    ensures SystemReachable(cfg, s', w')
    ensures var unit := UnitOf(Backend(next, |jobs|));
            w' == w.(resident := w.resident + {unit}, leaked := w.leaked + {unit}, raisedLoads := w.raisedLoads + 1)
    ensures Rests(s') && s'.state == Error && s'.active == None && s'.backend == Some(Backend(next, |jobs|))
    ensures |s'.jobs| == |jobs| + 1
  {
    var unit := UnitOf(Backend(next, |jobs|));
    w' := w.(resident := w.resident + {unit}, leaked := w.leaked + {unit}, raisedLoads := w.raisedLoads + 1);
    s' := SystemStep(cfg, s, w, LoadReturned(Some(REFUSED), 1.0), Unseen, w');
  }

  lemma LoadSucceeds(cfg: Config, s: Sup, w: World, next: ModelSpec, jobs: seq<JobRecord>) returns (s': Sup, w': World)
    requires SystemReachable(cfg, s, w) && Loads(s, next, jobs)
    ensures SystemReachable(cfg, s', w') && w' == w.(resident := w.resident + {UnitOf(Backend(next, |jobs|))})
    ensures Rests(s') && s'.state == Ready && s'.active == Some(next.id) && s'.backend == Some(Backend(next, |jobs|))
    ensures s'.jobs == jobs + [JobRecord(next.id, Succeeded)]
  {
    w' := w.(resident := w.resident + {UnitOf(Backend(next, |jobs|))});
    s' := SystemStep(cfg, s, w, LoadReturned(None, 1.0), Unseen, w');
    s' := SystemStep(cfg, s', w', HealthReturned(true, 1.0, true), Unseen, w');
  }

  /** The backend is given up before it is asked to stop, so once that fails nobody holds it. */
  lemma UnloadFails(cfg: Config, s: Sup, w: World, next: ModelSpec) returns (s': Sup, w': World)
    requires SystemReachable(cfg, s, w) && Rests(s) && s.state == Ready && s.backend.Some?
    requires Usable(cfg, next) && s.active != Some(next.id)
    ensures SystemReachable(cfg, s', w')
    ensures w' == w.(leaked := w.leaked + {UnitOf(s.backend.value)}, failedUnloads := w.failedUnloads + 1)
    ensures Rests(s') && s'.state == Error && s'.backend == None && s'.jobs == s.jobs + [JobRecord(next.id, Failed)]
  {
    s' := SystemStep(cfg, s, w, Activate(next.id), Unseen, w);
    s' := SystemStep(cfg, s', w, TaskStart(2.0), Unseen, w);
    assert s'.task == Live(next, |s.jobs|, InStop(s.backend.value));
    w' := w.(leaked := w.leaked + {UnitOf(s.backend.value)}, failedUnloads := w.failedUnloads + 1);
    s' := SystemStep(cfg, s', w, StopReturned(Some(REFUSED)), Unseen, w');
    s' := SystemStep(cfg, s', w', CloseReturned(None), Unseen, w');
  }

  /** "At most one model is ever resident" is not true: one failed unload is enough for two. */
  lemma TwoResidentAfterFailedUnload(cfg: Config, a: ModelSpec, b: ModelSpec) returns (s: Sup, w: World)
    requires Usable(cfg, a) && Usable(cfg, b) && a.id != b.id && a.modelRef != b.modelRef
    ensures SystemReachable(cfg, s, w) && s.state == Ready && s.active == Some(b.id)
    ensures |RefsOf(cfg, s, w.resident)| == 2 && Failures(w) == 1
  {
    SystemStarts(cfg);
    s := LoadsAtOnce(cfg, Init(), Empty(), a);
    s, w := LoadSucceeds(cfg, s, Empty(), a, []);
    s, w := UnloadFails(cfg, s, w, b);
    var jobs := s.jobs;
    s := LoadsAtOnce(cfg, s, w, b);
    s, w := LoadSucceeds(cfg, s, w, b, jobs);
    var u, v := UnitOf(Backend(a, 0)), UnitOf(Backend(b, 2));
    assert w.resident == {u, v};
    assert RefOf(cfg, s, u) == a.modelRef && RefOf(cfg, s, v) == b.modelRef;
    assert RefsOf(cfg, s, w.resident) == {a.modelRef, b.modelRef};
  }

  // ------------------------------------------------------------ the bound is met

  function TagsOf(specs: seq<ModelSpec>): set<Unit> {
    set i | 0 <= i < |specs| :: Tag(specs[i].modelRef)
  }

  /** Different models of one daemon. */
  ghost predicate DifferentTags(cfg: Config, specs: seq<ModelSpec>) {
    && (forall i :: 0 <= i < |specs| ==> Usable(cfg, specs[i]) && specs[i].backend == OLLAMA)
    && (forall i, j :: 0 <= i < j < |specs| ==> specs[i].id != specs[j].id && specs[i].modelRef != specs[j].modelRef)
  }

  lemma OneMoreTag(specs: seq<ModelSpec>, k: nat)
    requires k < |specs|
    ensures TagsOf(specs[..k + 1]) == TagsOf(specs[..k]) + {Tag(specs[k].modelRef)}
  {
    var some, more := specs[..k], specs[..k + 1];
    forall u
      ensures u in TagsOf(more) <==> u in TagsOf(some) || u == Tag(specs[k].modelRef)
    {
      if u in TagsOf(more) {
        var i :| 0 <= i < |more| && u == Tag(more[i].modelRef);
        assert i < k ==> some[i] == more[i];
      }
      if u in TagsOf(some) {
        var i :| 0 <= i < |some| && u == Tag(some[i].modelRef);
        assert more[i] == some[i];
      }
      assert more[k] == specs[k];
    }
  }

  lemma {:induction false} TagsAreDistinct(cfg: Config, specs: seq<ModelSpec>, k: nat)
    requires DifferentTags(cfg, specs) && k <= |specs|
    ensures |TagsOf(specs[..k])| == k
  {
    if k == 0 {
      assert TagsOf(specs[..0]) == {};
    } else {
      TagsAreDistinct(cfg, specs, k - 1);
      OneMoreTag(specs, k - 1);
      assert Tag(specs[k - 1].modelRef) !in TagsOf(specs[..k - 1]);
    }
  }

  /** `k` loads raise one after the other, and every one of them takes hold all the same. */
  lemma {:induction false} RaisedLoads(cfg: Config, specs: seq<ModelSpec>, k: nat) returns (s: Sup, w: World)
    requires DifferentTags(cfg, specs) && k <= |specs|
    ensures SystemReachable(cfg, s, w) && Rests(s)
    ensures w == World(TagsOf(specs[..k]), TagsOf(specs[..k]), 0, k, 0, 0)
    ensures if k == 0 then s.state == Idle && s.backend == None
            else s.state == Error && s.active == None && s.backend.Some? && UnitOf(s.backend.value) in w.leaked
  {
    if k == 0 {
      SystemStarts(cfg);
      s, w := Init(), Empty();
      assert TagsOf(specs[..0]) == {};
    } else {
      s, w := RaisedLoads(cfg, specs, k - 1);
      s, w := RaisesOnTop(cfg, s, w, specs, k - 1);
    }
  }

  /** One more load that raises, on top of whatever is there, and takes hold. */
  lemma RaisesOnTop(cfg: Config, s: Sup, w: World, specs: seq<ModelSpec>, n: nat) returns (s': Sup, w': World)
    requires n < |specs| && specs[n].backend == OLLAMA && SystemReachable(cfg, s, w) && Rests(s) && Usable(cfg, specs[n])
    requires w.resident == TagsOf(specs[..n]) == w.leaked
    requires || (s.backend == None && (s.state == Idle || s.state == Error))
             || (s.state == Error && s.active == None && s.backend.Some? && UnitOf(s.backend.value) in w.leaked)
    ensures SystemReachable(cfg, s', w') && Rests(s') && s'.state == Error && s'.active == None
    ensures s'.backend.Some? && UnitOf(s'.backend.value) in w'.leaked
    ensures var tags := TagsOf(specs[..n + 1]); w' == w.(resident := tags, leaked := tags, raisedLoads := w.raisedLoads + 1)
  {
    var loading := LoadsNext(cfg, s, w, specs[n]);
    s', w' := LoadRaises(cfg, loading, w, specs[n], s.jobs);
    OneMoreTag(specs, n);
  }

  lemma LoadsNext(cfg: Config, s: Sup, w: World, next: ModelSpec) returns (s': Sup)
    requires SystemReachable(cfg, s, w) && Rests(s) && Usable(cfg, next)
    requires || (s.backend == None && (s.state == Idle || s.state == Error))
             || (s.state == Error && s.active == None && s.backend.Some? && UnitOf(s.backend.value) in w.leaked)
    ensures SystemReachable(cfg, s', w) && Loads(s', next, s.jobs)
  {
    if s.backend == None {
      s' := LoadsAtOnce(cfg, s, w, next);
    } else {
      s' := LoadsAfterRaisedLoad(cfg, s, w, next);
    }
  }

  /** One more load that comes up, on top of whatever is there. */
  lemma ComesUp(cfg: Config, s: Sup, w: World, specs: seq<ModelSpec>, n: nat) returns (s': Sup, w': World)
    requires n < |specs| && specs[n].backend == OLLAMA && w.resident == TagsOf(specs[..n])
    requires SystemReachable(cfg, s, w) && Rests(s) && Usable(cfg, specs[n])
    requires || (s.backend == None && (s.state == Idle || s.state == Error))
             || (s.state == Error && s.active == None && s.backend.Some? && UnitOf(s.backend.value) in w.leaked)
    ensures SystemReachable(cfg, s', w') && Rests(s') && s'.state == Ready && s'.active == Some(specs[n].id)
    ensures s'.backend.Some? && w' == w.(resident := TagsOf(specs[..n + 1]))
  {
    var loading := LoadsNext(cfg, s, w, specs[n]);
    s', w' := LoadSucceeds(cfg, loading, w, specs[n], s.jobs);
    OneMoreTag(specs, n);
  }

  /** After the raised loads, one load after the other comes up and is then not unloaded. */
  lemma {:induction false} FailedUnloads(cfg: Config, specs: seq<ModelSpec>, raised: nat, failed: nat)
    returns (s: Sup, w: World)
    requires DifferentTags(cfg, specs) && raised + failed < |specs|
    ensures SystemReachable(cfg, s, w) && Rests(s) && s.state == Ready && s.active == Some(specs[raised + failed].id)
    ensures s.backend.Some? && w.resident == TagsOf(specs[..raised + failed + 1])
    ensures w.raisedLoads == raised && w.failedUnloads == failed && w.unseen == 0
    decreases failed
  {
    if failed == 0 {
      s, w := RaisedLoads(cfg, specs, raised);
    } else {
      s, w := FailedUnloads(cfg, specs, raised, failed - 1);
      s, w := UnloadFails(cfg, s, w, specs[raised + failed]);
    }
    s, w := ComesUp(cfg, s, w, specs, raised + failed);
  }

  /** No smaller bound would do: for any numbers of raised loads and of failed unloads the daemon can
      end with exactly one model more than both together, every one a different tag, and the
      supervisor reports `ready`. */
  lemma BoundIsTight(cfg: Config, specs: seq<ModelSpec>, raised: nat, failed: nat) returns (s: Sup, w: World)
    requires DifferentTags(cfg, specs) && |specs| == raised + failed + 1
    ensures SystemReachable(cfg, s, w) && s.state == Ready && s.active == Some(specs[raised + failed].id)
    ensures w.raisedLoads == raised && w.failedUnloads == failed && w.unseen == 0
    ensures w.resident == TagsOf(specs) && |w.resident| == 1 + raised + failed
  {
    s, w := FailedUnloads(cfg, specs, raised, failed);
    assert specs[..|specs|] == specs;
    TagsAreDistinct(cfg, specs, |specs|);
  }
}
