/** How much the harness has made resident, over every run of switches, successes and failures. The
    engines' memory is a set of units: on `ollama` a unit is a tag, so loading a tag twice makes one
    resident; on `vllm` it is the process a job spawned. What a backend call may do to that set is
    the contract the backend classes are proved to meet (`BackendContract`). */
module SupervisorResidency {
  import opened Prelude
  import opened SupervisorMachine
  import opened SupervisorInvariant
  import opened BackendContract

  const OLLAMA := "ollama"

  datatype Unit = Tag(ref: string) | Process(job: nat)

  /** What loading through this backend can make resident. */
  function UnitOf(b: Backend): Unit {
    if b.spec.backend == OLLAMA then Tag(b.spec.modelRef) else Process(b.job)
  }

  /** `leaked` are the units nobody holds a handle to any more although they may still be there: each
      was given up on by a failed unload, by a load that raised, or by a wait that returned unseen
      while it was still there. `unseen` are all the waits that returned unseen, `unconfirmed` those
      of them that were wrong. */
  datatype World = World(
    resident: set<Unit>,
    leaked: set<Unit>,
    failedUnloads: nat,
    raisedLoads: nat,
    unconfirmed: nat,
    unseen: nat)

  function Empty(): World {
    World({}, {}, 0, 0, 0, 0)
  }

  function Failures(w: World): nat {
    w.failedUnloads + w.raisedLoads + w.unconfirmed
  }

  /** Why a wait for release returned: an answer showed the unit gone; there was nothing to wait for,
      because its load had raised; or nobody saw, because the
      daemon did not answer or the process had survived being killed, and it was taken to be gone. */
  datatype Evidence = SeenGone | NothingPinned | Unseen

  /** The unit whose load is being awaited. */
  function InLoading(s: Sup): set<Unit> {
    if s.task.Live? && s.task.phase.InLoad? then {UnitOf(Backend(s.task.spec, s.task.job))} else {}
  }

  /** The backend whose weights somebody still answers for: at most one. */
  function InHand(s: Sup): Option<Backend> {
    if s.backend.Some? then s.backend
    else if s.task.Live? && (s.task.phase.InStop? || s.task.phase.InRelease?) then Some(s.task.phase.outgoing)
    else None
  }

  function Held(s: Sup): set<Unit> {
    if InHand(s).Some? then {UnitOf(InHand(s).value)} else {}
  }

  predicate ReturnsRelease(e: Event) {
    e.ReleaseReturned? && e.error.None?
  }

  /** The counters and leaks after `e`, when the engines' memory has become `resident`. A release is
      counted as unconfirmed only when nobody saw and the unit is in fact still there. */
  function After(s: Sup, e: Event, evidence: Evidence, w: World, resident: set<Unit>): World
    requires Enabled(s, e)
  {
    var w := w.(resident := resident);
    match e
    case StopReturned(Some(_)) =>
      w.(leaked := w.leaked + {UnitOf(s.task.phase.outgoing)}, failedUnloads := w.failedUnloads + 1)
    case ReleaseReturned(Some(_)) =>
      w.(leaked := w.leaked + {UnitOf(s.task.phase.outgoing)}, failedUnloads := w.failedUnloads + 1)
    case ReleaseReturned(None) =>
      var unit := UnitOf(s.task.phase.outgoing);
      if evidence != Unseen then w
      else if unit !in resident then w.(unseen := w.unseen + 1)
      else w.(leaked := w.leaked + {unit}, unconfirmed := w.unconfirmed + 1, unseen := w.unseen + 1)
    case LoadReturned(Some(_), _) =>
      w.(leaked := w.leaked + {UnitOf(Backend(s.task.spec, s.task.job))}, raisedLoads := w.raisedLoads + 1)
    case _ => w
  }

  /** What an engine that meets the contract may do while `e` happens. Residents can go at any time;
      they come only from the load being awaited, or late from one that was given up on. A release
      that returned on an answer really released. */
  ghost predicate Allowed(s: Sup, e: Event, evidence: Evidence, w: World, resident: set<Unit>)
    requires Enabled(s, e)
  {
    && resident <= w.resident + w.leaked + InLoading(s)
    && (ReturnsRelease(e) ==>
          var unit := UnitOf(s.task.phase.outgoing);
          && (evidence == SeenGone ==> Released(resident, unit))
          && (evidence == NothingPinned ==> unit in w.leaked))
  }

  ghost predicate WorldStep(s: Sup, e: Event, evidence: Evidence, w: World, w': World)
    requires Enabled(s, e)
  {
    Allowed(s, e, evidence, w, w'.resident) && w' == After(s, e, evidence, w, w'.resident)
  }

  /** Whatever a backend that meets its contract does to the engine is a step of the world: it loads
      its own unit only, nothing else loads, and a release that returns on an answer released. */
  lemma ContractIsWorldStep(s: Sup, e: Event, evidence: Evidence, w: World, resident: set<Unit>)
    requires Enabled(s, e)
    requires if s.task.Live? && s.task.phase.InLoad?
             then LoadsOnly(w.resident, resident, UnitOf(Backend(s.task.spec, s.task.job)))
             else LoadsNothing(w.resident, resident)
    requires ReturnsRelease(e) && evidence == SeenGone ==> Released(resident, UnitOf(s.task.phase.outgoing))
    requires ReturnsRelease(e) && evidence == NothingPinned ==> UnitOf(s.task.phase.outgoing) in w.leaked
    ensures WorldStep(s, e, evidence, w, After(s, e, evidence, w, resident))
  {
  }

  ghost predicate WorldInv(s: Sup, w: World) {
    && w.resident <= w.leaked + Held(s)
    && |w.leaked| <= Failures(w)
    && w.unconfirmed <= w.unseen
  }

  /** How far the backend in hand is: its load is awaited, or its release, or neither. */
  datatype Stage = Coming | Going | Settled

  function StageOf(s: Sup): Stage {
    if s.task.Live? && s.task.phase.InLoad? then Coming
    else if s.task.Live? && s.task.phase.InRelease? then Going
    else Settled
  }

  predicate Closes(s: Sup) {
    s.task.Live? && s.task.phase.InClose?
  }

  /** What a step does to the backend in hand: a load that returned has it settle, an unload that
      returned has it go, a failed unload or the end of the wait lets go of it, and nothing else
      changes it but the step that builds the next one, out of an empty hand. */
  ghost predicate HoldsOn(cfg: Config, s: Sup, e: Event, s': Sup)
    requires Enabled(s, e)
  {
    match e
    case LoadReturned(_, _) =>
      InHand(s') == InHand(s) == Some(Backend(s.task.spec, s.task.job)) && StageOf(s') == Settled
    case StopReturned(None) => InHand(s') == InHand(s) == Some(s.task.phase.outgoing) && StageOf(s') == Going
    case StopReturned(Some(_)) => InHand(s) == Some(s.task.phase.outgoing) && InHand(s') == None
    case ReleaseReturned(_) => InHand(s) == Some(s.task.phase.outgoing) && InHand(s') == None
    case _ =>
      && (Closes(s') ==> Closes(s))
      && ((InHand(s') == InHand(s) && StageOf(s') == StageOf(s)) || (InHand(s) == None && StartsLoad(cfg, s, s')))
  }

  /** The step that builds the activation's own backend and issues its load. */
  predicate StartsLoad(cfg: Config, s: Sup, s': Sup) {
    && s.task.Live? && s.task.spec.backend in cfg.backends
    && s'.task == Live(s.task.spec, s.task.job, InLoad)
    && s'.backend == Some(Backend(s.task.spec, s.task.job))
    && s'.calls == s.calls + [Load(s.task.job)]
  }

  lemma HandAfterDrain(cfg: Config, s: Sup, e: Event)
    requires TaskInv(cfg, s) && Enabled(s, e) && (e.TaskStart? || e.DrainTick?)
    ensures HoldsOn(cfg, s, e, Step(cfg, s, e))
  {
  }

  lemma HandAfterUnload(cfg: Config, s: Sup, e: Event)
    requires TaskInv(cfg, s) && Enabled(s, e) && (e.StopReturned? || e.ReleaseReturned? || e.CloseReturned?)
    ensures HoldsOn(cfg, s, e, Step(cfg, s, e))
  {
  }

  lemma HandAfterLoad(cfg: Config, s: Sup, e: Event)
    requires TaskInv(cfg, s) && Enabled(s, e) && (e.LoadReturned? || e.HealthReturned?)
    ensures HoldsOn(cfg, s, e, Step(cfg, s, e))
  {
  }

  lemma HandAfterRequest(cfg: Config, s: Sup, e: Event)
    requires Enabled(s, e) && !IsTaskEvent(e) && (s.locked <==> s.task.Live?)
    ensures HoldsOn(cfg, s, e, Step(cfg, s, e))
  {
    assert Step(cfg, s, e).backend == s.backend;
  }

  lemma HandAfterStep(cfg: Config, s: Sup, e: Event)
    requires JobsInv(s) && TaskInv(cfg, s) && Enabled(s, e)
    ensures HoldsOn(cfg, s, e, Step(cfg, s, e))
    ensures InLoading(s) <= Held(s)
  {
    if e.TaskStart? || e.DrainTick? {
      HandAfterDrain(cfg, s, e);
    } else if e.LoadReturned? || e.HealthReturned? {
      HandAfterLoad(cfg, s, e);
    } else if IsTaskEvent(e) {
      HandAfterUnload(cfg, s, e);
    } else {
      HandAfterRequest(cfg, s, e);
    }
  }

  /** While the activation waits for its backend, that backend is the one in hand. */
  lemma HandOfTask(cfg: Config, s: Sup)
    requires Reachable(cfg, s) && s.task.Live?
    ensures s.task.phase.InLoad? || s.task.phase.InPoll? ==> InHand(s) == Some(Backend(s.task.spec, s.task.job))
    ensures s.task.phase.InStop? || s.task.phase.InRelease? ==> InHand(s) == Some(s.task.phase.outgoing)
    ensures s.task.phase.InClose? ==> InHand(s) == None
  {
    ReachableInv(cfg, s);
  }

  lemma LeakOne(leaked: set<Unit>, unit: Unit)
    ensures |leaked + {unit}| <= |leaked| + 1
  {
    if unit in leaked {
      assert leaked + {unit} == leaked;
    }
  }

  lemma StepKeepsWorldInv(cfg: Config, s: Sup, e: Event, evidence: Evidence, w: World, w': World)
    requires JobsInv(s) && TaskInv(cfg, s) && Enabled(s, e) && WorldInv(s, w) && WorldStep(s, e, evidence, w, w')
    ensures WorldInv(Step(cfg, s, e), w')
  {
    HandAfterStep(cfg, s, e);
    if w'.leaked != w.leaked {
      LeakOne(w.leaked, if e.LoadReturned? then UnitOf(Backend(s.task.spec, s.task.job)) else UnitOf(s.task.phase.outgoing));
    }
  }

  // ----------------------------------------------------------------------- runs

  datatype Turn = Turn(event: Event, evidence: Evidence, world: World)

  ghost function SystemRun(cfg: Config, s: Sup, w: World, turns: seq<Turn>): Option<(Sup, World)>
    decreases |turns|
  {
    if turns == [] then Some((s, w))
    else
      var Turn(e, evidence, w') := turns[0];
      if Enabled(s, e) && WorldStep(s, e, evidence, w, w') then SystemRun(cfg, Step(cfg, s, e), w', turns[1..])
      else None
  }

  ghost predicate SystemReachable(cfg: Config, s: Sup, w: World) {
    exists turns :: SystemRun(cfg, Init(), Empty(), turns) == Some((s, w))
  }

  lemma {:induction false} SystemRunKeepsInv(cfg: Config, s: Sup, w: World, turns: seq<Turn>)
    requires Inv(cfg, s) && WorldInv(s, w) && SystemRun(cfg, s, w, turns).Some?
    ensures var (s', w') := SystemRun(cfg, s, w, turns).value;
            Inv(cfg, s') && WorldInv(s', w')
    decreases |turns|
  {
    if turns != [] {
      var Turn(e, evidence, w') := turns[0];
      StepKeepsInv(cfg, s, e);
      StepKeepsWorldInv(cfg, s, e, evidence, w, w');
      SystemRunKeepsInv(cfg, Step(cfg, s, e), w', turns[1..]);
    }
  }

  /** Nothing ever done by engine and supervisor together breaks either invariant. */
  lemma SystemReachableInv(cfg: Config, s: Sup, w: World)
    requires SystemReachable(cfg, s, w)
    ensures Inv(cfg, s) && WorldInv(s, w)
  {
    var turns :| SystemRun(cfg, Init(), Empty(), turns) == Some((s, w));
    SystemRunKeepsInv(cfg, Init(), Empty(), turns);
  }

  /** The upstream name of the model a unit holds. */
  function RefOf(cfg: Config, s: Sup, u: Unit): string {
    match u
    case Tag(ref) => ref
    case Process(j) =>
      if j < |s.jobs| && cfg.catalog.Get(s.jobs[j].model).Some? then cfg.catalog.Get(s.jobs[j].model).value.modelRef else ""
  }

  function RefsOf(cfg: Config, s: Sup, units: set<Unit>): set<string> {
    set u | u in units :: RefOf(cfg, s, u)
  }

  lemma {:induction false} RefsBound(cfg: Config, s: Sup, units: set<Unit>)
    ensures |RefsOf(cfg, s, units)| <= |units|
  {
    if units != {} {
      var u :| u in units;
      var rest := units - {u};
      RefsBound(cfg, s, rest);
      var ref := RefOf(cfg, s, u);
      assert RefsOf(cfg, s, units) == RefsOf(cfg, s, rest) + {ref};
      if ref in RefsOf(cfg, s, rest) {
        assert RefsOf(cfg, s, units) == RefsOf(cfg, s, rest);
      }
    }
  }

  /** Residency conservation: at every instant of every run, at most one unit - and one model - more
      than there were failed unloads, raised loads, and releases taken to have happened
      while the unit was still there. */
  lemma ResidencyBound(cfg: Config, s: Sup, w: World)
    requires SystemReachable(cfg, s, w)
    ensures |w.resident| <= 1 + Failures(w) <= 1 + w.failedUnloads + w.raisedLoads + w.unseen
    ensures |RefsOf(cfg, s, w.resident)| <= 1 + Failures(w)
    ensures Failures(w) == 0 ==> w.resident <= Held(s)
  {
    SystemReachableInv(cfg, s, w);
    assert |Held(s)| <= 1;
    SubsetSize(w.resident, w.leaked + Held(s));
    RefsBound(cfg, s, w.resident);
  }

  /** Whenever nobody saw, the unit was indeed gone. */
  ghost predicate UnseenMeansGone(cfg: Config, s: Sup, turns: seq<Turn>)
    decreases |turns|
  {
    turns == [] ||
    (var Turn(e, evidence, w) := turns[0];
     Enabled(s, e)
     && (ReturnsRelease(e) && evidence == Unseen ==> Released(w.resident, UnitOf(s.task.phase.outgoing)))
     && UnseenMeansGone(cfg, Step(cfg, s, e), turns[1..]))
  }

  lemma {:induction false} UnseenCostsNothing(cfg: Config, s: Sup, w: World, turns: seq<Turn>)
    requires SystemRun(cfg, s, w, turns).Some? && UnseenMeansGone(cfg, s, turns)
    ensures SystemRun(cfg, s, w, turns).value.1.unconfirmed == w.unconfirmed
    decreases |turns|
  {
    if turns != [] {
      UnseenCostsNothing(cfg, Step(cfg, s, turns[0].event), turns[0].world, turns[1..]);
    }
  }

  /** With an unreachable daemon read as nothing resident, two counters are enough: at most one model
      more than failed unloads and raised loads, over every run. */
  lemma ResidencyBoundWhenUnseenMeansGone(cfg: Config, turns: seq<Turn>)
    requires SystemRun(cfg, Init(), Empty(), turns).Some? && UnseenMeansGone(cfg, Init(), turns)
    ensures var (s, w) := SystemRun(cfg, Init(), Empty(), turns).value;
            |w.resident| <= 1 + w.failedUnloads + w.raisedLoads
  {
    var (s, w) := SystemRun(cfg, Init(), Empty(), turns).value;
    UnseenCostsNothing(cfg, Init(), Empty(), turns);
    ResidencyBound(cfg, s, w);
  }

  /** The load of the next model is only ever issued once nothing is in hand: what is then still
      resident is what failures leaked, and nothing in a failure-free run. */
  lemma LoadsIntoEmptyMemory(cfg: Config, s: Sup, w: World, e: Event)
    requires SystemReachable(cfg, s, w) && Enabled(s, e)
    requires s.task.Live? && Step(cfg, s, e).calls == s.calls + [Load(s.task.job)]
    ensures w.resident <= w.leaked
    ensures Failures(w) == 0 ==> w.resident == {}
  {
    SystemReachableInv(cfg, s, w);
    LoadMeansNothingHeld(cfg, s, e);
  }

  /** A step issues at most one call, and a load only with nothing in hand. */
  lemma CallsOfStep(cfg: Config, s: Sup, e: Event)
    requires Inv(cfg, s) && Enabled(s, e)
    ensures var calls' := Step(cfg, s, e).calls;
            || (calls' == s.calls)
            || (s.backend.Some? && calls' == s.calls + [Unload(s.backend.value.job)])
            || (s.task.Live? && calls' == s.calls + [Load(s.task.job)] && InHand(s) == None)
  {
    if e.TaskStart? || e.DrainTick? || e.CloseReturned? {
      CallsOfTask(cfg, s, e);
    } else {
      OthersIssueNothing(cfg, s, e);
    }
  }

  lemma OthersIssueNothing(cfg: Config, s: Sup, e: Event)
    requires Enabled(s, e) && !e.TaskStart? && !e.DrainTick? && !e.CloseReturned?
    ensures Step(cfg, s, e).calls == s.calls
  {
  }

  lemma CallsOfTask(cfg: Config, s: Sup, e: Event)
    requires TaskInv(cfg, s) && Enabled(s, e) && (e.TaskStart? || e.DrainTick? || e.CloseReturned?)
    ensures var calls' := Step(cfg, s, e).calls;
            || calls' == s.calls
            || (s.backend.Some? && calls' == s.calls + [Unload(s.backend.value.job)])
            || (calls' == s.calls + [Load(s.task.job)] && InHand(s) == None)
  {
  }

  lemma LoadMeansNothingHeld(cfg: Config, s: Sup, e: Event)
    requires Inv(cfg, s) && Enabled(s, e)
    requires s.task.Live? && Step(cfg, s, e).calls == s.calls + [Load(s.task.job)]
    ensures InHand(s) == None
  {
    CallsOfStep(cfg, s, e);
    assert (s.calls + [Load(s.task.job)])[|s.calls|].Load?;
  }

  // --------------------------------------------------------------- building runs

  lemma {:induction false} SystemRunAppend(cfg: Config, s: Sup, w: World, turns: seq<Turn>, turn: Turn)
    requires SystemRun(cfg, s, w, turns).Some?
    requires var (s', w') := SystemRun(cfg, s, w, turns).value;
             Enabled(s', turn.event) && WorldStep(s', turn.event, turn.evidence, w', turn.world)
    ensures SystemRun(cfg, s, w, turns + [turn]) ==
            Some((Step(cfg, SystemRun(cfg, s, w, turns).value.0, turn.event), turn.world))
    decreases |turns|
  {
    var more := turns + [turn];
    if turns == [] {
      assert more[1..] == [];
    } else {
      assert more[0] == turns[0] && more[1..] == turns[1..] + [turn];
      SystemRunAppend(cfg, Step(cfg, s, turns[0].event), turns[0].world, turns[1..], turn);
    }
  }

  lemma SystemStep(cfg: Config, s: Sup, w: World, e: Event, evidence: Evidence, w': World) returns (s': Sup)
    requires SystemReachable(cfg, s, w) && Enabled(s, e) && WorldStep(s, e, evidence, w, w')
    ensures s' == Step(cfg, s, e) && SystemReachable(cfg, s', w')
  {
    s' := Step(cfg, s, e);
    var turns :| SystemRun(cfg, Init(), Empty(), turns) == Some((s, w));
    SystemRunAppend(cfg, Init(), Empty(), turns, Turn(e, evidence, w'));
  }

  lemma SystemStarts(cfg: Config)
    ensures SystemReachable(cfg, Init(), Empty())
  {
    assert SystemRun(cfg, Init(), Empty(), []) == Some((Init(), Empty()));
  }
}
