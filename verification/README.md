# Harness control plane: a verified model

The control plane keeps one language model serving at a time. A client asks for a model; the
supervisor drains the completions in flight, unloads the old model, loads the new one, polls it
until it answers, and reports `ready`. A watchdog looks at the serving backend in between. Around
that sit the inference backends, the ring buffer of log lines, the filter that keeps secrets out of
the logs, the job registry and the model catalog.

This project models those parts in Dafny and proves what they keep. `dafny verify dfyconfig.toml`
checks all of it.

## How the model is built

**The supervisor.** Several coroutines share mutable fields, and everything between two awaits is
atomic. `Machine.dfy` has one step per await-free segment; an `Event` says which coroutine resumes,
and carries what the outside world answered (a call returned or raised, a health poll, a clock
reading, whether the disk took a write). An interleaving is a sequence of events. The watchdog takes
two steps, a sample and a verdict, so a verdict can be stale. `MachineInvariant.dfy` proves one
invariant for every interleaving, `MachineRuns.dfy` the safety properties over whole runs,
`MachineOutcomes.dfy` what each answer leads to, `MachineTiming.dfy` how long it waits,
`MachineTermination.dfy` that every activation ends. `Supervisor.dfy` is the class with the same
fields as the original and one method per segment. Its validity says that what the object shows is a
state some interleaving reaches; `Resume`, `Activate` and `Dispatch` keep that, so whatever is proved
of reachable states is proved of the object, and the facts callers need are stated there as
postconditions.

**The backends.** `BackendContract.dfy` says what the supervisor relies on from an engine, as
relations on the set of resident units before and after a call. `Ollama.dfy` and `Vllm.dfy` model
the two backends that hold memory, against a daemon and a host (`Host.dfy`) that may refuse, stay
silent, answer oddly, or lose a process at any moment. `Residency.dfy` proves the counting bound over
every run of supervisor and engines together, for any catalog: on `ollama` a unit is a tag, on `vllm`
the process of one job. `ResidencyRuns.dfy` has the runs that use the bound up. `OllamaPlane.dfy`
joins the supervisor object to a daemon: each load, unload, wait and poll is the real call, each is
proved to be a step of the residency proof's world, and the bound comes out on the daemon's own
memory. `VllmPlane.dfy` does the same with a host, where the bound is on live processes.

**Output and logs.** `PumpSpec.dfy` is the one-shot reading of a character stream: its tokens are
the maximal non-empty runs free of `\r` and `\n`. `Pump.dfy` is the incremental pump, and proves
exactly when the two agree. `LogBuffer.dfy` is the ring buffer it writes into. `Substrings.dfy` and
`Redaction.dfy` are the secret filter and the string combinatorics it rests on.

**The rest.** `Readiness.dfy` (timed polling), `Jobs.dfy` (identifiers, job lifecycle, bounded
registry), `Catalog.dfy` (merge, duplicates, lookup), `ModelState.dfy` (the legal edges),
`Prelude.dfy` (shared helpers).

## Where the code differs from what is said about it

- *"The watchdog leaves a switch alone"* (supervisor.py:468-469). A verdict asked for in `ready` can
  arrive in the middle of the next switch and turns it into `error`; the switch then fails although
  its model came up (`StaleVerdictFailsHealthySwitch`). `TransitionSafety` proves that this is the
  only way a transition is ever refused, and that the refusal is absorbed.
- *"At most one model is resident"* (ADR-0002, base.py:55-64). The supervisor gives its backend up
  before asking it to stop, so after a failed unload the next activation skips the stop and loads on
  top (`TwoResidentAfterFailedUnload`); and a load that raised has pinned nothing, so it is never
  unloaded. `ResidencyBound` is the true form, `BoundIsTight` shows that no smaller bound holds, with
  different tags of one daemon and any numbers of either failure. An unreachable daemon is read as
  "nothing resident" (ollama.py:161); `ResidencyBoundWhenUnseenMeansGone` says what follows when that
  reading is right, and otherwise each such wait is counted.
- *"The drain waits for actual work"* (supervisor.py:530-534). Only streams whose generator has
  started are counted (`UnstartedRelayIsNotDrained`). `DrainWaitsForStreams` proves the form that
  holds.
- *"A line longer than this is flushed as-is"* (vllm.py:40-41). What has accumulated beyond 16384
  characters is dropped. `PumpIsExact` gives the exact condition under which nothing is lost,
  `PumpConserves` counts what is.
- *"Makes it impossible to log the API key"* (logging_config.py:1). A configured secret that
  overlaps the marker - the word `redacted` itself, a string containing `[redacted]`, one that
  starts with an end of it or ends with a start of it - can survive, or be put together by, the
  replacements; one that ends in the word `bearer` and a space can be rebuilt by the first pattern,
  which writes that space (`MyBearerShows`: `my bearer`, a tab and eight letters). `RedactionIsExact`
  proves that these are all of them.

## Model

| member | source | states |
|---|---|---|
| SupervisorInvariant.ReachableInv | src/harness_control/supervisor/supervisor.py:213-359 | In every state any interleaving can reach: the lock is held iff one task is live iff one job is running, and that job is the newest, every other one finished; `ready` means lock free, no task, an active model, its own backend, no last error and a newest job that succeeded for it; `loading`, `idle` and `error` have no active model; `error` has a last error; `stopping` and `loading` hold the lock; the stream counter is the number of open streams; every dispatched completion is coherent |
| SupervisorInvariant.RunKeepsInv | src/harness_control/supervisor/supervisor.py:213-482 | From any state with the invariant, a whole run of any length and interleaving ends in one with it |
| SupervisorInvariant.StepKeepsInv | src/harness_control/supervisor/supervisor.py:213-544 | Each atomic segment of activate, the activation task, the watchdog and the relays keeps the invariant, also when a verdict is stale |
| SupervisorInvariant.ActivateKeepsInv | src/harness_control/supervisor/supervisor.py:213-260 | Accepting or refusing an activation keeps the invariant |
| SupervisorInvariant.StopCurrentKeepsInv | src/harness_control/supervisor/supervisor.py:407-425 | Giving the backend up before stopping it keeps the invariant, with or without a backend |
| SupervisorInvariant.StartLoadKeepsInv | src/harness_control/supervisor/supervisor.py:324-331 | Building the new backend and entering `loading` keeps the invariant and attempts no illegal edge, even after a verdict has already put `error` there |
| SupervisorInvariant.EndFailedKeepsInv | src/harness_control/supervisor/supervisor.py:277-298 | A failed activation ends in `error` with its job failed and the invariant kept; `_fail` raises nothing |
| SupervisorInvariant.FinishReady | src/harness_control/supervisor/supervisor.py:347-359 | A healthy poll in `loading` ends in `ready` for that model, with no illegal edge |
| SupervisorInvariant.FinishRefused | src/harness_control/supervisor/supervisor.py:347-351 | After a stale verdict the same poll is refused its edge; the exception is absorbed and the segment ends in `error`, job failed, no active model, lock free |
| SupervisorInvariant.VerdictKeepsInv | src/harness_control/supervisor/supervisor.py:476-482 | A verdict keeps the invariant whenever it arrives |
| SupervisorInvariant.GuardPassesCoherently | src/harness_control/proxy.py:52-110 | A completion that passes the guard does so with no switch live, and base URL, upstream headers and outgoing model name all belong to the model it asked for |
| SupervisorInvariant.RelayMoveKeepsInv | src/harness_control/proxy.py:148-167 | However a relay starts or ends, the counter stays the number of open streams |
| SupervisorInvariant.StreamsUpdate | src/harness_control/supervisor/supervisor.py:540-544 | Moving one relay changes the number of open streams by exactly what that relay contributes |
| SupervisorRuns.TransitionSafety | src/harness_control/supervisor/supervisor.py:514-524 | In every reachable state a step attempts an illegal edge iff it is a healthy poll in `error`, and then ends cleanly in `error` with a failed job and a free lock; every visible change is a legal edge, and one of those few that are ever taken; the watchdog loop never dies; `idle` is never re-entered |
| ModelStates.EnteredFrom | src/harness_control/supervisor/state.py:30-43 | From where each state can be entered, read off the table the other way round |
| SupervisorRuns.OnlyVerdictsInterrupt | src/harness_control/supervisor/supervisor.py:465-482 | `error` appears under a running task exactly by an unhealthy verdict |
| SupervisorRuns.FinishedJobsNeverChange | src/harness_control/supervisor/jobs.py:33-53 | Over any run a finished job keeps its model and status |
| SupervisorRuns.LoadedAtMostOnce | src/harness_control/supervisor/supervisor.py:331 | In every reachable history `backend.activate` was called at most once per job |
| SupervisorRuns.CallsAlternate | src/harness_control/supervisor/supervisor.py:324-331 | In every reachable history loads and unloads take turns, each unload that of the load before it, whatever failed in between; a backend is in hand exactly after a load |
| SupervisorRuns.ErrorStays | src/harness_control/supervisor/supervisor.py:448-482 | No crash loop: from `error` with no task, any run without a catalogued activation stays there and issues no load or unload, whatever the watchdog and the relays do |
| SupervisorRuns.RetryAfterIsHonest | src/harness_control/proxy.py:57-69 | Mid-switch an activation is running, and the delay sent is the estimate in the very catalog entry it is for, or 10 when that is 0, never the outgoing model's, and always positive, as section 10.2.3 of RFC 9110 wants |
| SupervisorRuns.NothingPassesMidSwitch | src/harness_control/proxy.py:57-85 | While the lock is held no completion is dispatched, whatever the visible state |
| SupervisorRuns.ActivateIsAnswered | src/harness_control/supervisor/supervisor.py:220-260 | Unknown iff not in the catalog, in progress iff known and the lock is held, already active iff that model is `ready`, and in these cases nothing at all changes; otherwise never refused: lock, running job, `stopping`, and a task for that catalog entry |
| SupervisorRuns.DrainWaitsForStreams | src/harness_control/supervisor/supervisor.py:385-405 | The drain goes on only with no open stream or past its deadline; while it waits, streams are open, the deadline is fixed, and it looks again after exactly one poll interval, so less than one after the deadline |
| SupervisorRuns.FirstActivation | src/harness_control/supervisor/supervisor.py:300-359 | From rest, with good answers, any catalogued model reaches `ready` with exactly one load issued |
| SupervisorRuns.CleanSwitch | src/harness_control/supervisor/supervisor.py:300-359 | From any reachable `ready` with no open stream, good answers lead to `ready` for the other model, the old one remembered as previous, and only the restart record depending on the disk; exactly that model then passes the guard |
| SupervisorRuns.StaleVerdictFailsHealthySwitch | src/harness_control/supervisor/supervisor.py:470-482 | A run in which a stale verdict fails a switch whose model came up |
| SupervisorRuns.UnstartedRelayIsNotDrained | src/harness_control/proxy.py:130-149 | A run in which a dispatched completion whose stream has not started is not waited for |
| SupervisorOutcomes.SwitchEndsExactly | src/harness_control/supervisor/supervisor.py:273-359 | A running switch fails iff an unload or the load raised, the backend is unknown, the load deadline passed, or its healthy poll came after a stale verdict; it succeeds iff a healthy poll came in `loading`; anything else keeps the lock; either end leaves job, state, active model, error and lock agreeing; a failure issues no call and shows exactly what ended it, a backend's error in its own words and any other as unexpected |
| SupervisorOutcomes.FailedUnloadEndsTheSwitch | src/harness_control/supervisor/supervisor.py:413-423 | After an unload that raised, the switch ends whatever `aclose` says: no load, `error`, lock free, backend gone, and the last error is that of `aclose` if it raised, else the unload's |
| SupervisorOutcomes.WatchdogAsksTheServingBackend | src/harness_control/supervisor/supervisor.py:465-473 | In every reachable state the watchdog asks iff the state is `ready`, and then the backend built from the active model's spec |
| SupervisorOutcomes.VerdictShowsButDoesNotAct | src/harness_control/supervisor/supervisor.py:476-482 | A bad verdict always ends in `error` with a reason and nothing active, a good one changes nothing, and neither touches backend, calls, jobs, lock or a running switch |
| SupervisorOutcomes.GuardFollowsTheState | src/harness_control/proxy.py:52-85 | In every reachable state: retry later iff `stopping` or `loading`, nothing active iff `idle` or `error`, and in `ready` a pass iff the active model was named, else a mismatch |
| SupervisorTiming.LoadGetsItsTimeout | src/harness_control/supervisor/supervisor.py:331-345 | A load that returned at t is polled at once, with the deadline t + load timeout |
| SupervisorTiming.PollsPromptly | src/harness_control/supervisor/readiness.py:27-32 | An unhealthy poll before the deadline is followed by one after a poll interval, or at the deadline if that is sooner, and the deadline stays |
| SupervisorTiming.DeadlineStands | src/harness_control/supervisor/readiness.py:26-32 | Over any run a poll keeps the deadline it started with for as long as its job is running |
| SupervisorTiming.NotReadyOnlyAfterTheTimeout | src/harness_control/supervisor/supervisor.py:336-345 | However the others interleave after a load returned at t, an unhealthy answer ends that activation iff it comes at t + load timeout or later |
| SupervisorTermination.ResumptionUsesBudget | src/harness_control/supervisor/supervisor.py:300-425 | Each resumption of the activation, whatever was answered, strictly lowers a budget of phases left, then sleeps left to the drain or load deadline |
| SupervisorTermination.OthersKeepTask | src/harness_control/supervisor/supervisor.py:224-231 | No other actor moves the activation or takes its lock |
| SupervisorTermination.LockIsReleased | src/harness_control/supervisor/supervisor.py:297-298 | In any interleaving that resumes the activation as often as its budget says, the lock has been free on the way |
| SupervisorTermination.AlwaysResumable | src/harness_control/supervisor/supervisor.py:273-359 | A held lock always has a live task that the next answer, any answer, moves on |
| SupervisorTermination.ActivationBudget | src/harness_control/supervisor/supervisor.py:336-340 | An activation takes at most ceil(drain / 0.1) + ceil(load / poll) + 7 resumptions |
| SupervisorResidency.ContractIsWorldStep | src/harness_control/supervisor/backends/base.py:32-64 | A backend that loads at most its own unit, unloads or waits without loading anything, and returns from a wait on an answer only once the unit is gone, makes a step the residency proof covers |
| SupervisorResidency.StepKeepsWorldInv | src/harness_control/supervisor/supervisor.py:407-425 | After any step, what is resident is the unit of the one backend in hand or was leaked by a counted failure |
| SupervisorResidency.HandAfterStep | src/harness_control/supervisor/supervisor.py:407-425 | The backend in hand changes only when a failed unload or the end of the wait lets go of it, or when the next one is built out of an empty hand |
| SupervisorResidency.SystemRunKeepsInv | src/harness_control/supervisor/supervisor.py:300-425 | Both invariants hold over every run of supervisor and engines together |
| SupervisorResidency.ResidencyBound | src/harness_control/supervisor/supervisor.py:407-425 | At every instant of every run, at most 1 + failed unloads + raised loads + waits that returned unseen while the unit was still there, in units and in models; with no failure only the unit in hand |
| SupervisorResidency.ResidencyBoundWhenUnseenMeansGone | src/harness_control/supervisor/backends/ollama.py:157-164 | With an unanswered look read as nothing resident, at most 1 + failed unloads + raised loads, over every run |
| SupervisorResidency.LoadsIntoEmptyMemory | src/harness_control/supervisor/supervisor.py:319-331 | A load is issued only when everything still resident was leaked by a counted failure; without failures, only into empty memory |
| SupervisorResidency.CallsOfStep | src/harness_control/supervisor/supervisor.py:409-425 | A step issues at most one load or unload: an unload of the backend in hand, or the activation's own load with nothing in hand |
| SupervisorResidencyRuns.TwoResidentAfterFailedUnload | src/harness_control/supervisor/supervisor.py:409-412 | A run with one failed unload that ends in `ready` with two different models resident |
| SupervisorResidencyRuns.RaisedLoads | src/harness_control/supervisor/backends/ollama.py:59-66 | A run of k loads that raise and take hold all the same: k different tags, none of them ever unloaded |
| SupervisorResidencyRuns.BoundIsTight | src/harness_control/supervisor/supervisor.py:409-412 | For any numbers of raised loads and failed unloads, and as many different tags and one more, a run ends in `ready` with exactly all those tags resident |
| OllamaPlanes.CallIsWorldStep | src/harness_control/supervisor/backends/ollama.py:53-191 | What the backend class guarantees of each call is a step of the world, and leaves its object knowing its tag for as long as there is something to unload |
| OllamaPlanes.OllamaPlane.Load | src/harness_control/supervisor/supervisor.py:324-340 | The real load on a fresh backend object, then the segment after it: only its own tag can come, and a raise is counted |
| OllamaPlanes.OllamaPlane.Unload | src/harness_control/supervisor/supervisor.py:413-414 | The real unload, then the segment after it: nothing comes, and a raise is counted |
| OllamaPlanes.OllamaPlane.Release | src/harness_control/supervisor/supervisor.py:415-419 | The real wait, then the segment after it: returning on a truthful last look means the tag is gone from the daemon, any other return is counted as unseen |
| OllamaPlanes.OllamaPlane.Poll | src/harness_control/supervisor/supervisor.py:336-351 | The real health call, then the segment after it: `ready` on a truthful answer means the tag is resident |
| OllamaPlanes.OllamaPlane.Other | src/harness_control/supervisor/supervisor.py:213-524 | Every other segment, interleaved freely while residents may go, keeps supervisor and daemon joined |
| OllamaPlanes.OllamaPlane.Residents | src/harness_control/supervisor/backends/ollama.py:136-191 | However supervisor and daemon got here, the daemon holds at most 1 + failed unloads + raised loads + unseen waits, and nothing without failures while nothing is in hand |
| VllmPlanes.VllmPlane.Load | src/harness_control/supervisor/supervisor.py:324-340 | The predecessor has always let go of its process when the next object is built; only that object's own process can come, and one that outlived stays counted |
| VllmPlanes.VllmPlane.Unload | src/harness_control/supervisor/supervisor.py:413-414 | After the real stop, returned or raised, whatever still runs has outlived being killed |
| VllmPlanes.VllmPlane.Release | src/harness_control/supervisor/supervisor.py:415-419 | A wait that returns with a process still there is charged to those that outlived their kill |
| VllmPlanes.VllmPlane.Close | src/harness_control/supervisor/supervisor.py:420-423 | Closing stops once more and has nothing left to kill |
| VllmPlanes.VllmPlane.Other | src/harness_control/supervisor/supervisor.py:213-524 | Every other segment, interleaved freely while processes may end, keeps all of it |
| VllmPlanes.VllmPlane.Processes | src/harness_control/supervisor/backends/vllm.py:45-46 | Over every activation there ever was: at most one live process more than outlived their kill, none more while nothing activated is in hand, and every spawn earned |
| Supervisors.Supervisor.constructor | src/harness_control/supervisor/supervisor.py:95-119 | A new supervisor is in the machine's initial state, with an empty registry |
| Supervisors.Supervisor.Resume | src/harness_control/supervisor/supervisor.py:213-544 | Whatever resumes, with whatever answer, the object does the machine's step and stays in a reachable state: lock iff a running activation, `ready` only with its own backend, no error and a newest job that succeeded, `error` with a reason and nothing active, the counter equal to the open streams |
| Supervisors.Supervisor.Settle | src/harness_control/supervisor/supervisor.py:213-544 | A segment that does the machine's step takes a reachable object to a reachable one |
| Supervisors.Supervisor.RunningJob | src/harness_control/supervisor/jobs.py:73-74 | Single flight through the registry: the running job is the newest, every older one is finished, and with capacity at least 1 its identifier finds it, running |
| Supervisors.Supervisor.Transition | src/harness_control/supervisor/supervisor.py:514-518 | Moves along a legal edge, or refuses and changes nothing visible |
| Supervisors.Supervisor.Fail | src/harness_control/supervisor/supervisor.py:520-524 | Sets the error and clears the active model first, and takes an edge only when not already in `error` |
| Supervisors.Supervisor.CreateJob | src/harness_control/supervisor/supervisor.py:238-239 | A new running job at the end of the registry's history, the older ones untouched |
| Supervisors.Supervisor.JobFails | src/harness_control/supervisor/supervisor.py:289-293 | The activation's own job, and no other, fails with the exception's own text - unlike `last_error`, which says when it was unexpected - and the last 20 log lines |
| Supervisors.Supervisor.JobSucceeds | src/harness_control/supervisor/supervisor.py:295-296 | The activation's own job, and no other, succeeds |
| Supervisors.Supervisor.ActivationFailed | src/harness_control/supervisor/supervisor.py:277-298 | Refines the machine's failed end, up to the released lock |
| Supervisors.Supervisor.EndTask | src/harness_control/supervisor/supervisor.py:297-298 | Ends the activation and releases the lock, nothing else |
| Supervisors.Supervisor.Activate | src/harness_control/supervisor/supervisor.py:213-260 | Unknown iff not in the catalog, busy iff known and the lock was held, already active iff that model was `ready`, and then nothing changes; else started, with the lock held, `stopping`, the model pending and a new newest job; the object stays reachable |
| Supervisors.Supervisor.BeginSwitch | src/harness_control/supervisor/supervisor.py:236-260 | Lock, running job, `stopping`, pending model and task, all before the call returns |
| Supervisors.Supervisor.TakeLock | src/harness_control/supervisor/supervisor.py:236-239 | The lock and one new running job |
| Supervisors.Supervisor.StartTask | src/harness_control/supervisor/supervisor.py:247-260 | The coroutine is created suspended before its first line, owning the job the lock was taken for |
| Supervisors.Supervisor.TaskStart | src/harness_control/supervisor/supervisor.py:300-321 | Refines the first segment: straight to the unload when nothing is in flight or the drain timeout is not positive |
| Supervisors.Supervisor.DrainTick | src/harness_control/supervisor/supervisor.py:398-405 | Refines one wake-up of the drain |
| Supervisors.Supervisor.DrainLoop | src/harness_control/supervisor/supervisor.py:398-405 | One turn of the loop: leave on zero or past the deadline, else sleep again to the same deadline |
| Supervisors.Supervisor.StopCurrent | src/harness_control/supervisor/supervisor.py:407-414 | The backend is given up before it is asked to stop; with none, the load starts in the same segment |
| Supervisors.Supervisor.StopReturned | src/harness_control/supervisor/supervisor.py:413-423 | A stop that raised goes to `aclose` with the error, one that returned goes to the wait for release |
| Supervisors.Supervisor.ReleaseReturned | src/harness_control/supervisor/supervisor.py:419-423 | `aclose` follows whether the wait returned or raised |
| Supervisors.Supervisor.CloseReturned | src/harness_control/supervisor/supervisor.py:420-425 | An error of `aclose`, its own text on the job, or else one of the unload, ends the activation; otherwise previous and active model move on and the load starts |
| Supervisors.Supervisor.StartLoad | src/harness_control/supervisor/supervisor.py:324-331 | Refines the machine's step: unknown backend, refused edge, or load issued |
| Supervisors.Supervisor.IssueLoad | src/harness_control/supervisor/supervisor.py:331 | Exactly one load call, for the activation's own job |
| Supervisors.Supervisor.LoadReturned | src/harness_control/supervisor/supervisor.py:331-340 | A raised load ends the activation with its own error text on the job; a returned one starts polling, to a deadline one load timeout away (`LoadGetsItsTimeout`) |
| Supervisors.Supervisor.HealthReturned | src/harness_control/supervisor/supervisor.py:336-359 | Refines one poll: ready, given up at the deadline, or asleep again |
| Supervisors.Supervisor.NotHealthyYet | src/harness_control/supervisor/readiness.py:28-32 | Past the deadline the activation fails; before it the next sleep never goes beyond it |
| Supervisors.Supervisor.Finish | src/harness_control/supervisor/supervisor.py:347-359 | Refines the segment from the healthy poll to the released lock, refused edge included |
| Supervisors.Supervisor.Announce | src/harness_control/supervisor/supervisor.py:347-351 | Active model set, error and pending cleared, and only then the edge into `ready` |
| Supervisors.Supervisor.PersistLastModel | src/harness_control/supervisor/supervisor.py:484-491 | The record changes only when the write succeeds, and nothing else does either way |
| Supervisors.Supervisor.Conclude | src/harness_control/supervisor/supervisor.py:295-298 | Job succeeded and lock released |
| Supervisors.Supervisor.WatchSample | src/harness_control/supervisor/supervisor.py:465-473 | Asks only in `ready` and only the backend it sees then |
| Supervisors.Supervisor.WatchVerdict | src/harness_control/supervisor/supervisor.py:472-482 | Refines the verdict, which looks at no state before failing |
| Supervisors.Supervisor.Dispatch | src/harness_control/proxy.py:52-110 | Dispatches exactly when the state is `ready` and that model is active, with no switch live, and everything it read belongs to the model asked for |
| Supervisors.Supervisor.RelayStarts | src/harness_control/supervisor/supervisor.py:540-541 | One more in flight, for one relay that starts streaming |
| Supervisors.Supervisor.StreamEnds | src/harness_control/supervisor/supervisor.py:543-544 | One less in flight, for one relay that was streaming |
| OllamaBackends.ModelNames | src/harness_control/supervisor/backends/ollama.py:102-109 | Exactly the tags a body names under `name` or `model`, whatever else it holds |
| OllamaBackends.OllamaBackend.Activate | src/harness_control/supervisor/backends/ollama.py:53-60 | One load of its own tag, which alone can become resident, returning or raising; the tag is remembered only on success |
| OllamaBackends.OllamaBackend.Stop | src/harness_control/supervisor/backends/ollama.py:62-72 | Exactly one unload of the pinned tag, none when nothing is pinned; the handle is cleared either way; nothing becomes resident |
| OllamaBackends.OllamaBackend.LoadedModels | src/harness_control/supervisor/backends/ollama.py:83-109 | Exactly the tags the daemon named, or nothing when it did not answer |
| OllamaBackends.OllamaBackend.Health | src/harness_control/supervisor/backends/ollama.py:74-81 | Healthy iff the daemon answers and lists the pinned tag; with a truthful answer, iff that tag is resident |
| OllamaBackends.OllamaBackend.AwaitReleased | src/harness_control/supervisor/backends/ollama.py:136-191 | Every look but the last listed the tag, and it returns iff the last did not, an unanswered one counting as gone; after a truthful last look returning means gone and raising means still there; raising only at or past the deadline; a quarter of a second asleep between two looks, at most ceil(timeout / 0.25) + 1 of them |
| Hosts.WaitForVramRelease | src/harness_control/supervisor/gpu.py:44-67 | Success means no `nvidia-smi`, or a very last look whose sum, and so every single GPU of it, is at or below the threshold, every earlier sum above; raising means all above and the deadline passed; one interval asleep between two looks, and a bounded number of them |
| Hosts.SumOfConcat | src/harness_control/supervisor/gpu.py:41 | The total over two groups of GPUs is the sum of their totals; with `SumOfOne`, this is what a sum is |
| Hosts.EachIsInTheSum | src/harness_control/supervisor/gpu.py:41 | No GPU uses more than the total |
| Hosts.Host.TotalMemoryUsed | src/harness_control/supervisor/gpu.py:39-41 | The total is the sum over all the GPUs of the one look that is recorded |
| VllmBackends.DisciplinedSpawn | src/harness_control/supervisor/backends/vllm.py:79-100 | Stop's probes and then the wait for memory, within one `activate`, earn the spawn that follows |
| VllmBackends.DisciplinedExtend | src/harness_control/supervisor/backends/vllm.py:79-100 | Anything but a spawn keeps a disciplined history disciplined |
| VllmBackends.VllmBackend.Activate | src/harness_control/supervisor/backends/vllm.py:79-100 | Every spawn in the whole history was earned: a free port, then released memory, in the same `activate` with no other spawn between; it raises because the port never came free, the memory stayed held, or - with both in order - the command could not be started, and then leaves no process of its own; returning leaves its process being pumped |
| VllmBackends.VllmBackend.Stop | src/harness_control/supervisor/backends/vllm.py:121-131 | Process handle and pump are cleared whatever happens; only its own process is signalled, and it is left running only after every signal or one that could not be delivered; returning means the port was seen free, raising that it never was for 30 s |
| VllmBackends.VllmBackend.KillGroup | src/harness_control/supervisor/backends/vllm.py:195-205 | SIGTERM first, SIGKILL only after 15 s of a delivered SIGTERM; the process still runs afterwards only if a signal could not be delivered or both waits were survived, and is then counted |
| VllmBackends.VllmBackend.WaitForPortFree | src/harness_control/supervisor/backends/vllm.py:218-228 | Returning means the last probe, and only it, found the port free; raising means none did and 30 s have passed; half a second asleep between two probes, at most 61 of them |
| VllmBackends.VllmBackend.AwaitReleased | src/harness_control/supervisor/backends/vllm.py:143-153 | Starts nothing and keeps the handle; returns only when there is nothing to look with or its last look saw the memory released, raises only past the deadline |
| VllmBackends.VllmBackend.Aclose | src/harness_control/supervisor/backends/vllm.py:188-191 | A second stop with no handle kills nothing |
| VllmBackends.VllmBackend.LiveProcesses | src/harness_control/supervisor/backends/vllm.py:45-46 | Live processes never exceed 1 plus those that outlived their kill |
| StreamLines.TokensAreTheMaximalRuns | src/harness_control/supervisor/backends/vllm.py:243-244 | The reference reading: tokens are exactly the maximal separator-free runs, each of them and in order |
| StreamLines.ReadOn | src/harness_control/supervisor/backends/vllm.py:249-260 | Reading a prefix and then the rest with only its trailing run carried over is reading the whole |
| StreamLines.LinesKeepContent | src/harness_control/supervisor/backends/vllm.py:255-260 | Only separators are lost between a stream and its lines |
| StreamLines.LinesInOrder | src/harness_control/supervisor/backends/vllm.py:255-260 | The lines are disjoint slices of the stream in stream order |
| Pumps.SplitIsLines | src/harness_control/supervisor/backends/vllm.py:255-256 | Replacing `\r\n`, then `\r`, then splitting at `\n` gives exactly the closed lines and the trailing run |
| Pumps.Turn | src/harness_control/supervisor/backends/vllm.py:254-264 | One turn of the loop appends the closed lines and keeps the trailing run, or cuts it; what it keeps is separator-free and at most 16384 characters |
| Pumps.PumpOutput | src/harness_control/supervisor/backends/vllm.py:249-266 | The loop appends to the buffer exactly what the specification function says, for any chunks |
| Pumps.AppendNonEmpty | src/harness_control/supervisor/backends/vllm.py:257-259 | Every non-empty part is appended, in order, and no empty one |
| Pumps.PumpIsExact | src/harness_control/supervisor/backends/vllm.py:249-266 | The pump emits exactly the stream's tokens iff at no chunk boundary the run being read is longer than 16384 |
| Pumps.ChunkIndependence | src/harness_control/supervisor/backends/vllm.py:249-266 | Every way of cutting the stream into chunks gives its tokens, `\r\n` across a boundary included, iff no run of it is longer than 16384 |
| Pumps.PumpConserves | src/harness_control/supervisor/backends/vllm.py:261-266 | Emitted plus dropped characters are exactly the non-separators of the stream, overflow included |
| Pumps.PumpIsBounded | src/harness_control/supervisor/backends/vllm.py:36-42 | With chunks of at most 8192, every line is non-empty, separator-free and bounded by the sum of the two constants, overflow included |
| Pumps.PumpKeepsOrder | src/harness_control/supervisor/backends/vllm.py:249-266 | Overflow included, the emitted lines are disjoint slices of the stream in stream order |
| Pumps.MisfitDrops | src/harness_control/supervisor/backends/vllm.py:261-264 | Once a boundary has too long a run, something is lost for good |
| Pumps.OverflowKeepsTheStart | src/harness_control/supervisor/backends/vllm.py:261-264 | Of a run that has grown too long exactly the first 16384 characters are emitted, after the lines closed before it, and nothing of it is kept |
| LogBuffers.LogBuffer.Append | src/harness_control/logbuf.py:25-27 | The buffer stays the last `capacity` lines since the last clear |
| LogBuffers.LogBuffer.Extend | src/harness_control/logbuf.py:29-31 | The same for many lines at once, in order |
| LogBuffers.LogBuffer.Tail | src/harness_control/logbuf.py:33-39 | The last min(n, 1000, capacity) lines since the last clear, oldest first, none for n <= 0 |
| LogBuffers.Requestable | src/harness_control/logbuf.py:33-39 | None for n <= 0; else no more than n, 1000 or the capacity, and one of the three |
| LogBuffers.LogBuffer.Clear | src/harness_control/logbuf.py:41-43 | Nothing written before is ever returned again |
| Substrings.Find | src/harness_control/logging_config.py:57-58 | The leftmost occurrence, or none when there is none |
| Substrings.NoStraddling | src/harness_control/logging_config.py:57-60 | A string that cannot overlap an insert and is found around one was on one side of it already |
| Substrings.ReplaceRemoves | src/harness_control/logging_config.py:57-58 | Leftmost, non-overlapping replacement leaves no occurrence of a string foreign to the marker |
| Substrings.ReplaceCreatesNothing | src/harness_control/logging_config.py:57-58 | Replacing one string never creates another that is foreign to the marker |
| Substrings.RewriteCreatesNothing | src/harness_control/logging_config.py:59-60 | Nor does any substitution of disjoint spans, each keeping a prefix and inserting the marker |
| Substrings.RewriteWeaves | src/harness_control/logging_config.py:59-60 | For any kept pieces and dropped spans, a substitution gives the same pieces in the same order with the insert where each span was |
| Substrings.EditsWeave | src/harness_control/logging_config.py:59-60 | Every choice of disjoint spans of a text is of that form |
| Substrings.ReplaceAllWeaves | src/harness_control/logging_config.py:57-58 | Replacing gives the pieces between the leftmost occurrences, in order, with the marker between them |
| Substrings.EveryTextSplits | src/harness_control/logging_config.py:57-58 | Every text has such pieces |
| Substrings.NothingToReplace | src/harness_control/logging_config.py:57-58 | A text without any of the secrets comes out of the loop as it was |
| Substrings.ReplaceEachRemoves | src/harness_control/logging_config.py:57-58 | After the whole loop no configured secret that is foreign to the marker is left, whatever its position |
| Substrings.ForeignExactly | src/harness_control/logging_config.py:57-58 | A string is always replaced, in every text and beside all others, iff it is foreign to the marker |
| Redaction.BearerCreatesNothing | src/harness_control/logging_config.py:59 | The first substitution, which keeps the word `bearer` and writes a space, creates no unmistakable secret |
| Redaction.RedactionIsComplete | src/harness_control/logging_config.py:56-60 | No unmistakable secret is in the redacted text, for any text, any other secrets and any matches of the two patterns |
| Redaction.RedactionIsExact | src/harness_control/logging_config.py:56-60 | A secret of 8 characters or more never shows, whatever the text, the other secrets and the matches, iff it overlaps no marker and does not end in the word `bearer` and a space |
| Redaction.NothingToRedact | src/harness_control/logging_config.py:56-60 | A text with no secret and no match comes back unchanged |
| Redaction.MatchesAreReplaced | src/harness_control/logging_config.py:59-60 | Every span the first pattern matches becomes a space and the marker, every span the second then matches becomes the marker, and all text between is kept, in order |
| Redaction.SecretIsReplaced | src/harness_control/logging_config.py:57-58 | With no match, every occurrence of the secret becomes the marker, and all text between is kept, in order |
| Redaction.MatchedValueGoes | src/harness_control/logging_config.py:23 | One matched value, as in `token=abcdefgh12`, is replaced, the text before and after it kept |
| Redaction.PlainKeysAreUnmistakable | src/harness_control/logging_config.py:37-43 | Every key of length 8 or more without space or brackets, other than the word `redacted`, is unmistakable |
| Redaction.ScrubbingIsExact | src/harness_control/logging_config.py:56-58 | The replacement loop is complete for a secret iff it is foreign to `[redacted]`; the word `redacted` is not |
| Redaction.TrailingSpaceLeaks | src/harness_control/logging_config.py:59 | A match right after the word a secret ends in puts the secret's last space back, in a text that did not hold it |
| Redaction.MyBearerShows | src/harness_control/logging_config.py:59 | At the input `my bearer`, a tab and eight letters: the text does not hold `my bearer ` and its redaction does |
| Redaction.OnlyTheWholeWord | src/harness_control/logging_config.py:22 | The word counts in any case but only as a whole: `mybearer ` never shows |
| Redaction.WorthMatching | src/harness_control/logging_config.py:35-39 | Exactly the configured strings of length 8 or more are kept |
| Redaction.WorthMatchingInOrder | src/harness_control/logging_config.py:39 | And in the order they were configured |
| Redaction.RedactingFilter.constructor | src/harness_control/logging_config.py:35-39 | The filter starts with exactly those, in order |
| Redaction.RedactingFilter.AddSecret | src/harness_control/logging_config.py:41-43 | Appends a long enough new secret, and nothing else |
| Redaction.RedactingFilter.Redact | src/harness_control/logging_config.py:56-60 | The loop and the two substitutions compute the specified text, and no unmistakable secret of the filter is in it |
| Readiness.PollUntil | src/harness_control/supervisor/readiness.py:14-32 | At least 1 and at most ceil(timeout / interval) + 1 calls; the result is the last answer, every earlier one false; giving up only at or past the deadline; one sleep of at most an interval between two calls |
| Readiness.OneTick | src/harness_control/supervisor/readiness.py:30-32 | A turn that found the deadline ahead and slept has used up one of the sleeps that fit before it |
| Jobs.JobIdInjective | src/harness_control/supervisor/jobs.py:64-68 | Two counters never give the same identifier, not even past eight digits |
| Jobs.ParsePadded | src/harness_control/supervisor/jobs.py:67 | The zero-padded number reads back as the counter |
| Jobs.PaddedShape | src/harness_control/supervisor/jobs.py:67 | Digits throughout, at least eight of them, and no zero in front of more than eight |
| Jobs.JobIdExample | src/harness_control/supervisor/jobs.py:67 | The 42nd job is `act_00000042` |
| Jobs.Job.Start | src/harness_control/supervisor/jobs.py:33-35 | The job runs, its model unchanged |
| Jobs.Job.Succeed | src/harness_control/supervisor/jobs.py:37-39 | The job has succeeded, its model unchanged |
| Jobs.Job.Fail | src/harness_control/supervisor/jobs.py:41-45 | The job has failed with this error and the last 20 of the lines given |
| Jobs.Evict | src/harness_control/supervisor/jobs.py:69-70 | Removing the oldest key until few enough are left keeps exactly the last ones, in order |
| Jobs.JobRegistry.Create | src/harness_control/supervisor/jobs.py:64-71 | The registry stays exactly the last `max_jobs` jobs ever created, oldest first, the new one with the next identifier |
| Jobs.JobRegistry.LookupById | src/harness_control/supervisor/jobs.py:73-74 | The k-th job ever created is found iff fewer than `max_jobs` came after it, and it is that job |
| Jobs.JobRegistry.Get | src/harness_control/supervisor/jobs.py:73-74 | The same for the call; an identifier never given out finds nothing |
| Catalogs.LoadCatalog | src/harness_control/catalog.py:104-121 | All or nothing: a catalog comes out only with one valid spec per entry in file order, entries over defaults, distinct ids and lookup agreeing with the list; otherwise the first invalid entry or exactly the duplicated ids |
| Catalogs.Duplicates | src/harness_control/catalog.py:124-131 | Exactly the ids that occur at least twice, so empty iff all are distinct |
| Catalogs.Index | src/harness_control/catalog.py:55-57 | Exactly the listed ids are keys, each with a spec that carries it |
| Catalogs.IndexAgreesWithList | src/harness_control/catalog.py:55-68 | With distinct ids, lookup finds the one listed spec |

## Left out

- `shutdown()` and task cancellation: they end a run mid-switch, and no invariant is meant to survive them.
- `remote_openai`: it holds no memory, so it meets the backend contract with nothing to prove.
- HTTP, FastAPI routing, SSE timing, header copying, the error envelope and bearer-header parsing: plumbing without state.
- Clocks, disks and engine answers are parameters of the events, or nondeterministic choices of the host and daemon classes. A clock reads the same throughout one await-free segment of the supervisor; real time moves between readings there, by less than the segment takes.
- Ollama loading a model by itself on a completion request, and other clients of the daemon or the GPU: residency changes only by the harness's calls or by residents going on their own.
- Children in a vLLM process group are counted as one process with their leader; sockets held by an unrelated program are whatever the port probe answers.
- Several backend objects at once: `is_available` builds short-lived probes that load nothing.
- Python's `Protocol` for backends becomes predicates on the set of residents, which the classes' contracts use. `OllamaPlane` and `VllmPlane` each have a catalog of one kind; a mixed one is covered by the residency theorems, which are about any catalog. In both planes a call on the backend takes effect in one piece, next to the segment that follows it; the residency theorems let residents go, and late loads come, at any time between.
- UTF-8 characters split across two reads: the stream is modelled as already decoded characters.
- The regular expressions themselves: each substitution is any choice of disjoint spans with a kept prefix, which for the first ends in the word `bearer` in any case; letters beyond ASCII count as word boundaries here. The exact condition for redaction is exact over all such choices, so a text of which the second pattern would have replaced a part counts as showing the secret when that pattern is taken to match nothing. Formatting of log records, where message and arguments are redacted separately and arguments that are not strings are not redacted.
- YAML and pydantic field validation: a parameter that turns a merged entry into a spec or refuses it. Rows of `nvidia-smi` output, whose sum is what the wait sees.
- `kill_orphan_on_port`, `progress_hint`, `resources`, timestamps, and reading `last_model` back: nothing here depends on them. A write of `last_model` either happens whole or not at all.
- Job statuses `queued` beyond the instant of creation, and `cancelled`, which no modelled code sets.
- Locks of the ring buffer: its methods are atomic here, as its lock makes them.
- Pumps.PumpConserves: starts from a separator-free remainder, which is all the loop ever keeps.
- SupervisorTermination.LockIsReleased: assumes that every awaited backend call returns or raises in the end, as its own timeout makes it; the supervisor adds none.
