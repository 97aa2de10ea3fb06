/** The `ollama` backend (`supervisor/backends/ollama.py`) against a daemon that may refuse, stay
    silent, answer oddly, or drop a model on its own. */
module OllamaBackends {
  import opened Prelude
  import opened Readiness
  import opened BackendContract
  import opened Catalogs

  const UNLOAD_POLL_INTERVAL: real := 0.25

  datatype Json = Object(fields: map<string, Json>) | List(items: seq<Json>) | Text(value: string) | Scalar

  /** The tags a `/api/ps` body names, whatever else it holds. */
  ghost predicate Names(payload: Json, tag: string) {
    && payload.Object? && "models" in payload.fields && payload.fields["models"].List?
    && exists i :: 0 <= i < |payload.fields["models"].items| && Entry(payload.fields["models"].items[i], tag)
  }

  predicate Entry(entry: Json, tag: string) {
    Says(entry, "name", tag) || Says(entry, "model", tag)
  }

  predicate Says(entry: Json, key: string, tag: string) {
    entry.Object? && key in entry.fields && entry.fields[key] == Text(tag)
  }

  /** Exactly the tags named, tolerating any odd answer. */
  method ModelNames(payload: Json) returns (names: set<string>)
    ensures forall tag :: tag in names <==> Names(payload, tag)
  {
    names := {};
    if !payload.Object? || "models" !in payload.fields || !payload.fields["models"].List? {
      return;
    }
    var models := payload.fields["models"].items;
    for i := 0 to |models|
      invariant forall tag :: tag in names <==> exists k :: 0 <= k < i && Entry(models[k], tag)
    {
      var entry := models[i];
      if entry.Object? {
        var keys := ["name", "model"];
        ghost var before := names;
        for j := 0 to 2
          invariant forall tag :: tag in names <==> tag in before || exists m :: 0 <= m < j && Says(entry, keys[m], tag)
        {
          if keys[j] in entry.fields && entry.fields[keys[j]].Text? {
            names := names + {entry.fields[keys[j]].value};
          }
        }
        assert forall tag :: Entry(entry, tag) <==> Says(entry, keys[0], tag) || Says(entry, keys[1], tag);
      }
    }
  }

  /** A load (`keepAlive` -1) or an unload (0) that was asked for, and whether it was accepted. */
  datatype Ask = Ask(tag: string, keepAlive: int, ok: bool)

  /** The daemon. `resident` is what it really holds in memory; `asked` is everything asked of it. */
  class Daemon {
    const clock: Clock
    var resident: set<string>
    ghost var asked: seq<Ask>

    constructor (clock: Clock)
    {
      this.clock := clock;
      resident, asked := {}, [];
    }

    /** `POST /api/generate` with no prompt. A load may take hold even when the answer is lost; an
        unload is only a request; and a resident model may vanish at any time. */
    method Generate(tag: string, keepAlive: int) returns (ok: bool)
      modifies this`resident, this`asked, clock`now
      ensures if keepAlive == 0 then LoadsNothing(old(resident), resident)
              else LoadsOnly(old(resident), resident, tag)
      ensures asked == old(asked) + [Ask(tag, keepAlive, ok)]
      ensures clock.now >= old(clock.now)
    {
      clock.Pass();
      var kept: set<string> :| kept <= resident;
      var took: bool := *;
      resident := kept;
      if keepAlive != 0 && took {
        resident := resident + {tag};
      } else if keepAlive == 0 && took {
        resident := resident - {tag};
      }
      ok := *;
      asked := asked + [Ask(tag, keepAlive, ok)];
    }

    /** Time passes, and residents may go. */
    method Idle()
      modifies this`resident, clock`now
      ensures LoadsNothing(old(resident), resident) && clock.now >= old(clock.now)
    {
      clock.Pass();
      var kept: set<string> :| kept <= resident;
      resident := kept;
    }

    /** `GET /api/ps`: no answer, or some JSON body, which need not be an honest one. */
    method Ps() returns (body: Option<Json>)
      modifies this`resident, clock`now
      ensures LoadsNothing(old(resident), resident) && clock.now >= old(clock.now)
    {
      Idle();
      var answered: bool, payload: Json := *, *;
      body := if answered then Some(payload) else None;
    }
  }

  /** The daemon answered, and its answer lists exactly what is resident. */
  ghost predicate Truthful(look: Option<Json>, resident: set<string>) {
    look.Some? && forall tag :: Names(look.value, tag) <==> tag in resident
  }

  /** The daemon answered, and its answer names the tag. */
  ghost predicate Lists(look: Option<Json>, tag: string) {
    look.Some? && Names(look.value, tag)
  }

  class OllamaBackend {
    const daemon: Daemon
    var modelRef: Option<string>
    var releasedRef: Option<string>

    constructor (daemon: Daemon)
      ensures this.daemon == daemon && modelRef == None && releasedRef == None
    {
      this.daemon := daemon;
      modelRef, releasedRef := None, None;
    }

    /** One load of its own tag; the tag is remembered only if the daemon took it. */
    method Activate(spec: ModelSpec) returns (error: Option<string>)
      modifies this`modelRef, daemon`resident, daemon`asked, daemon.clock`now
      ensures daemon.asked == old(daemon.asked) + [Ask(spec.modelRef, -1, error.None?)]
      ensures LoadsOnly(old(daemon.resident), daemon.resident, spec.modelRef)
      ensures modelRef == if error.None? then Some(spec.modelRef) else old(modelRef)
    {
      var ok := daemon.Generate(spec.modelRef, -1);
      if !ok {
        return Some("ollama refused the load");
      }
      modelRef := Some(spec.modelRef);
      return None;
    }

    /** The handle is cleared before the daemon is asked, so a refused unload is forgotten here -
        and a second stop asks for nothing at all. */
    method Stop() returns (error: Option<string>)
      modifies this, daemon`resident, daemon`asked, daemon.clock`now
      ensures LoadsNothing(old(daemon.resident), daemon.resident)
      ensures modelRef == None
      ensures daemon.asked == old(daemon.asked) +
                              if old(modelRef).Some? then [Ask(old(modelRef).value, 0, error.None?)] else []
      ensures old(modelRef).None? ==> error.None? && releasedRef == old(releasedRef) && daemon.resident == old(daemon.resident)
      ensures old(modelRef).Some? ==> releasedRef == old(modelRef)
      ensures daemon.clock.now >= old(daemon.clock.now)
    {
      var tag := modelRef;
      if tag.None? {
        return None;
      }
      modelRef := None;
      releasedRef := tag;
      var ok := daemon.Generate(tag.value, 0);
      return if ok then None else Some("ollama refused the unload");
    }

    /** What the daemon answered, read as the tags it names; or nothing when it did not answer. */
    method LoadedModels() returns (names: Option<set<string>>, ghost body: Option<Json>)
      modifies daemon`resident, daemon.clock`now
      ensures LoadsNothing(old(daemon.resident), daemon.resident) && daemon.clock.now >= old(daemon.clock.now)
      ensures names.Some? <==> body.Some?
      ensures names.Some? ==> forall tag :: tag in names.value <==> Names(body.value, tag)
    {
      var answer := daemon.Ps();
      body := answer;
      if answer.None? {
        return None, body;
      }
      var tags := ModelNames(answer.value);
      return Some(tags), body;
    }

    /** Healthy exactly when the daemon answers and lists the pinned tag; if the answer is honest,
        exactly when that tag is resident. */
    method Health() returns (healthy: bool, ghost body: Option<Json>)
      modifies daemon`resident, daemon.clock`now
      ensures LoadsNothing(old(daemon.resident), daemon.resident)
      ensures healthy <==> modelRef.Some? && Lists(body, modelRef.value)
      ensures modelRef.Some? && Truthful(body, daemon.resident) ==> (healthy <==> modelRef.value in daemon.resident)
    {
      body := None;
      if modelRef.None? {
        return false, body;
      }
      var names;
      names, body := LoadedModels();
      healthy := names.Some? && modelRef.value in names.value;
    }

    /** `looks` are the daemon's answers, in order: every one but the last listed the tag. The call
        returns exactly when the last did not - an unanswered look counts as gone - and raises only
        at or past the deadline. When the last answer was truthful, so is the outcome. There were
        at most ceil(timeout / 0.25) + 1 looks. */
    method AwaitReleased(timeout: real) returns (error: Option<string>, ghost looks: seq<Option<Json>>)
      modifies this`releasedRef, daemon`resident, daemon.clock
      ensures LoadsNothing(old(daemon.resident), daemon.resident)
      ensures old(releasedRef).None? ==> error.None? && looks == [] && daemon.resident == old(daemon.resident)
      ensures old(releasedRef).Some? ==>
                var tag, last := old(releasedRef).value, |looks| - 1;
                && 1 <= |looks| <= Ticks(timeout, UNLOAD_POLL_INTERVAL) + 1
                && (forall k :: 0 <= k < last ==> Lists(looks[k], tag))
                && (error.Some? <==> Lists(looks[last], tag))
                && (Truthful(looks[last], daemon.resident) ==> (error.None? <==> Released(daemon.resident, tag)))
      ensures releasedRef == if error.None? then None else old(releasedRef)
      ensures error.Some? ==> daemon.clock.now >= old(daemon.clock.now) + timeout
      ensures old(releasedRef).Some? ==>
                Slept(old(daemon.clock.asked), daemon.clock.asked, |looks| - 1, UNLOAD_POLL_INTERVAL)
    {
      looks := [];
      if releasedRef.None? {
        return None, looks;
      }
      var released := releasedRef.value;
      var deadline := daemon.clock.now + timeout;
      assert deadline - daemon.clock.now == timeout;
      while true
        invariant releasedRef == old(releasedRef)
        invariant deadline == old(daemon.clock.now) + timeout
        invariant Slept(old(daemon.clock.asked), daemon.clock.asked, |looks|, UNLOAD_POLL_INTERVAL)
        invariant LoadsNothing(old(daemon.resident), daemon.resident)
        invariant forall k :: 0 <= k < |looks| ==> Lists(looks[k], released)
        invariant |looks| + Ticks(deadline - daemon.clock.now, UNLOAD_POLL_INTERVAL) <= Ticks(timeout, UNLOAD_POLL_INTERVAL)
        decreases Ticks(timeout, UNLOAD_POLL_INTERVAL) - |looks|
      {
        ghost var head := daemon.clock.now;
        var loaded;
        ghost var body;
        loaded, body := LoadedModels();
        looks := looks + [body];
        if loaded.None? {
          releasedRef := None;
          return None, looks;
        }
        if released !in loaded.value {
          releasedRef := None;
          return None, looks;
        }
        if daemon.clock.now >= deadline {
          return Some("still loaded"), looks;
        }
        ghost var checked := daemon.clock.now;
        daemon.clock.Sleep(UNLOAD_POLL_INTERVAL);
        OneTick(deadline, head, checked, daemon.clock.now, UNLOAD_POLL_INTERVAL);
      }
    }
  }
}
