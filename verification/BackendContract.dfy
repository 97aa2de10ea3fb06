/** What the supervisor relies on from any backend (`supervisor/backends/base.py`), as relations on
    the set of resident units before and after a call. A unit is whatever the engine keeps in
    memory: a daemon's model tag, or a process. Residents may also go on their own. */
module BackendContract {

  /** `activate` makes at most its own unit resident, whether it returns or raises. */
  ghost predicate LoadsOnly<U>(before: set<U>, after: set<U>, unit: U) {
    after <= before + {unit}
  }

  /** Nothing but `activate` makes anything resident. */
  ghost predicate LoadsNothing<U>(before: set<U>, after: set<U>) {
    after <= before
  }

  /** `await_released` returning on an answer: the unit is not there. */
  ghost predicate Released<U>(after: set<U>, unit: U) {
    unit !in after
  }
}
