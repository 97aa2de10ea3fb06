/** The externally visible states and the edges between them (`supervisor/state.py`). */
module ModelStates {

  datatype ModelState = Idle | Loading | Ready | Stopping | Error

  function AllowedTargets(source: ModelState): set<ModelState> {
    match source
    case Idle => {Stopping, Loading}
    case Loading => {Ready, Error, Stopping}
    case Ready => {Stopping, Error}
    case Stopping => {Loading, Idle, Error}
    case Error => {Stopping, Loading, Idle}
  }

  predicate CanTransition(source: ModelState, target: ModelState) {
    target in AllowedTargets(source)
  }

  /** The table read the other way: where each state can be entered from. */
  lemma EnteredFrom(source: ModelState)
    ensures CanTransition(source, Ready) <==> source == Loading
    ensures CanTransition(source, Stopping) <==> source != Stopping
    ensures CanTransition(source, Loading) <==> source in {Idle, Stopping, Error}
    ensures CanTransition(source, Error) <==> source in {Loading, Ready, Stopping}
    ensures CanTransition(source, Idle) <==> source in {Stopping, Error}
  {
  }

  /** States in which a completion is answered "loading, retry later". */
  predicate IsSwitching(s: ModelState) {
    s == Loading || s == Stopping
  }
}
