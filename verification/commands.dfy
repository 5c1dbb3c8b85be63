/** `controller.Commands`: the commands one `Input` call can produce, as
    used by the controller and the model. */
module Commands {

  datatype Command =
    | Forward | Backward | Left | Right
    | Jump | Remove | Add
    | Speed1 | Speed01 | Speed0025
    | StartDebug | EndDebug

  /** Emitted on every call while their key is down. */
  predicate IsMovement(c: Command) {
    c == Forward || c == Backward || c == Left || c == Right
  }

  predicate IsSpeed(c: Command) {
    c == Speed1 || c == Speed01 || c == Speed0025
  }

  /** Emitted once per press: the commands the debounce table guards. */
  predicate IsSinglePress(c: Command) {
    c == Jump || c == Remove || c == Add || c == StartDebug || c == EndDebug
  }

  const SinglePress: set<Command> := {Jump, Remove, Add, StartDebug, EndDebug}
}
