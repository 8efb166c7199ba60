/** Failure-compatible result of a player operation that can stop for ever instead of returning. */
module Outcomes {

  /** Why the XSVF player never returns from an operation:
      the byte source blocks, a loop makes no progress, or a length no longer fits its short. */
  datatype Halt = Starved | NoProgress | LengthWraps

  datatype Outcome<+T> = Done(value: T) | Halted(why: Halt) {

    predicate IsFailure() {
      Halted?
    }

    function PropagateFailure<U>(): Outcome<U>
      requires Halted?
    {
      Halted(why)
    }

    function Extract(): T
      requires Done?
    {
      value
    }
  }
}
