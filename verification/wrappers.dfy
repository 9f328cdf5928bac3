/** Failure-compatible result type and the exception kinds the rules engine raises. */
module Wrappers {

  /** The Java exceptions the core throws, as values. */
  datatype Error =
    | IllegalArgument
    | IllegalState
    | IndexOutOfBounds
    | NullPointer

  datatype Result<+T> = Ok(value: T) | Err(error: Error) {
    predicate IsFailure() { Err? }

    function PropagateFailure<U>(): Result<U>
      requires Err?
    {
      Err(error)
    }

    function Extract(): T
      requires Ok?
    {
      value
    }
  }

  /** A reference that may be null. */
  datatype Option<+T> = None | Some(value: T)

  /** A result without a payload, for operations that only change state. */
  datatype Outcome = Pass | Fail(error: Error) {
    predicate IsFailure() { Fail? }

    function PropagateFailure(): Outcome
      requires Fail?
    {
      this
    }
  }
}
