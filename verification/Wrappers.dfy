/** Failure-compatible results shared by all models. */
module Wrappers {

  datatype Option<+T> = None | Some(value: T)

  /** A thrown error in the source becomes `Failure`; the message is not modelled. */
  datatype Result<+T> = Success(value: T) | Failure {
    predicate IsFailure() {
      Failure?
    }

    function PropagateFailure<U>(): Result<U>
      requires Failure?
    {
      Failure
    }

    function Extract(): T
      requires Success?
    {
      value
    }
  }
}
