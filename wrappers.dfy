/** Failure-compatible wrappers shared by every module of the model. */
module Wrappers {

  datatype Option<+T> = None | Some(value: T)

  /** A value, or the error that aborted the computation (a Python exception). */
  datatype Result<+R, +E> = Success(value: R) | Failure(error: E) {
    predicate IsFailure() {
      Failure?
    }

    function PropagateFailure<U>(): Result<U, E>
      requires Failure?
    {
      Failure(error)
    }

    function Extract(): R
      requires Success?
    {
      value
    }
  }
}
