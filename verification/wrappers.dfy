/** Failure-compatible wrappers used throughout the model: an optional value
    (the source's nullable pointers and std::optional) and a result that either
    carries a value or the reason the computation stopped. */
module Wrappers {

  datatype Option<+T> = None | Some(value: T) {

    predicate IsFailure() {
      None?
    }

    function PropagateFailure<U>(): Option<U>
      requires None?
    {
      None
    }

    function Extract(): T
      requires Some?
    {
      value
    }

    function GetOr(default: T): T {
      match this
      case Some(v) => v
      case None => default
    }
  }

  datatype Result<+R, +E> = Success(value: R) | Failure(error: E) {

    predicate IsFailure() {
      Failure?
    }

    function PropagateFailure<U>(): Result<U, E>
      requires Failure?
    {
      Failure(error)
    }

    function Extract(): R
      requires Success?
    {
      value
    }
  }

  /** Why a computation of the front end ended early: a FatalError (the
      analyzer gives up) or a failed internal assertion (yulAssert). */
  datatype Stop = Fatal | Assertion
}
