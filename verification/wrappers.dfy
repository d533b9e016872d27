/** Failure-compatible wrappers used throughout the model.

    - Option<T> stands for a Ruby value that may be nil.
    - Result<T, E> stands for a computation that either returns normally or
      raises; it works with Dafny's `:-` so that a raised error propagates
      the way an uncaught Ruby exception does.
 */
module Wrappers {

  datatype Option<+T> = None | Some(value: T)

  datatype Result<+T, +E> = Success(value: T) | Failure(error: E) {

    predicate IsFailure() {
      Failure?
    }

    function PropagateFailure<U>(): Result<U, E>
      requires Failure?
    {
      Failure(error)
    }

    function Extract(): T
      requires Success?
    {
      value
    }

    /** The value, or `default` after a failure. */
    function ValueOr(default: T): T {
      if Success? then value else default
    }
  }
}
