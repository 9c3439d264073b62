/**
 * Option and Result, the two wrappers the rest of the model uses for Python's
 * `None` returns and raised exceptions. Result supports `:-`, so a failure
 * propagates the way an uncaught exception does.
 */
module Wrappers {
  datatype Option<T> = None | Some(value: T)

  datatype Result<T, E> = Success(value: T) | Failure(error: E) {
    predicate IsFailure()
    {
      Failure?
    }

    function PropagateFailure<U>(): Result<U, E>
      requires Failure?
    {
      Failure(error)
    }

    function Extract(): T
      requires Success?
    {
      value
    }
  }
}
