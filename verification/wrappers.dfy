/** Failure-compatible wrappers used by the graph builder. */
module Wrappers {

  /** A value that may be absent: the model of a JSON `null` / Python `None`. */
  datatype Option<+T> = None | Some(value: T)

  /** The outcome of a build step: a value, or the error that stopped the build. */
  datatype Result<+T, +E> = Success(value: T) | Failure(error: E) {

    predicate IsFailure() {
      Failure?
    }

    function PropagateFailure<U>(): Result<U, E>
      requires Failure?
    {
      Failure(error)
    }

    function Extract(): T
      requires Success?
    {
      value
    }
  }
}
