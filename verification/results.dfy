/** Failure-compatible wrappers used across the model: an optional value
    (a Go interface result that may be nil) and a success-or-failure result
    (a call that may panic). */
module Results {

  /** A value that may be absent; `None` plays the role of a nil interface. */
  datatype Option<+T> = None | Some(value: T)

  /** The outcome of a call that either returns a value or takes its
      programming-error path. */
  datatype Result<+T, +E> = Success(value: T) | Failure(error: E) {

    predicate IsFailure() {
      Failure?
    }

    function PropagateFailure<U>(): Result<U, E>
      requires Failure?
    {
      Failure(error)
    }

    function Extract(): T
      requires Success?
    {
      value
    }
  }
}
