/** The failure-compatible result type shared by every module of the model.
    Each Java exception that an operation can throw becomes a `Failure`
    carrying a module-specific error value. */
module Results {

  /** A possibly absent value: Java's `null` references. */
  datatype Option<+T> = None | Some(value: T)

  datatype Result<+T, +E> = Success(value: T) | Failure(error: E) {

    predicate IsFailure() {
      Failure?
    }

    function PropagateFailure<U>(): Result<U, E>
      requires Failure?
    {
      Failure(error)
    }

    function Extract(): T
      requires Success?
    {
      value
    }
  }
}
