/** Optional values and success-or-failure results shared by every module of the model. */
module Results {

  /** A value that may be absent, as a Go lookup that reports whether it hit. */
  datatype Option<+T> = None | Some(value: T)

  /** The outcome of a Go call returning `(T, error)`: a value, or the error it returned. */
  datatype Result<+T, +E> = Success(value: T) | Failure(error: E) {
    predicate IsFailure() {
      Failure?
    }
  }
}
