/** Optional values and results, used for lookups that may find nothing and for
    operations that either return a value or raise an exception. */
module Common {

  /** A value that may be absent (Python's `None`). */
  datatype Option<+T> = None | Some(value: T)

  /** The outcome of an operation: its return value or the error it raised. */
  datatype Result<+R, +E> = Success(value: R) | Failure(error: E)
}
