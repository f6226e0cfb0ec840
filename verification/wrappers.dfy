/** `Option` and `Result`, used throughout the model: `Option` stands in for
    a nullable column or a missing related object, `Result` for an operation
    that may raise. */
module Wrappers {

  /** A value that may be absent (SQL NULL, Python `None`). */
  datatype Option<+T> = None | Some(value: T)

  /** The outcome of an operation that either returns a value or raises. */
  datatype Result<+T, +E> = Success(value: T) | Failure(error: E)
}
