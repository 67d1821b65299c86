/** Failure-carrying values used across the model: `Option` for the source's
    nullable references and `Result` for operations that may throw. */
module Wrappers {

  /** A value that may be absent (a C# `null`). */
  datatype Option<+T> = None | Some(value: T)

  /** Either the value an operation produced or the exception it raised. */
  datatype Result<+R, +E> = Success(value: R) | Failure(error: E)
}
