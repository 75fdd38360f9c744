/** Failure-compatible wrappers shared by the model: `Option` stands for a Java
    reference that may be null, `Result` for a Java call that either returns a
    value or throws. */
module Wrappers {

  /** A value that may be absent (a Java `null`). */
  datatype Option<+T> = None | Some(value: T)

  /** The value a call returns, or the exception it throws. */
  datatype Result<+R, +E> = Success(value: R) | Failure(error: E)
}
