/** Nullable values and outcomes that may carry an exception. */
module Wrappers {

  /** A value that may be absent (a C# `null` or a missing dictionary key). */
  datatype Option<+T> = None | Some(value: T)

  /** The value of an expression that either completes or throws. */
  datatype Result<+T, +E> = Ok(value: T) | Err(error: E)
}
