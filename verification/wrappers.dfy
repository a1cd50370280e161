/** Nullable results and error results, in place of C# `null` and exceptions. */
module Wrappers {

  /** A value that may be absent (a nullable reference or `FirstOrDefault` miss). */
  datatype Option<+T> = None | Some(value: T)

  /** A computation that either produces a value or fails with an error. */
  datatype Result<+T, +E> = Ok(value: T) | Err(error: E)
}
