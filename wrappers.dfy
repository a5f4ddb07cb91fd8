/** Option and Result, the model's stand-ins for C# null and for exceptions. */
module Wrappers {

  /** A value that may be absent (a C# reference that may be null). */
  datatype Option<+T> = None | Some(value: T)

  /** A computation that either produces a value or fails where the C# code throws. */
  datatype Result<+T, +E> = Success(value: T) | Failure(error: E)
}
