/** Failure-compatible wrappers used across the model. */
module Wrappers {

  /** A value that may be absent; stands in for a C# `null` result. */
  datatype Option<+T> = None | Some(value: T)

  /** The outcome of an operation that either returns a value or raises an exception. */
  datatype Result<+T, +E> = Success(value: T) | Failure(error: E)
}
