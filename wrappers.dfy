/** Option and Result, standing in for .NET's null and thrown exceptions. */
module Wrappers {

  datatype Option<+T> = None | Some(value: T)

  datatype Result<+R, +E> = Success(value: R) | Failure(error: E)

  /** Pass or Fail, for operations that return nothing but may throw. */
  datatype Outcome<+E> = Pass | Fail(error: E)
}
