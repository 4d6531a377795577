/** Option and Result, the two failure-carrying values the model uses for `null` and for exceptions. */
module Wrappers {

  /** `None` stands for a C# `null` reference. */
  datatype Option<+T> = None | Some(value: T)

  /** `Failure` stands for an exception that leaves the operation. */
  datatype Result<+R, +E> = Success(value: R) | Failure(error: E)
}
