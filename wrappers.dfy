/** Failure-compatible wrappers shared by the analytics modules. */
module Wrappers {

  /** A value that may be absent, as pandas marks a missing cell with NaN. */
  datatype Option<+T> = None | Some(value: T)

  /** The outcome of an operation that may stop with an error. */
  datatype Result<+R, +E> = Success(value: R) | Failure(error: E)
}
