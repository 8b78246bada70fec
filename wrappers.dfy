/** Option and Result, the failure-carrying values the services return. */
module Wrappers {

  datatype Option<+T> = None | Some(value: T)

  /** A service call either yields its value or raises an HTTP exception. */
  datatype Result<+T, +E> = Success(value: T) | Failure(error: E)
}
