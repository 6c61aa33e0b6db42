/** Option and Result, the two failure-carrying datatypes the service model uses. */
module Wrappers {

  datatype Option<+T> = None | Some(value: T)

  /** The outcome of a route: its report, or the error it raised. */
  datatype Result<+R, +E> = Success(value: R) | Failure(error: E)
}
