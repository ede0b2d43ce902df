/** Option and Result, the failure-carrying values used throughout the model. */
module Wrappers {

  datatype Option<+T> = None | Some(value: T)

  /** The outcome of an endpoint: a value, or the error that `sendError` reports. */
  datatype Result<+T, +E> = Ok(value: T) | Err(error: E)
}
