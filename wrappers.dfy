/** Option and Result, the two failure-carrying shapes the model needs. */
module Wrappers {

  /** A value that may be absent: Go's nil interface or nil reference. */
  datatype Option<+T> = None | Some(value: T)

  /** Either a value or the error Go would return beside a zero value. */
  datatype Result<+T, +E> = Ok(value: T) | Err(error: E)
}
