/** Option and Result, for the optional values and the (value, error) pairs of the Go code. */
module Wrappers {

  datatype Option<+T> = None | Some(value: T)

  /** A Go call returning `(value, err)`: exactly one of the two carries information. */
  datatype Result<+R, +E> = Success(value: R) | Failure(error: E)
}
