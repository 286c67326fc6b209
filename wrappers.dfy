/** Option and Result values standing for Go's nil-or-value and value-or-error returns. */
module Wrappers {

  datatype Option<+T> = None | Some(value: T)

  /** A Go `(T, error)` pair: exactly one of the two is meaningful. */
  datatype Result<+T> = Ok(value: T) | Err(error: string)
}
