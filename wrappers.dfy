/** Option and Result, the two failure-carrying datatypes the model uses for Go's
    `(value, error)` returns and for Go's nil pointers. */
module Wrappers {

  datatype Option<+T> = None | Some(value: T)

  datatype Result<+T, +E> = Ok(value: T) | Err(error: E)
}
