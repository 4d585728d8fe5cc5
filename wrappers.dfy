/** Option and Result, the two failure-carrying shapes the model uses for the
    source's `(value, error)` and `(value, ok)` return pairs. */
module Wrappers {

  datatype Option<+T> = None | Some(value: T)

  datatype Result<+R, +E> = Ok(value: R) | Err(error: E)
}
