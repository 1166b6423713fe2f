/** Option and Result, the failure-carrying values the model uses in place of
    Rust's Option, Result and panics. */
module Wrappers {

  datatype Option<+T> = None | Some(value: T)

  datatype Result<+R, +E> = Ok(value: R) | Err(error: E)
}
