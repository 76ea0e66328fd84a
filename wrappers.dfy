/** Option and Result, used for missing dictionary keys and for the Python
    exceptions and HTTP errors the modelled code raises. */
module Wrappers {

  datatype Option<+T> = None | Some(value: T)

  datatype Result<+T, +E> = Ok(value: T) | Err(error: E)
}
