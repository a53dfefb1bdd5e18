/** Option and Result, the failure-carrying values the model uses for the
    exceptions and early exits of the script. */
module Wrappers {

  datatype Option<+T> = None | Some(value: T)

  datatype Result<+T, +E> = Ok(value: T) | Err(error: E)
}
