/** Option and Result, used for the NULL returns, error codes and exceptions of the system. */
module Wrappers {

  datatype Option<+T> = None | Some(value: T)

  datatype Result<+T, +E> = Ok(value: T) | Err(error: E)
}
