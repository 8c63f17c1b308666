/** Option and Result: the optional `size` target and the assertion failures of app_utils.py. */
module Wrappers {

  datatype Option<+T> = None | Some(value: T)

  datatype Result<+T, +E> = Ok(value: T) | Err(error: E)
}
