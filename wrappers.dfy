/** Option and Result: the model's stand-ins for Python's `None` and for
    exceptions that the converter raises or lets escape. */
module Wrappers {

  datatype Option<+T> = None | Some(value: T)

  datatype Result<+T, +E> = Ok(value: T) | Err(error: E)
}
