/** Option and Result, and the errors the program compares by identity. */
module Wrappers {

  datatype Option<+T> = None | Some(value: T)

  datatype Result<+T, +E> = Ok(value: T) | Err(error: E)

  // menu.BackRequest and menu.ExitRequest are sentinel values: callers compare
  // against them with ==. Every other error is only ever displayed.
  datatype Error = BackRequest | ExitRequest | Other(message: string)
}
