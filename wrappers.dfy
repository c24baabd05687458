/** Option and Result values used in place of Python's `None` and raised exceptions. */
module Wrappers {

  /** `None` mirrors Python's `None`; `Some(v)` a present value. */
  datatype Option<+T> = None | Some(value: T)

  /** `Err` carries the message of the exception the source raises. */
  datatype Result<+T> = Ok(value: T) | Err(message: string)
}
