/** Option and Result, the shapes the source's `None` returns and error codes take. */
module Wrappers {

  datatype Option<+T> = None | Some(value: T)

  /** A value, or the reason code the source reports instead of it. */
  datatype Result<+T> = Ok(value: T) | Err(error: string)
}
