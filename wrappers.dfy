/** Option and Result, the two failure-carrying datatypes the model uses. */
module Wrappers {

  /** `null` (None) or a present value (Some). */
  datatype Option<+T> = None | Some(value: T)

  /** A completed computation (Ok) or a thrown error (Err). */
  datatype Result<+T, +E> = Ok(value: T) | Err(error: E)
}
