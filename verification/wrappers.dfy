/** Failure-carrying datatypes shared by the rest of the model. */
module Wrappers {

  /** An optional value. */
  datatype Option<+T> = None | Some(value: T)

  /** Either a value or the reason the operation could not produce one. */
  datatype Result<+T, +E> = Ok(value: T) | Err(error: E)
}
