/** Failure-carrying values: the model's stand-in for Python exceptions. */
module Wrappers {

  datatype Option<+T> = None | Some(value: T)

  /** `Err` is a raised exception, `Ok` a normal return. */
  datatype Result<+T, +E> = Ok(value: T) | Err(error: E)
}
