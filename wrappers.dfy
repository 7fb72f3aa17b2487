/** Optional values and results: the model's stand-in for `None` and for raised exceptions. */
module Wrappers {

  datatype Option<+T> = None | Some(value: T)

  /** `Ok` is a normal return, `Err` an exception carrying what was raised. */
  datatype Result<+T, +E> = Ok(value: T) | Err(error: E)
}
