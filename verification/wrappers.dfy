/** Optional values and error-or-value results used across the model. */
module Wrappers {

  /** A value that may be absent, like an optional field of a payload. */
  datatype Option<+T> = None | Some(value: T)

  /** Either a value or the reason none was produced. */
  datatype Result<+T, +E> = Ok(value: T) | Err(error: E)
}
