/** Optional values and success/failure results, used where the Python code
    passes `None` or refuses a request with an error message. */
module Wrappers {

  /** A value that may be absent (Python's `None`). */
  datatype Option<+T> = None | Some(value: T)

  /** Either a computed value or the reason the computation was refused. */
  datatype Result<+T, +E> = Ok(value: T) | Err(error: E)
}
