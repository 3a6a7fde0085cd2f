/** Optional values and results with an error, as returned by the handler's helpers. */
module Wrappers {

  /** A value that may be absent (Python's `None` or a missing dictionary key). */
  datatype Option<+T> = None | Some(value: T)

  /** The outcome of a step that may raise an exception. */
  datatype Result<+T, +E> = Ok(value: T) | Err(error: E)
}
