/** Optional values and results with a failure payload, used by every view. */
module Wrappers {

  /** A value that may be missing: PHP's `null` return of a lookup. */
  datatype Option<+T> = None | Some(value: T)

  /** The value an operation returns, or the failure it raises. */
  datatype Result<+T, +E> = Ok(value: T) | Err(error: E)
}
