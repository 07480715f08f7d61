/** Optional values and error-carrying results, used where the routes return early. */
module Wrappers {

  /** A value that may be absent: JavaScript's `undefined` on a property read, or `null`. */
  datatype Option<+T> = None | Some(value: T)

  /** Either a computed value or the error that stopped the computation. */
  datatype Result<+T, +E> = Ok(value: T) | Err(error: E)
}
