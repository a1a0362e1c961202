/** Optional values and the outcome of an operation that may throw. */
module Wrappers {

  /** A value that may be absent (`undefined` / `null` in the source). */
  datatype Option<+T> = None | Some(value: T)

  /** The outcome of a call that either returns a value or throws an Error carrying a message. */
  datatype Result<+T> = Ok(value: T) | Err(message: string)
}
