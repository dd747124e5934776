/** Optional values and error-or-value results shared by every module. */
module Wrappers {

  /** A value that may be absent: JavaScript's `undefined`/`null`. */
  datatype Option<+T> = None | Some(value: T)

  /** The outcome of an operation that either yields a value or throws an error text. */
  datatype Result<+T> = Ok(value: T) | Err(error: string)
}
