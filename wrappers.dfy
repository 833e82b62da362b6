/** Optional values and results with an error, as used throughout the model. */
module Wrappers {

  /** A value that may be absent (JavaScript's `undefined`, `null` or `NaN`). */
  datatype Option<T> = None | Some(value: T) {
    function GetOr(default: T): T
    {
      if Some? then value else default
    }
  }

  /** The outcome of an operation that reports failure through its callback's error argument. */
  datatype Result<T, E> = Ok(value: T) | Err(error: E)
}
