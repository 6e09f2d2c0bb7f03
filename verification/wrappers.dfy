/** Optional values and success/failure results, standing in for the
    source's `undefined`/`null` values and thrown errors. */
module Wrappers {

  /** A value that may be absent (`undefined` or `null` in the source). */
  datatype Option<+T> = None | Some(value: T) {

    /** The carried value, or `default` when absent. */
    function GetOr(default: T): T {
      match this
      case Some(v) => v
      case None => default
    }
  }

  /** Either a value or an error that the source would have thrown. */
  datatype Result<+T, +E> = Ok(value: T) | Err(error: E) {

    /** The carried value, or `default` on error (a `catch` that returns a fallback). */
    function GetOr(default: T): T {
      match this
      case Ok(v) => v
      case Err(_) => default
    }
  }
}
