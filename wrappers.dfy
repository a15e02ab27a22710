/** Optional values and error returns, standing for Python's `None` and raised exceptions. */
module Wrappers {

  /** A value or Python's `None`. */
  datatype Option<+T> = None | Some(value: T) {

    /** The value, or `default` when there is none (Python's `d.get(k, default)`). */
    function GetOr(default: T): T {
      match this
      case Some(v) => v
      case None => default
    }
  }

  /** A value, or the error a Python function raises instead of returning one. */
  datatype Result<+T, +E> = Ok(value: T) | Err(error: E)
}
