/** Option and Result, standing in for Python's None and for exceptions. */
module Wrappers {

  datatype Option<+T> = None | Some(value: T) {
    /** `d.get(key, default)`-style fallback. */
    function GetOr(default: T): T {
      match this
      case Some(v) => v
      case None => default
    }
  }

  /** A value, or the exception that would have been raised instead. */
  datatype Result<+T, +E> = Success(value: T) | Failure(error: E)
}
