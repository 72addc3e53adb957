/** Optional values and pass/fail outcomes used across the model. */
module Wrappers {

  /** A configuration key that may be absent. */
  datatype Option<+T> = None | Some(value: T) {

    /** The value if present, otherwise the given default (Python's `dict.get(key, default)`). */
    function GetOr(default: T): T {
      match this
      case Some(v) => v
      case None => default
    }
  }

  /** The result of a check that either passes or names what failed. */
  datatype Outcome<+E> = Pass | Fail(error: E)
}
