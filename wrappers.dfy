/** Optional values and results shared by the dashboard model. */
module Wrappers {

  /** A value that may be absent, standing for JavaScript's null/undefined and Python's None. */
  datatype Option<+T> = None | Some(value: T) {
    /** The wrapped value, or `default` when absent (`x ?? default`, `x or default`). */
    function GetOr(default: T): T {
      match this
      case Some(v) => v
      case None => default
    }
  }

  /** The outcome of an operation that may raise: the value, or the error message. */
  datatype Result<+T> = Ok(value: T) | Err(message: string)
}
