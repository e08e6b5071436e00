/** Optional values and results, used for regex matches, index searches and thrown errors. */
module Wrappers {

  datatype Option<+T> = None | Some(value: T) {

    /** The wrapped value, or `default` when there is none. */
    function GetOr(default: T): T {
      match this
      case Some(v) => v
      case None => default
    }
  }

  /** A value, or the error a JavaScript call would have thrown instead. */
  datatype Result<+T, +E> = Ok(value: T) | Err(error: E)
}
