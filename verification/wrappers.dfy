/** Optional values and results with an error, shared by every module. */
module Wrappers {
  /** A value that may be absent: JavaScript `null`/`undefined`, Java `null`. */
  datatype Option<T> = None | Some(value: T)
  {
    function GetOr(default: T): T
    {
      match this
      case None => default
      case Some(v) => v
    }
  }

  /** The outcome of an operation that may throw. */
  datatype Result<T, E> = Ok(value: T) | Err(error: E)
}
