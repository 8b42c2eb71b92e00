/** Optional values and results with an error, shared by every module. */
module Wrappers {

  /** A value that may be absent (TypeScript `undefined`/`null`, Python `None`). */
  datatype Option<+T> = None | Some(value: T) {
    function GetOr(default: T): T
    {
      match this
      case Some(v) => v
      case None => default
    }
  }

  /** The outcome of an operation that can raise an error. */
  datatype Result<+R, +E> = Success(value: R) | Failure(error: E)
}
