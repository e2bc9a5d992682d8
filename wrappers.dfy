/** Optional values and results with an error, used wherever a JavaScript value may be
    missing (`undefined`/`null`) or an awaited call may throw. */
module Wrappers {

  datatype Option<+T> = None | Some(value: T) {
    function GetOr(default: T): T {
      match this
      case Some(v) => v
      case None => default
    }
  }

  datatype Result<+R, +E> = Success(value: R) | Failure(error: E)
}
