/** Optional values (a pandas NaN / Python None becomes `None`) and results
    with an error value (a raised exception becomes `Failure`). */
module Wrappers {

  datatype Option<+T> = None | Some(value: T) {
    function GetOr(default: T): T {
      match this
      case Some(v) => v
      case None => default
    }
  }

  datatype Result<+R, +E> = Success(value: R) | Failure(error: E)
}
