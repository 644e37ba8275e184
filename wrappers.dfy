/** Optional values and error returns shared by every module of the model. */
module Wrappers {

  /** A value that may be absent: Ruby's `nil` or a missing JSON key. */
  datatype Option<+T> = None | Some(value: T) {
    function GetOr(default: T): T {
      match this
      case Some(v) => v
      case None => default
    }
  }

  /** The outcome of an operation that can be refused. */
  datatype Result<+R, +E> = Success(value: R) | Failure(error: E)
}
