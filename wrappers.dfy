/** Failure-compatible result types shared by the store and the two services. */
module Wrappers {

  /** A value that may be absent: a document lookup that matched nothing, an omitted query parameter. */
  datatype Option<+T> = None | Some(value: T) {
    function GetOr(default: T): T {
      match this
      case Some(v) => v
      case None => default
    }
  }

  /** The value an operation produces, or the error it throws. */
  datatype Result<+R, +E> = Success(value: R) | Failure(error: E)

  /** An operation that produces nothing on success, or the error it throws. */
  datatype Outcome<+E> = Pass | Fail(error: E)
}
