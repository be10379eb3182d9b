/** Failure-carrying datatypes shared by the whole model. */
module Wrappers {

  /** An optional value: Python's `Optional[T]`, with `None` as the absent case. */
  datatype Option<+T> = None | Some(value: T) {

    /** Returns the value, or `default` when there is none. */
    function GetOr(default: T): T {
      match this
      case Some(v) => v
      case None => default
    }
  }

  /** The outcome of an operation that may raise: a value, or the message of the exception. */
  datatype Result<+R> = Success(value: R) | Failure(error: string)
}
