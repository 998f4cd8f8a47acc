/** Small failure-carrying datatypes shared by the modules of the model. */
module Wrappers {

  datatype Option<T> = None | Some(value: T) {
    function GetOr(default: T): T {
      match this
      case Some(v) => v
      case None => default
    }
  }

  /** The result of an operation that either returns a value or raises an exception. */
  datatype Outcome<T> = Success(value: T) | Failure(error: string)
}
