/** Option and Result, the two failure-carrying datatypes the model uses in place
    of Python's None and raised exceptions. */
module Wrappers {

  datatype Option<+T> = None | Some(value: T) {
    /** The carried value, or `default` when there is none (Python's `d.get(k, default)`). */
    function GetOr(default: T): T {
      match this
      case Some(v) => v
      case None => default
    }
  }

  datatype Result<+R, +E> = Success(value: R) | Failure(error: E)
}
