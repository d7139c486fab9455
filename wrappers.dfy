/** Option and Result values: Java's Optional / null on one side, a thrown exception on the other. */
module Wrappers {

  /** A value that may be absent (a Java `Optional` or a nullable reference). */
  datatype Option<+T> = None | Some(value: T) {

    /** The contained value, or `default` when absent (`Optional.orElse`). */
    function GetOr(default: T): T {
      match this
      case Some(v) => v
      case None => default
    }
  }

  /** The outcome of a service call: a value, or the exception it throws. */
  datatype Result<+T, +E> = Ok(value: T) | Err(error: E)
}
