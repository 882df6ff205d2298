/** Failure-carrying return types used in place of Java's Optional and exceptions. */
module Wrappers {

  /** Optional value: a Java `Optional` or a nullable field. */
  datatype Option<+T> = None | Some(value: T) {

    /** The carried value, or `default` when there is none. */
    function GetOr(default: T): T {
      match this
      case Some(v) => v
      case None => default
    }
  }

  /** Outcome of a service call: a value, or the exception the service would throw. */
  datatype Result<+T, +E> = Ok(value: T) | Err(error: E)
}
