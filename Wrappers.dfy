/** Option and Result, standing in for Java's null references and exceptions. */
module Wrappers {

  /** `None` plays the part of a Java `null` reference. */
  datatype Option<+T> = None | Some(value: T)

  /** `Failure` plays the part of a thrown exception. */
  datatype Result<+R, +E> = Success(value: R) | Failure(error: E)
}
