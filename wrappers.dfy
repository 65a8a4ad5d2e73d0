/** Option and Outcome, the stand-ins for Java's null references and thrown exceptions. */
module Wrappers {

  /** A value that may be absent: `None` models a Java `null` reference. */
  datatype Option<+T> = None | Some(value: T)

  /** A value, or the error (a thrown exception) that took its place. */
  datatype Result<+T, +E> = Ok(value: T) | Err(error: E)

  /** The result of an operation that either completes or fails with an error. */
  datatype Outcome<+E> = Pass | Fail(error: E)
}
