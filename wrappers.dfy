/** Stand-ins for Java's null and for thrown exceptions. */
module Wrappers {

  /** A Java reference that may be null: `None` is null. */
  datatype Option<+T> = None | Some(value: T)

  /** The value of a call that either returns or throws. */
  datatype Result<+R, +E> = Success(value: R) | Failure(error: E)
}
