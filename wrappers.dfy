/** Failure-carrying results: the Java code signals failure by throwing; the model returns a value. */
module Wrappers {

  /** A nullable reference: `None` stands for Java's `null`. */
  datatype Option<+T> = None | Some(value: T)

  /** The outcome of an operation that returns a value or throws. */
  datatype Result<+T, +E> = Success(value: T) | Failure(error: E)

  /** The outcome of a `void` operation that may throw. */
  datatype Outcome<+E> = Pass | Fail(error: E)
}
