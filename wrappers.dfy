/** Failure-compatible result types: the Java code signals these outcomes by
    throwing exceptions; the model returns them as values. */
module Wrappers {

  datatype Option<+T> = None | Some(value: T)

  /** A computation that produces a value or fails with an error. */
  datatype Result<+T, +E> = Success(value: T) | Failure(error: E)

  /** A computation that produces nothing (a Java `void` method) or fails. */
  datatype Outcome<+E> = Pass | Fail(error: E)
}
