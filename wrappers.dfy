/** The result types shared by the catalogue's modules. */
module Wrappers {

  /** A value that may be absent (JavaScript's `null` / `undefined`). */
  datatype Option<+T> = None | Some(value: T)

  /** The outcome of an operation that either succeeds or throws an error. */
  datatype Result<+T, +E> = Success(value: T) | Failure(error: E)
}
