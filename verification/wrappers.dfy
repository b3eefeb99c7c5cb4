/** Failure-compatible datatypes used across the model. */
module Wrappers {

  /** A value that may be absent (Go's `(v, ok)` pairs, JavaScript's `undefined`). */
  datatype Option<+T> = None | Some(value: T)

  /** The outcome of an operation that may fail with an error of type `E`. */
  datatype Result<+T, +E> = Ok(value: T) | Err(error: E)
}
