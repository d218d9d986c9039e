/** Option and Result datatypes used for the error paths of the model. */
module Wrappers {

  /** A value that may be absent (JavaScript `null`/`undefined`, or a failed regular-expression match). */
  datatype Option<+T> = None | Some(value: T)

  /** The outcome of an operation that may fail with an error value (a thrown exception in the source). */
  datatype Result<+T, +E> = Ok(value: T) | Err(error: E)
}
