/** The optional-value and outcome datatypes shared by the handler models. */
module Wrappers {

  /** A value that may be absent (JavaScript `null`/`undefined`). */
  datatype Option<+T> = None | Some(value: T)

  /** The outcome of an operation that may throw: `Err` carries the message of the thrown `Error`. */
  datatype Result<+T, +E> = Ok(value: T) | Err(error: E)
}
