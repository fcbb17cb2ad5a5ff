/** Small failure-carrying datatypes shared by the rest of the model. */
module Basics {

  /** A value that may be absent; `None` plays the part of Go's `nil`. */
  datatype Option<+T> = None | Some(value: T)

  /** The outcome of a partial operation such as parsing: a value or an error. */
  datatype Result<+T, +E> = Ok(value: T) | Err(error: E)
}
