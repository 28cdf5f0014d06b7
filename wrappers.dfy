/** Failure-carrying result types shared by the rest of the model. */
module Wrappers {

  /** A value that may be absent: the model of a regular-expression match that can be `null`. */
  datatype Option<+T> = None | Some(value: T)

  /** The outcome of an operation that can throw: `Err` stands for the exception. */
  datatype Result<+T, +E> = Ok(value: T) | Err(error: E)
}
