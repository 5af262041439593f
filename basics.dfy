/** Failure-carrying wrappers shared by every module of the model. */
module Basics {

  /** A value that may be absent: a JavaScript `undefined`, a pandas NaN, a missing key. */
  datatype Option<+T> = None | Some(value: T)

  /** The outcome of an operation that can raise: `Err` carries the exception's name. */
  datatype Result<+T> = Ok(value: T) | Err(error: string)
}
