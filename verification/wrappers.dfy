/** Failure-carrying wrappers shared by every module of the model. */
module Wrappers {

  /** An optional value; `None` stands for JavaScript's `null`/absent. */
  datatype Option<+T> = None | Some(value: T)

  /** The outcome of an async service call: a value, or the error it throws. */
  datatype Result<+T, +E> = Ok(value: T) | Err(error: E)
}
