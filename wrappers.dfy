/** Failure-compatible wrappers shared by the whole model. */
module Wrappers {

  /** An optional value; `None` stands for JavaScript's `undefined` and for SQL NULL. */
  datatype Option<+T> = None | Some(value: T)

  /** The value of a call that either returns or throws. */
  datatype Result<+T, +E> = Ok(value: T) | Err(error: E)

  /** The value of a call that returns nothing or throws. */
  datatype Outcome<+E> = Pass | Fail(error: E)
}
