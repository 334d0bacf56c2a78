/** Failure-compatible wrappers shared by the rest of the model. */
module Wrappers {

  /** An optional value: `None` stands for PHP's `null`/`false` "nothing found". */
  datatype Option<+T> = None | Some(value: T)

  /** Either a value or the error that aborted the computation. */
  datatype Result<+T, +E> = Ok(value: T) | Err(error: E)
}
