/** Option and Result values used for parsed input and for decisions that can fail. */
module Wrappers {

  /** A parsed number: `None` stands for JavaScript's NaN (unparsable or empty input). */
  datatype Option<+T> = None | Some(value: T)

  /** The outcome of a validation: the accepted value or the reason for refusal. */
  datatype Result<+R, +E> = Ok(value: R) | Err(error: E)
}
