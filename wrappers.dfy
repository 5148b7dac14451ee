/** Failure-carrying wrappers shared by the parser and the evaluator. */
module Wrappers {

  /** A value that may be missing; the parser uses `None` for "no match here". */
  datatype Option<+T> = None | Some(value: T)

  /** Rust's `Result`: a value, or an error of type `E`. */
  datatype Result<+T, +E> = Ok(value: T) | Err(error: E)
}
