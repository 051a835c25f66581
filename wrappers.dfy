/** Option and Result values, used for the source's exceptions and its "maybe" values. */
module Wrappers {

  datatype Option<+T> = None | Some(value: T)

  /** The value an operation computes, or the error the source raises instead. */
  datatype Result<+T, +E> = Ok(value: T) | Err(error: E)
}
