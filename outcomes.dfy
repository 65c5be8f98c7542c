/** Option and Result: the error values that replace the source's exceptions and (ok, value) pairs. */
module Outcomes {

  datatype Option<+T> = None | Some(value: T)

  datatype Result<+R, +E> = Ok(value: R) | Err(error: E)
}
