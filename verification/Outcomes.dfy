/** Absence and failure as values, in place of the null results and exceptions of the modelled sources. */
module Outcomes {

  datatype Option<+T> = None | Some(value: T)

  datatype Result<+T, +E> = Ok(value: T) | Err(error: E)
}
