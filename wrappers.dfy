/** Optional values and results shared by the model. */
module Wrappers {

  /** A spreadsheet cell that may be empty (pandas NaN), or any optional value. */
  datatype Option<+T> = None | Some(value: T)

  /** The outcome of a step that can stop the run with an error. */
  datatype Result<+R, +E> = Ok(value: R) | Err(error: E)
}
