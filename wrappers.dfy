/** Option and Result, used for the values the tool may fail to produce. */
module Wrappers {

  datatype Option<+T> = None | Some(value: T)

  /** The outcome of a step that either yields a value or stops the run with an error. */
  datatype Result<+T, +E> = Ok(value: T) | Err(error: E)
}
