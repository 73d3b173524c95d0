/** Optional values and results shared by every module of the model. */
module Wrappers {

  /** A value that may be absent (pandas' NA / NaN / NaT at the value level). */
  datatype Option<+T> = None | Some(value: T)

  /** The outcome of a step that may raise. */
  datatype Result<+T, +E> = Ok(value: T) | Err(error: E)
}
