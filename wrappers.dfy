/** Optional values and fallible results shared by the formatter model. */
module Wrappers {

  /** A value that may be missing: a Python `None` or a pandas `NaN` cell. */
  datatype Option<+T> = None | Some(value: T)

  /** The outcome of a step that may raise. */
  datatype Result<+R, +E> = Ok(value: R) | Err(error: E)
}
