/** Optional values and error results shared by the datamap and wifi models. */
module Wrappers {

  /** A value that may be absent: Python's `None` versus a present value. */
  datatype Option<+T> = None | Some(value: T)

  /** The outcome of a step that raises an exception in the original program. */
  datatype Result<+T> = Ok(value: T) | Err(error: string)
}
