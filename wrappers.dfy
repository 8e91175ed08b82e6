/** Optional values for nullable columns, and results for statements that can fail. */
module Wrappers {

  /** A nullable column value: `None` is SQL NULL. */
  datatype Option<+T> = None | Some(value: T)

  /** The outcome of running a statement: the new state, or the error the warehouse reports. */
  datatype Result<+T, +E> = Ok(value: T) | Err(error: E)
}
