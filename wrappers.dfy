/** Optional values and Python-style outcomes shared by every module. */
module Wrappers {

  /** A value that may be missing (Python's `None`). */
  datatype Option<+T> = None | Some(value: T)

  /** The outcome of a call that may raise an exception the caller does not catch. */
  datatype Outcome<+T> = Ok(value: T) | Raised
}
