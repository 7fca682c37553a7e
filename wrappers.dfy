/** Optional values and Python-style outcomes shared by the other modules. */
module Wrappers {

  /** A value that may be missing (Python's `None`). */
  datatype Option<+T> = None | Some(value: T)

  /** The Python exceptions the contest module can raise without catching them. */
  datatype Exception = ValueError | TypeError | AttributeError

  /** The outcome of a Python expression: a value, or an exception that propagates. */
  datatype Result<+T> = Ok(value: T) | Raises(exc: Exception)
}
