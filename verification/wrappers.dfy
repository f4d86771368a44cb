/** Optional values and results shared by the parsing modules. */
module Wrappers {
  datatype Option<+T> = None | Some(value: T)

  /** The outcome of a conversion that raises an exception on malformed input. */
  datatype Result<+T> = Success(value: T) | Failure
}
