/** Optional values and results that may carry a Python exception message. */
module Wrappers {

  /** A dictionary key that may be absent: `None` stands for a missing key. */
  datatype Option<+T> = None | Some(value: T)

  /** The value of a computation, or the text `str(e)` of the exception it raised. */
  datatype Result<+T> = Success(value: T) | Failure(error: string)
}
