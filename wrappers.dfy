/** Option and Result, the two tagged unions the pipeline uses for
    "maybe absent" values (a file handle, a page's text) and for
    operations that either produce a value or raise an error. */
module Wrappers {

  datatype Option<+T> = None | Some(value: T) {

    /** The wrapped value, or `default` when absent (Python's `x or default`
        for a value that may be None). */
    function GetOr(default: T): T {
      match this
      case Some(v) => v
      case None => default
    }
  }

  datatype Result<+R, +E> = Success(value: R) | Failure(error: E)

  /** What is known of a raised exception: its message. */
  type ErrorInfo = string
}
