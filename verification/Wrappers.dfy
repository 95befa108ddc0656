/** The two result shapes used throughout: a value that may be missing, and a
    call that may raise. */
module Wrappers {

  datatype Option<+T> = None | Some(value: T) {

    function UnwrapOr(fallback: T): T {
      if Some? then value else fallback
    }
  }

  datatype Result<+T, +E> = Ok(value: T) | Raised(error: E)
}
