/** Optional values (Python's `None` versus a value) and results that carry
    either a value or the error the source would raise. */
module Wrappers {

  datatype Option<+T> = None | Some(value: T)

  datatype Result<+T, +E> = Ok(value: T) | Err(error: E)
}
