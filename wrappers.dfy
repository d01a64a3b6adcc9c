/** Optional values and results with an error, used wherever the source
    checks for `None` or reports a failure instead of raising. */
module Wrappers {

  datatype Option<+T> = None | Some(value: T)

  datatype Result<+T, +E> = Ok(value: T) | Err(error: E)
}
