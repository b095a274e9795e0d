/** Optional values and success-or-error results, used wherever the source
    returns null, a "not found" index, or throws. */
module Wrappers {

  datatype Option<+T> = None | Some(value: T)

  datatype Result<+T, +E> = Ok(value: T) | Err(error: E)
}
