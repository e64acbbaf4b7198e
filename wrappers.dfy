/** Optional values and results with an error, used wherever the scripts
    report a notice or an error message instead of producing a value. */
module Wrappers {

  datatype Option<+T> = None | Some(value: T)

  datatype Result<+T, +E> = Ok(value: T) | Err(error: E)
}
