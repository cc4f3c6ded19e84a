/** Optional values and results with an error case, used wherever the
    program either produces a value or stops (log.Fatal or a panic). */
module Wrappers {

  datatype Option<+T> = None | Some(value: T)

  datatype Result<+T, +E> = Ok(value: T) | Err(error: E)
}
