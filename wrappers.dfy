/** Optional values and results carrying an error, used where the Go code returns a
    nil result or an (value, error) pair. */
module Wrappers {

  datatype Option<+T> = None | Some(value: T)

  datatype Result<+T, +E> = Ok(value: T) | Err(error: E)
}
