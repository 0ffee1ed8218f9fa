/** Optional values and error-carrying results, standing for Python's `None`
    defaults and the exceptions the rejection routine raises. */
module Wrappers {

  datatype Option<T> = None | Some(value: T)

  datatype Result<T, E> = Ok(value: T) | Err(error: E)
}
