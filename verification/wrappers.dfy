/** Option and Result, for values the source may leave unset and for the
    exceptions it may raise. */
module Wrappers {

  datatype Option<T> = None | Some(value: T)

  datatype Result<T, E> = Ok(value: T) | Err(error: E)
}
