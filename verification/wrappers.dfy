/** Optional values and success-or-error results. They stand for the program's
    `undefined` fields, its `Optional` repository answers and the errors it
    throws. */
module Wrappers {

  datatype Option<T> = None | Some(value: T)

  datatype Result<T, E> = Ok(value: T) | Err(error: E)
}
