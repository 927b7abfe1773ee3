/** Optional values and error-carrying results, used where the source returns
    `None` or raises an exception that its caller handles. */
module Outcomes {

  datatype Option<+T> = None | Some(value: T)

  datatype Result<+T, +E> = Ok(value: T) | Err(error: E)
}
