/** Results that may be missing, and results of code that may throw. */
module Wrappers {
  datatype Option<T> = None | Some(value: T)

  datatype Result<T, E> = Ok(value: T) | Err(error: E)

  function OrElse<T>(o: Option<T>, default: T): T {
    if o.Some? then o.value else default
  }
}
