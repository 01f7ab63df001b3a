/** Option and Result, used where the source returns null or throws. */
module Wrappers {

  datatype Option<+T> = None | Some(value: T)

  datatype Result<+T, +E> = Success(value: T) | Failure(error: E)

  /** C#'s `null ?? fallback`. */
  function OrElse<T>(o: Option<T>, fallback: Option<T>): Option<T>
  {
    if o.Some? then o else fallback
  }
}
