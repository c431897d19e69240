/** Option and Result values standing for Rust's `Option<T>` and
    `anyhow::Result<T>` (whose error is modelled by its message). */
module Wrappers {

  datatype Option<+T> = None | Some(value: T)
  {
    /** `unwrap_or`: the value, or `default` when there is none. */
    function UnwrapOr(default: T): (r: T)
      ensures Some? ==> r == value
      ensures None? ==> r == default
    {
      match this
      case Some(v) => v
      case None => default
    }
  }

  datatype Result<+T, +E> = Success(value: T) | Failure(error: E)

  /** Outcome of an operation that returns no value: `Result<(), E>`. */
  datatype Outcome<+E> = Pass | Fail(error: E)
}
