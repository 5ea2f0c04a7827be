/** Optional values and fallible results, as Rust's `Option` and `Result`. */
module Wrappers {

  datatype Option<+T> = None | Some(value: T)

  /** A Rust `Result`; in this model `Failure` also stands for a panic the source would raise. */
  datatype Result<+R, +E> = Success(value: R) | Failure(error: E)

  /** `opt.unwrap_or(default)` */
  function UnwrapOr<T>(opt: Option<T>, default: T): T
  {
    match opt
    case Some(v) => v
    case None => default
  }
}
