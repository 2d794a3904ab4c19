/** Rust's `Option<T>` and `Result<T, E>`, the two sum types every function of
    the model returns when it can fail or find nothing. */
module Wrappers {

  datatype Option<+T> = None | Some(value: T)

  datatype Result<+T, +E> = Ok(value: T) | Err(error: E) {

    /** `Result::unwrap_or`: the success value, or `default` on an error. */
    function UnwrapOr(default: T): (r: T)
      ensures Ok? ==> r == value
      ensures Err? ==> r == default
    {
      match this
      case Ok(v) => v
      case Err(_) => default
    }
  }
}
