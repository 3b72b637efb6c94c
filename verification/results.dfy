/** Failure-compatible wrappers used across the model: `Option` for values that may be
    absent and `Result` for the error returns of the Rust code. */
module Results {

  datatype Option<+T> = None | Some(value: T)

  datatype Result<+T, +E> = Ok(value: T) | Err(error: E) {

    predicate IsFailure() {
      Err?
    }

    function PropagateFailure<U>(): Result<U, E>
      requires Err?
    {
      Err(error)
    }

    function Extract(): T
      requires Ok?
    {
      value
    }

    /** The value on success, `default` on failure (Rust's `unwrap_or`). */
    function UnwrapOr(default: T): T {
      if Ok? then value else default
    }
  }
}
