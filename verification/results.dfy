/** Failure-compatible wrappers shared by both solvers: an optional value, and
    a result that is either a value or an error (Rust's `Option` and `Result`). */
module Results {

  datatype Option<+T> = None | Some(value: T)

  /** A value or an error; usable with `:-`, which propagates the first error. */
  datatype Result<+T, +E> = Ok(value: T) | Err(error: E) {

    predicate IsFailure() {
      Err?
    }

    function PropagateFailure<U>(): Result<U, E>
      requires Err?
    {
      Err(error)
    }

    function Extract(): T
      requires Ok?
    {
      value
    }
  }
}
