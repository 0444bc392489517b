/** Optional values and success-or-error results, the shapes the pipeline uses in place of
    Go's `(value, error)` pairs. `Result` is failure-compatible, so `:-` propagates an error. */
module Base {

  datatype Option<+T> = None | Some(value: T)

  datatype Result<+T, +E> = Ok(value: T) | Err(error: E) {

    predicate IsFailure() {
      Err?
    }

    function PropagateFailure<U>(): Result<U, E>
      requires Err?
    {
      Err(error)
    }

    function Extract(): T
      requires Ok?
    {
      value
    }
  }
}
