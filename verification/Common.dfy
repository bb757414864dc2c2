/** Optional values and results shared by all modules. */
module Common {

  datatype Option<+T> = None | Some(value: T)

  /** Go's `(value, error)` pairs; the error text itself is not modelled beyond its kind. */
  datatype Result<+T> = Ok(value: T) | Err(error: string) {
    predicate IsFailure() {
      Err?
    }

    function PropagateFailure<U>(): Result<U>
      requires Err?
    {
      Err(error)
    }

    function Extract(): T
      requires Ok?
    {
      value
    }
  }
}
