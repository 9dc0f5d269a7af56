/** The two result datatypes shared by every module. */
module Results {
  datatype Option<+T> = None | Some(value: T)

  /** The result of an operation that the client reports by throwing. */
  datatype Result<+T, +E> = Ok(value: T) | Err(error: E) {
    predicate IsFailure() {
      Err?
    }

    function PropagateFailure<U>(): Result<U, E>
      requires Err?
    {
      Err(error)
    }

    function Extract(): T
      requires Ok?
    {
      value
    }
  }
}
