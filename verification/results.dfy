/** Failure-compatible wrappers used to model the exceptions the library throws
    and the NaN an empty mean produces. */
module Results {

  /** A value that may be missing; `None` stands for an undefined (NaN) result. */
  datatype Option<+T> = None | Some(value: T)

  /** Either a value or the error the operation would have thrown. */
  datatype Result<+T, +E> = Ok(value: T) | Err(error: E) {

    predicate IsFailure() {
      Err?
    }

    function PropagateFailure<U>(): Result<U, E>
      requires Err?
    {
      Err(error)
    }

    function Extract(): T
      requires Ok?
    {
      value
    }
  }
}
