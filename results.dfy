/** Optional values and the two ways the transmogrifier can abort a pass:
    a failed `assert` and an out-of-range index. */
module Results {

  datatype Option<+T> = None | Some(value: T)

  /** Aborts the source raises; none of them is caught inside the core. */
  datatype Failure =
    | AssertionError(check: string)  // an `assert` statement that does not hold
    | IndexError                     // a string index past its end

  datatype Result<+T> = Ok(value: T) | Err(error: Failure) {

    predicate IsFailure() {
      Err?
    }

    function PropagateFailure<U>(): Result<U>
      requires Err?
    {
      Err(error)
    }

    function Extract(): T
      requires Ok?
    {
      value
    }
  }
}
