/**
 The two failures the parameter object can signal, and a failure-compatible
 result type carrying either a value or one of them.
 */
module Results {

  /** Why an operation on the parameter object did not complete. */
  datatype Error =
    /** An accessor was used before `finalize` set the latch. */
    | NotFinalized
    /** A curve had to be reversed, but its storage cannot be written. */
    | WrongOrderOnImmutable

  datatype Result<+T> = Ok(value: T) | Err(error: Error) {

    predicate IsFailure() {
      Err?
    }

    function PropagateFailure<U>(): Result<U>
      requires Err?
    {
      Err(error)
    }

    function Extract(): T
      requires Ok?
    {
      value
    }
  }
}
