/** Success/error results shared by every module of the model.  The C++ code
    reports its fatal conditions by throwing `cet::exception`; here a thrown
    exception becomes an `Err` value carrying the reason. */
module Results {

  /** An optional data product or pointer: `None` for "not produced" or null. */
  datatype Option<+T> = None | Some(value: T)

  datatype Result<+T, +E> = Ok(value: T) | Err(error: E) {

    predicate IsFailure() {
      Err?
    }

    function PropagateFailure<U>(): Result<U, E>
      requires Err?
    {
      Err(error)
    }

    function Extract(): T
      requires Ok?
    {
      value
    }
  }

  /** A check that either passes or fails with a reason and carries no value. */
  datatype Outcome<+E> = Pass | Fail(error: E) {

    predicate IsFailure() {
      Fail?
    }

    function PropagateFailure(): Outcome<E>
      requires Fail?
    {
      this
    }
  }

  function Check<E>(condition: bool, error: E): (r: Outcome<E>)
  {
    if condition then Pass else Fail(error)
  }
}
