/** Failure-compatible wrappers shared by the whole model. */
module Results {

  /** Python's `None` versus a present value. */
  datatype Option<+T> = None | Some(value: T)

  /**
   * The outcome of a computation that can raise Python's ValueError: `float()`
   * rejecting a text. The failing case records the text that was rejected.
   */
  datatype Outcome<+T> = Ok(value: T) | ValueError(text: string) {
    predicate IsFailure() {
      ValueError?
    }

    function PropagateFailure<U>(): Outcome<U>
      requires ValueError?
    {
      ValueError(text)
    }

    function Extract(): T
      requires Ok?
    {
      value
    }
  }

  /** A value or an error of some other kind (an HTTP error, an unhandled exception). */
  datatype Result<+T, +E> = Success(value: T) | Failure(error: E)
}
