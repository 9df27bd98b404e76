/** Shared wrapper and value types used by every module of the model. */
module Common {

  /** Python's `None`-or-value. */
  datatype Option<+T> = None | Some(value: T)

  /** A computation that either yields a value or raises an exception. */
  datatype Result<+T, +E> = Success(value: T) | Failure(error: E) {

    predicate IsFailure() {
      Failure?
    }

    function PropagateFailure<U>(): Result<U, E>
      requires Failure?
    {
      Failure(error)
    }

    function Extract(): T
      requires Success?
    {
      value
    }
  }

  /** The scalar values that the CSV codec and the history dictionaries hold:
      `None`, a byte string, an integer, or any other value (a float, say),
      given by the text `str()` makes of it. */
  datatype Value = Null | Str(s: string) | Int(i: int) | Other(text: string)
}
