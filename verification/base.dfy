/** Small failure-carrying datatypes shared by the whole model. */
module Base {

  /** A value that may be missing: a store lookup that finds nothing, a
      token that does not verify, a request field that was not sent. */
  datatype Option<+T> = None | Some(value: T)

  /** The outcome of a store operation: the value, or the error it raised. */
  datatype Result<+R, +E> = Success(value: R) | Failure(error: E)

  function Min(a: int, b: int): int
  {
    if a <= b then a else b
  }
}
