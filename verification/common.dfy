/** Value wrappers shared by the toll-fee model: nullable references, results of
    operations that may throw, and the two .NET exception kinds the core raises. */
module Common {

  /** A nullable reference: `None` stands for C#'s `null`. */
  datatype Option<+T> = None | Some(value: T)

  /** The outcome of an operation that either returns a value or throws. */
  datatype Result<+T, +E> = Ok(value: T) | Err(error: E)

  /** The exceptions the core throws, with the message the caller can match on. */
  datatype Error =
    | ArgumentException(message: string)
    | ArgumentOutOfRangeException

  function Max(a: int, b: int): int { if a >= b then a else b }

  function Min(a: int, b: int): int { if a <= b then a else b }
}
