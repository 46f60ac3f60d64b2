/** Result types.  `Result` stands for a Kotlin function that either
    returns a value or throws `InvalidInputException`, and `Outcome` for a
    `Unit` validator that may throw.  An operation tests each validator's
    `Outcome` in the Kotlin statement order: the first failing check ends
    the operation with its error. */
module Wrappers {

  datatype Option<+T> = None | Some(value: T)

  datatype Result<+T, +E> = Success(value: T) | Failure(error: E)

  datatype Outcome<+E> = Pass | Fail(error: E)

  /** `Pass` when `condition` holds, otherwise a failure carrying `error`. */
  function Need<E>(condition: bool, error: E): Outcome<E>
  {
    if condition then Pass else Fail(error)
  }
}
