/** Outcome types shared by the evaluator: an optional value and a
    success-or-error result standing for a raised exception. */
module Results {

  datatype Option<+T> = None | Some(value: T)

  datatype Result<+T, +E> = Success(value: T) | Failure(error: E)
}
