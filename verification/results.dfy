/** Failure-carrying values used in place of Python's exceptions. */
module Results {

  /** Either a value or an error: a Python function that returns or raises. */
  datatype Result<+T, +E> = Success(value: T) | Failure(error: E)

  /** An optional value. */
  datatype Option<+T> = None | Some(value: T)
}
