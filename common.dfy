/** Failure-carrying result types shared by the modules of this model:
    Python's `None` and raised exceptions become explicit values. */
module Common {

  /** A value that may be absent (Python's `None`). */
  datatype Option<+T> = None | Some(value: T)

  /** Either a value or the exception a Python operation would raise. */
  datatype Result<+R, +E> = Success(value: R) | Failure(error: E)
}
