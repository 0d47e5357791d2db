/** The Option and Result wrappers shared by the rest of the model. */
module Wrappers {

  /** A value that may be absent: a missing journal file, a regex that found nothing. */
  datatype Option<+T> = None | Some(value: T)

  /** Either a value or the error the program would have raised instead. */
  datatype Result<+T, +E> = Success(value: T) | Failure(error: E)
}
