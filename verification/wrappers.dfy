/** Failure-carrying wrappers used by the teacher's operations. */
module Wrappers {

  /** A value that may be absent (the teacher has no learner pose before its
      first knowledge update). */
  datatype Option<+T> = None | Some(value: T)

  /** The outcome of an operation that can abort (an assert or a division by zero). */
  datatype Result<+R, +E> = Success(value: R) | Failure(error: E)
}
