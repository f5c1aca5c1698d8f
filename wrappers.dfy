/** Failure-carrying values shared by the model: an absent request field or
    nullable column (Option), an operation that returns or raises (Result),
    and a check that passes or raises (Outcome). */
module Wrappers {

  datatype Option<+T> = None | Some(value: T)

  datatype Result<+T, +E> = Success(value: T) | Failure(error: E)

  datatype Outcome<+E> = Pass | Fail(error: E)
}
