/** Failure-carrying wrappers shared by the rest of the model. */
module Wrappers {

  /** An optional value; `None` stands for Go's nil. */
  datatype Option<+T> = None | Some(value: T)

  /** The outcome of an operation that either succeeds or aborts (panics) with a reason. */
  datatype Result<+T, +E> = Ok(value: T) | Abort(reason: E)
}
