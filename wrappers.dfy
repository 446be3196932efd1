/** Failure-carrying results shared by the modules of the messaging client model. */
module Wrappers {

  /** A value that may be absent: JavaScript's `null`/`undefined` against a present value. */
  datatype Option<+T> = None | Some(value: T)

  /** The outcome of an operation that throws in the source: `Err` stands for the exception. */
  datatype Result<+T, +E> = Ok(value: T) | Err(error: E)
}
