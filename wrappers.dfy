/** Stock failure-carrying datatypes shared by every module. */
module Wrappers {

  /** A value that may be missing: JavaScript's `undefined`/`null` against a present value. */
  datatype Option<+T> = None | Some(value: T)

  /** The reply of a backend call that returns no data: success, or an error with its message. */
  datatype Outcome = Ok | Err(message: string)
}
