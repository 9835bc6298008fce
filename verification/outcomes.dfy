/** Failure-carrying result types shared by the session store and the account table. */
module Outcomes {

  /** A value that may be absent: PHP's `null`/`false` returns. */
  datatype Option<+T> = None | Some(value: T)

  /** The outcome of an operation that throws an `Exception` with a message on failure. */
  datatype Result<+T> = Ok(value: T) | Err(message: string)
}
