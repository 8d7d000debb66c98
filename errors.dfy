/** Error values raised by the session layer, and a result type for the
    accessors that raise them. */
module Errors {

  /** The only error kind the session layer raises: using an ended session. */
  datatype Error = InvalidOperation(message: string)

  /** The message every accessor of an ended session raises with. */
  const EndedSessionMessage: string := "Cannot use ended session"

  /** Either the accessor's value or the error it raised. */
  datatype Result<T> = Ok(value: T) | Err(error: Error)
}
