/** Error numbers and the success-or-error outcomes of the system-call layer. */
module Errno {
  import opened Machine

  /** A C error return: any nonzero `int`. */
  type ErrorCode = e: Int32 | e != 0 witness 1

  // Values of OS/161's kern/errno.h for the codes this core raises itself.
  const ENOSYS: ErrorCode := 1
  const ENOMEM: ErrorCode := 3
  const ENFILE: ErrorCode := 29
  const EBADF: ErrorCode := 30

  datatype Option<+T> = None | Some(value: T)

  /** The result of a fallible operation: a value, or the error it returned. */
  datatype Result<+T> = Ok(value: T) | Err(code: ErrorCode)

  /** The outcome of a system-call handler: exactly one of a return value and
      an error code. */
  datatype Outcome = Success(retval: Int32) | Failure(err: ErrorCode)

  /** A handler that returns a C error number and leaves `retval` at its
      initial 0 (`sys_reboot`, `sys___time`). */
  function FromErrorReturn(e: Int32): (o: Outcome)
    ensures o.Success? <==> e == 0
    ensures o.Success? ==> o.retval == 0
    ensures o.Failure? ==> o.err == e
  {
    if e == 0 then Success(0) else Failure(e)
  }
}
