/** Result and status types shared by the pin-control model. */
module Wrappers {

  datatype Option<T> = None | Some(value: T)

  /** The two error returns of the driver: -EINVAL and -ENOTSUPP. */
  datatype Error = Invalid | NotSupported

  /** The kernel error number each error is returned as. */
  function Errno(e: Error): int
  {
    match e
    case Invalid => -22
    case NotSupported => -524
  }

  datatype Result<T> = Ok(value: T) | Err(error: Error)

  /** The status of an operation that returns 0 or a negative error number. */
  datatype Outcome = Pass | Fail(error: Error)
}
