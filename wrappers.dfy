/** Failure-carrying values used across the model in place of Python's
    `None` returns and raised exceptions. */
module Wrappers {

  datatype Option<+T> = None | Some(value: T) {
    function GetOr(default: T): T {
      match this
      case Some(v) => v
      case None => default
    }
  }

  datatype Result<+T, +E> = Ok(value: T) | Err(error: E)
}

/** The Python exceptions the modelled code raises or catches.  Exceptions
    raised by the Modbus client library are opaque: `BusFault(code)`. */
module Exceptions {

  datatype Exc =
    | ValueError
    | TypeError
    | IndexError
    | KeyError
    | ZeroDivisionError
    | IOError
    | ConnectionError
    | BusFault(code: nat)
}
