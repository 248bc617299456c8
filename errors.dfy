/** The exceptions of the runtime layer (execjs/exceptions.py) and the
    Python exceptions that the modelled code lets escape. */
module Errors {
  import opened PyValues

  /** Python exceptions other than the ExecJS ones. */
  datatype HostErrorKind =
    | IndexError          // list index out of range
    | KeyError            // dict lookup of a missing key
    | TypeError           // len() of an unsized value, None + list
    | ValueError          // unpacking a sequence of the wrong length
    | AttributeError      // .startswith on a value that is not a string
    | JsonDecodeError     // json.loads on text that is not JSON
    | UnicodeDecodeError  // bytes.decode('utf8') on ill-formed bytes
    | ImportError         // "import PyV8" when PyV8 is not installed

  datatype Error =
    | RuntimeUnavailable(message: string)
    | RuntimeError(message: string)
    | ProgramError(value: Value)
    | HostError(kind: HostErrorKind)

  /** A return value or a raised exception. */
  datatype Result<+T> = Ok(value: T) | Err(error: Error)
}
