/** The ways the command-line front end of kmb.py gives up before any socket is
    opened. Every `sys.exit(...)` of the program is one of these, and so is the
    uncaught IndexError that an empty host string provokes. */
module Errors {

  datatype Error =
    | WrongArgumentCount   // fewer than two positional arguments
    | InvalidPort          // port string not all digits, or above the bound
    | PortDigitLimit       // `int(port)` refuses more than 4300 digits
    | InvalidHost          // host string starts with '-'
    | HostIndexError       // host string is empty: `str_host[0]` raises
    | ConflictingFlags     // both -t and -u were given

  /** A value or the reason the program stopped. */
  datatype Result<+T> = Ok(value: T) | Err(error: Error)

  /** The outcome of a check that returns nothing when it passes. */
  datatype Outcome = Pass | Fail(error: Error)

  datatype Option<+T> = None | Some(value: T)
}
