/** Optional values, and results in place of the driver's exceptions. */
module Wrappers {

  datatype Option<+T> = None | Some(value: T) {
    function GetOr(default: T): T {
      if Some? then value else default
    }
  }

  /** One constructor for each way the driver gives up. */
  datatype Error =
    | Timeout             // the transport delivers nothing more
    | ShortHeader         // first read of a container below 12 bytes
    | ExpectedResponse    // something other than RESPONSE after DATA
    | UnexpectedContainer // neither EVENT (within the limit), DATA nor RESPONSE
    | Overrun             // the driver would read outside its buffer (undefined in C++)
    | OutOfRange          // bounds-checked read past the end of a vector
    | ShortBuffer         // payload below the fixed size of its record
    | Unterminated        // C string without NUL
    | BadHex
    | OddHex
    | UnknownType         // directory entry of a type outside the enumeration
    | UnevenInterval      // interval seconds and frames not set together

  datatype Result<+T> = Ok(value: T) | Err(error: Error) {
    predicate IsFailure() {
      Err?
    }

    function PropagateFailure<U>(): Result<U>
      requires Err?
    {
      Err(error)
    }

    function Extract(): T
      requires Ok?
    {
      value
    }
  }
}
