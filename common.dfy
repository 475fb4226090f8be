/**
 * Result and error types shared by the model of the acq400 host API.
 * The error constructors name the Python exceptions that the modelled code
 * raises (or lets numpy raise) on malformed input.
 */
module Common {

  datatype Option<+T> = None | Some(value: T)

  /** Python exceptions raised by the modelled code. */
  datatype Error =
    | IndexError   // a list, string or array index out of range
    | ValueError   // int() of a non-digit, a buffer of the wrong size, a failed clock search
    | KeyError     // a dictionary lookup of a missing key
    | NameError    // a local variable read before any branch assigned it
    | TypeError    // iterating over a plain int

  datatype Result<+T> = Ok(value: T) | Err(error: Error)

  function Min(a: int, b: int): int { if a <= b then a else b }
  function Max(a: int, b: int): int { if a >= b then a else b }
}
