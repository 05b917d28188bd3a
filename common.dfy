/** Shared result types: the Python exceptions the core can raise become values. */
module Common {

  /** The exceptions that end a call in the modelled code. */
  datatype PyError =
    | ZeroDivision   // `x / 0` or `x % 0`
    | IndexError     // a list index past the end
    | ValueError     // `float()` of a string that is not a number
    | UnboundLocal   // a local variable read before any assignment
    | ReadFailure    // an image file that could not be decoded

  datatype Option<+T> = None | Some(value: T)

  datatype Result<+T> = Ok(value: T) | Err(error: PyError)
}
