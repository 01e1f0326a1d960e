/** The failures the modelled Python code can raise, and the result type that carries them. */
module Errors {

  /** The Python exceptions that the modelled functions can raise. */
  datatype Error =
    | EmptySequence      // ValueError: min() or max() of an empty sequence
    | IndexOutOfRange    // IndexError: list index out of range
    | KeyNotFound        // KeyError: a dictionary lookup of an absent key
    | DivisionByZero     // ZeroDivisionError: integer division by zero
    | UnpackMismatch     // ValueError: unpacking a list of the wrong length

  /** Either the value a Python function returns or the exception it raises. */
  datatype Result<T> = Ok(value: T) | Err(error: Error)

  /** A Python value that may be None. */
  datatype Option<T> = None | Some(value: T)
}
