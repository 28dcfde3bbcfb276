/** The exceptions the modelled Python code can raise, and a result type that carries them. */
module Errors {

  /** The Python exception classes that the core raises (always by accident, never on purpose). */
  datatype Error =
    | ZeroDivisionError   // a float or int division by zero
    | ValueError          // `max` of an empty sequence, `.max()` of an empty array
    | KeyError            // a dictionary lookup of a missing key
    | AttributeError      // a method called on `None` (a model used before `fit`)

  datatype Option<+T> = None | Some(value: T)

  /** Either the value a Python call returns or the exception it raises. */
  datatype Result<+T> = Ok(value: T) | Err(error: Error)
}
