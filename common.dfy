/** Value and error wrappers shared by every module: Python's `None`, the
    exceptions the core raises, and a result that is either a value or one of
    those exceptions. */
module Common {

  datatype Option<+T> = None | Some(value: T)

  /** The Python exceptions raised by the modelled code. */
  datatype Error =
    | ValueError(message: string)   // bad configuration (DinnerInstance.__init__)
    | KeyError(key: int)            // a host event id that is not a hosted round
    | IndexError                    // an index past the end of a list
    | TypeError                     // a constructor called with the wrong number of arguments
    | RuntimeError(message: string) // the geocoder reported an error

  /** Either the value a Python call returns or the exception it raises. */
  datatype Result<+T> = Success(value: T) | Failure(error: Error)
}
