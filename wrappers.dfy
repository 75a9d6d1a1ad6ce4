/** Option and Result values, and the Python exceptions the modelled code raises. */
module Wrappers {

  datatype Option<+T> = None | Some(value: T)

  /** The exceptions of the journal's Python code that the model keeps as values. */
  datatype Error =
    | TypeError
    | ValueError
    | OverflowError
    | IndexError
    | KeyError
    | AttributeError
    | UnicodeError
    | IOError(path: string)
    | OSError(path: string)
    | InvalidDataDir(path: string)

  datatype Result<+T> = Ok(value: T) | Err(error: Error)
}
