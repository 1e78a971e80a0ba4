/** Option and Result, and the Python exceptions the modelled code can raise. */
module Wrappers {

  datatype Option<+T> = None | Some(value: T)

  /** The exception classes the source raises or runs into, each with a short description. */
  datatype PyError =
    | AttributeError(what: string)   // an attribute the value lacks (None, or not a str)
    | KeyError(key: string)          // a missing dict key
    | IndexError(what: string)       // an index out of range
    | AssertionError(message: string)
    | ValueError(message: string)
    | OSError(path: string)          // a file that cannot be opened

  datatype Result<+R> = Ok(value: R) | Err(error: PyError) {
    predicate IsFailure() {
      Err?
    }

    function PropagateFailure<U>(): Result<U>
      requires Err?
    {
      Err(error)
    }

    function Extract(): R
      requires Ok?
    {
      value
    }
  }
}
