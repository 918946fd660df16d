/** The wrapper types the model uses for Python's `None` and for an exception. */
module Outcomes {
  datatype Option<T> = None | Some(value: T)

  datatype Result<T, E> = Ok(value: T) | Err(error: E)

  /** The Python exceptions the modelled code can raise. */
  datatype PyError =
    | TypeError   // an argument of the wrong type
    | IndexError  // a list index past the end, such as the line after a trailing `\`
    | KeyError    // a dictionary lookup of a missing key
    | RuntimeError  // the maximum depth of recursion exceeded
}
