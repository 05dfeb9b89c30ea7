/** Option and Result values, and the Python exceptions the modelled code can raise. */
module Outcomes {

  /** An empty grid cell or an absent value (Python's `None`). */
  datatype Option<+T> = None | Some(value: T)

  /** The exceptions a Python expression in the modelled code can raise. */
  datatype Error =
    | IndexError      // a list index outside the list
    | KeyError        // a dictionary key that is absent
    | AttributeError  // an attribute looked up on `None`

  /** Either a value or the exception that was raised instead. */
  datatype Result<+T> = Ok(value: T) | Err(error: Error)
}
