/**
 The Python exceptions the solver can raise, and a result type that carries
 either a value or the exception that ended the computation.
 */
module Exceptions {

  /** The built-in Python exceptions the solver's code paths can raise. */
  datatype Error =
    | IndexError  // indexing a list or string past its end
    | KeyError    // `set.remove` of an element that is not in the set
    | TypeError   // using `None` (from `dict.get` of a missing key) as a list

  datatype Result<+T> = Ok(value: T) | Err(error: Error)
}
