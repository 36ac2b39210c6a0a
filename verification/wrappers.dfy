/** Option and Result, and the Python exceptions the modelled code can raise. */
module Wrappers {

  datatype Option<+T> = None | Some(value: T)

  /** The exceptions of the modelled code that end an operation early. */
  datatype Error =
    | KeyError          // a dict lookup with a missing key
    | IndexError        // indexing an empty or too short list
    | UnboundLocal      // reading a local variable that was never assigned
    | RecursionLimit    // the interpreter's recursion limit was reached
    | OutOfFuel         // the model's iteration bound ran out where the Python loop would go on

  datatype Result<+T> = Ok(value: T) | Err(error: Error)
}
