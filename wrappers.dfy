/** Option and Result, the values that stand for Python's `None` and for the
    `{"error": message}` dictionaries that the store decorator returns. */
module Wrappers {

  datatype Option<+T> = None | Some(value: T)

  /** Outcome of a store call: `Err` carries the message of the caught exception. */
  datatype Result<+T> = Ok(value: T) | Err(message: string)
}
