/** Failure-carrying result types used across the model. */
module Wrappers {

  /** Python's `None` versus a present value. */
  datatype Option<+T> = None | Some(value: T)

  /** A computation that either returns a value or raises an exception that is
      not caught inside the modelled function. */
  datatype Result<+T> = Ok(value: T) | Err(error: Error)

  /** The exception a modelled Python function lets escape. */
  datatype Error =
    | ValueError      // a conversion or a date constructor refused its input
    | KeyError        // a dictionary or DataFrame lookup found no such key/column
    | IndexError      // a list index out of range
    | TypeError       // a value of the wrong type reached the operation
    | RuntimeError    // the page lacked the table the scraper needs
    | OverflowError   // an integer did not fit the C `int` a date constructor takes
    | InvalidOperation  // `decimal` arithmetic refused an infinite operand
    | AttributeError  // a method such as `str.replace` looked up on a number
    | PlainException  // a bare `raise Exception(...)`
}
