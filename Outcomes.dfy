/** The one error the engine raises, and the result types its public operations return. */
module Outcomes {

  /** Java's IllegalArgumentException, with the message the engine attaches to it. */
  datatype Error = IllegalArgument(message: string)

  /** Message of the exception thrown by the constructor for a side length below 1. */
  const SideNumberMessage: string := "n must match n >= 1"

  /** Message of the exception thrown for a row or column outside [1, n]. */
  const RowAndColMessage: string := "The input for row and col must be between 1 and n inclusive."

  /** The value of a query, or the exception it throws. */
  datatype Result<+T> = Ok(value: T) | Err(error: Error)

  /** Normal completion of a command that returns nothing, or the exception it throws. */
  datatype Outcome = Pass | Fail(error: Error)
}
