/** Java's exceptional outcomes, as values. */
module Wrappers {

  /** The exceptions the modelled code throws (by class). */
  datatype Exception =
    | IllegalState            // java.lang.IllegalStateException
    | IllegalArgument         // java.lang.IllegalArgumentException
    | Arithmetic              // java.lang.ArithmeticException
    | NullPointer             // java.lang.NullPointerException
    | ClassCast               // java.lang.ClassCastException
    | IndexOutOfBounds        // java.lang.(Array)IndexOutOfBoundsException
    | StringIndexOutOfBounds  // java.lang.StringIndexOutOfBoundsException
    | NoChar                  // the plain RuntimeException("No char!") of getChar

  /** A value, or the exception that was thrown instead. */
  datatype Result<+T> = Ok(value: T) | Err(error: Exception)

  /** A possibly-null Java reference to a T. */
  datatype Option<+T> = None | Some(value: T)

  /** Completion of a void (or `return this`) Java call. */
  datatype Outcome = Pass | Fail(error: Exception)
}
