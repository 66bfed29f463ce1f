/** Option, Result and Outcome, plus the error conditions of the storage core. */
module Wrappers {

  datatype Option<+T> = None | Some(value: T)

  datatype Result<+T, +E> = Success(value: T) | Failure(error: E)

  datatype Outcome<+E> = Pass | Fail(error: E)

  /**
   * The failures the core reports or runs into. The first four are the
   * `BabuDBException` error codes used by the core; the rest are the Java
   * runtime exceptions that the modelled code lets escape or catches.
   */
  datatype Error =
    | IoError
    | NoSuchDb
    | NoSuchIndex
    | InternalError
    | DifferentLsns        // "databases have different LSNs!" at startup
    | IllegalState         // Matcher.group after a failed match
    | NumberFormat         // Integer.valueOf on a number outside 32 bits
    | IndexOutOfBounds     // List.get / array access outside the bounds
    | NoSuchElement        // Iterator.next past the end
    | UnsupportedOperation // Iterator.remove
    | NullPointer          // a null block reader is dereferenced
    | Arithmetic           // remainder by zero
    | IllegalArgument      // an ArrayList created with a negative capacity
}
