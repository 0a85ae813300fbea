/**
 * Option and Result values standing in for Java's Optional/null and for the
 * exceptions the modelled code throws.
 */
module Wrappers {

  datatype Option<T> = None | Some(value: T)
  {
    function GetOr(default: T): T
    {
      match this
      case None => default
      case Some(v) => v
    }
  }

  /** The Java exception classes the modelled code raises. */
  datatype Error =
    | IllegalArgument   // IllegalArgumentException, NumberFormatException
    | IllegalState      // IllegalStateException (Guava checkState)
    | NoSuchElement     // Optional.get on an empty Optional
    | NullPointer       // NullPointerException (a required value never set)
    | IndexOutOfBounds  // ArrayIndexOutOfBoundsException
    | Unsupported       // a plain RuntimeException for an unsupported type
    | Parsing           // the runner's ParsingException

  datatype Result<T> = Ok(value: T) | Fail(error: Error)
}
