/** Failure-compatible result types.  Every exception that the C# reader,
    loader and parser code can raise is one `Error` value, so an operation
    that throws in the original returns `Err(...)` here. */
module Wrappers {

  /** The exceptions raised by the original code, by .NET type. */
  datatype Error =
    | EndOfStream            // EndOfStreamException: a BinaryReader.ReadXxx past the end
    | NegativeSeek           // IOException: Seek to a position before the start
    | ArgumentOutOfRange     // ArgumentOutOfRangeException: negative count, Substring on ""
    | Overflow               // OverflowException: array allocated with a negative size
    | IndexOutOfRange        // IndexOutOfRangeException: array index outside its bounds
    | BraceMismatch(level: int)  // ArgumentException thrown by EntityParser.Parse
    | InvalidData            // InvalidDataException: bad WAD magic
    | FileNotFound           // FileNotFoundException
    | InvalidParameter       // ArgumentException: a Bitmap with a side that is not positive

  datatype Option<+T> = None | Some(value: T)

  datatype Result<+T> = Ok(value: T) | Err(error: Error) {
    predicate IsFailure() { Err? }

    function PropagateFailure<U>(): Result<U>
      requires Err?
    {
      Err(error)
    }

    function Extract(): T
      requires Ok?
    {
      value
    }
  }

  /** A result that carries no value: success, or the exception raised. */
  datatype Outcome = Pass | Fail(error: Error) {
    predicate IsFailure() { Fail? }

    function PropagateFailure<U>(): Result<U>
      requires Fail?
    {
      Err(error)
    }
  }
}
