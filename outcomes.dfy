/** Failure-carrying results and the .NET exceptions the library raises. */
module Outcomes {

  datatype Option<+T> = None | Some(value: T)

  datatype Result<+R, +E> = Success(value: R) | Failure(error: E)

  /** One constructor per exception type the modelled code throws. */
  datatype Error =
    | ArgumentError          // System.ArgumentException
    | ArgumentNull           // System.ArgumentNullException
    | ArgumentOutOfRange     // System.ArgumentOutOfRangeException
    | InvalidOperation       // System.InvalidOperationException
    | FormatError            // System.FormatException
    | OverflowError          // System.OverflowException
    | IndexOutOfRange        // System.IndexOutOfRangeException
    | FileNotFound           // System.IO.FileNotFoundException
    | DirectoryNotFound      // System.IO.DirectoryNotFoundException
    | IOError                // System.IO.IOException
}
