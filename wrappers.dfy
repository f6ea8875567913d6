/** Option, Result and Outcome: the null references and thrown exceptions of the
    C# program, made explicit. */
module Wrappers {

  datatype Option<+T> = None | Some(value: T) {
    function GetOr(default: T): T {
      match this
      case Some(v) => v
      case None => default
    }
  }

  datatype Result<+R, +E> = Success(value: R) | Failure(error: E)

  /** A step that either completes or throws. */
  datatype Outcome<+E> = Pass | Fail(error: E)
}

/** The .NET exception kinds the generator throws or lets through, each with
    the message it carries. */
module Exceptions {

  datatype Error =
    | DirectoryNotFound(message: string)    // System.IO.DirectoryNotFoundException
    | FileNotFound(message: string)         // System.IO.FileNotFoundException
    | InvalidOperation(message: string)     // System.InvalidOperationException
    | NullReference                         // a member access on a null reference
    | ArgumentNull                          // System.ArgumentNullException: a null name given to Path.Combine
    | IOFailure(message: string)            // System.IO.IOException
    | ConverterFault                        // whatever the markdown converter throws
}
