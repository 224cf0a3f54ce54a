/** Option and Result types shared by the model.
    Option stands for a C# nullable reference; Result stands for a call that
    either returns a value or throws an exception carrying a message. */
module Wrappers {

  datatype Option<+T> = None | Some(value: T) {
    function GetOr(default: T): T {
      match this
      case Some(v) => v
      case None => default
    }
  }

  datatype Result<+T> = Success(value: T) | Failure(error: string)
}
