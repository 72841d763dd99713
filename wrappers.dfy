/** Option and Result values standing for Java's null references and for the
    dialogs through which the application refuses an input. */
module Wrappers {

  datatype Option<+T> = None | Some(value: T)

  datatype Result<+R, +E> = Success(value: R) | Failure(error: E)
}
