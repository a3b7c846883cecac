/** Failure-carrying result types shared by every module of the model. */
module Wrappers {

  datatype Option<+T> = None | Some(value: T)

  /** A C++ call that either returns a value or throws. */
  datatype Result<+T, +E> = Success(value: T) | Failure(error: E)

  /**
   * The standard exceptions the program throws and catches, by their most
   * derived type. `Exception` is a bare `std::exception`; a runtime error
   * keeps the message it was constructed with.
   */
  datatype StdError = InvalidArgument | OutOfRange | RuntimeError(message: string) | Exception
}
