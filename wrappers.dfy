/** Option and Result values, used where the script tests a value for
    presence (`if (currentSuggestion)`) or throws an Error. */
module Wrappers {

  datatype Option<+T> = None | Some(value: T)

  /** The outcome of an operation that either yields a value or throws an
      Error carrying a message. */
  datatype Result<+T, +E> = Success(value: T) | Failure(error: E)
}
