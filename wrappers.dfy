/** Failure-carrying result types shared by every module of the model. */
module Wrappers {

  /** A value that may be absent. */
  datatype Option<+T> = None | Some(value: T)

  /** The outcome of an operation that either yields a value or raises an error. */
  datatype Result<+T, +E> = Ok(value: T) | Err(error: E)

  /** The outcome of an operation that only changes state, or raises an error. */
  datatype Outcome<+E> = Pass | Fail(error: E)

  /** The exceptions the C++ source throws or lets escape: std::runtime_error and
      std::logic_error with the text their what() returns, and the library
      errors std::invalid_argument and std::out_of_range (std::stoi),
      std::length_error (std::vector::resize) and boost::bad_lexical_cast,
      whose library-chosen texts are not modelled. */
  datatype Exception =
    | RuntimeError(what: string)
    | LogicError(what: string)
    | InvalidArgument
    | OutOfRange
    | LengthError
    | BadLexicalCast
}
