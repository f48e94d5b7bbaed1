/** The exceptions the Ruby toolkit raises, and the wrappers used to return them. */
module Errors {

  datatype Option<+T> = None | Some(value: T)

  /** A Ruby exception, by class, as far as the toolkit distinguishes them. */
  datatype RubyError =
    | ArgumentError(message: string)
    | NoMethodError(name: string)
    | ZeroDivisionError
    | IndexError(index: int)

  /** Either the value a Ruby call returns or the exception it raises. */
  datatype Result<+T> = Ok(value: T) | Err(error: RubyError)
}
