/** Failure-carrying values used wherever the Go program either aborts
    (os.Exit, a runtime panic) or blocks forever on a channel. */
module Wrappers {

  /** The result of a parser: a value, or nothing when the text is malformed. */
  datatype Option<+T> = None | Some(value: T)

  /** A computed value, or the fault that stops the program before it gets one. */
  datatype Result<+T, +E> = Success(value: T) | Failure(error: E)
}
