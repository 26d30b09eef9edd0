/** The error values and the result type shared by every component. */
module Wrappers {

  datatype Option<+T> = None | Some(value: T)

  /** The errors that the modelled operations return (error messages are dropped). */
  datatype BufferError =
    | PositionOutOfBounds
    | IncrementTooLarge
    | SizeTooBig
    | BufferOverflow
    | InvalidState
    | InsufficientSpace
    | InvalidString

  datatype Result<+T> = Ok(value: T) | Err(error: BufferError)
}
