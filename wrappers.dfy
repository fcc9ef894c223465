/** Option and Outcome values used for lookups that can miss and for the
    fatal error exits of the library (a fatal exit ends the process, so
    nothing after it is modelled). */
module Wrappers {

  datatype Option<+T> = None | Some(value: T)

  /** Why the library terminated the process. */
  datatype Fatal =
    | CannotOpenFile
    | CannotSeek
    | ShortRead
    | RemoteReadFailure
    | RemoteWriteFailure
    | InvalidGameVersion

  datatype Outcome = Pass | Fail(error: Fatal)

  datatype Result<+T> = Ok(value: T) | Err(error: Fatal)
}
