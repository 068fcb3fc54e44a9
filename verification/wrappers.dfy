/** Optional values, and results that carry what the client raises. */
module Wrappers {

  datatype Option<+T> = None | Some(value: T)

  /** The exceptions the modelled code raises. */
  datatype Error =
    | ValueError
    | TypeError
    | TimedOut
    | ConnectionError
    | CommandFailed(command: string, reply: string)

  datatype Result<+T> = Ok(value: T) | Err(error: Error)

  /** How a call failed, if it did. */
  function ErrorOf<T>(r: Result<T>): Option<Error> {
    if r.Ok? then None else Some(r.error)
  }
}
