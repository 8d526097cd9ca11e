/** The two wrappers the modules share. */
module Wrappers {

  datatype Option<+T> = None | Some(value: T)

  // What a service call comes to: a value, or the error it raises.
  datatype Outcome<+T> = Ok(value: T) | Refused(error: Error)

  // `Constraint` is the database refusing a row: the request fails and nothing is written.
  datatype Error = NotFound | Conflict | ValidationFailed | Constraint
}
