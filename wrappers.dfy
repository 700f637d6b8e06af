/** Option and the `{ ok, data } | { ok, error }` result shape every server action returns. */
module Wrappers {

  datatype Option<+T> = None | Some(value: T)

  /** A server action's result; the error is the message shown to the caller. */
  datatype Result<+T> = Ok(data: T) | Err(error: string)
}
