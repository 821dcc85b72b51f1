/** Small failure-carrying datatypes shared by the backend and the client models. */
module Wrappers {

  /** A value that may be missing (Python `None`, JavaScript `null`/`undefined`). */
  datatype Option<+T> = None | Some(value: T) {
    function GetOr(default: T): T {
      match this
      case Some(v) => v
      case None => default
    }
  }

  /** How a client-side promise settles: resolved with a value, or rejected with
      an `Error` whose `message` is given. */
  datatype Reply<+T> = Resolved(value: T) | Rejected(message: string)

  /** `err.message || fallback`: the empty message is falsy. */
  function MessageOr(message: string, fallback: string): string {
    if message != "" then message else fallback
  }
}
