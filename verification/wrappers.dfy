/** Option and the outcome of a call that may throw, as the source's
    `undefined`/`null` results and its `throw new Error(...)` are modelled. */
module Wrappers {

  datatype Option<+T> = None | Some(value: T) {
    function GetOr(default: T): T {
      match this
      case Some(v) => v
      case None => default
    }
  }

  /** A thrown value: `isError` records whether it is an instance of
      JavaScript's `Error`, `message` its message. */
  datatype Thrown = Thrown(isError: bool, message: string)

  /** What an awaited call produced: a value, or a thrown value. */
  datatype Outcome<+T> = Returned(value: T) | Threw(error: Thrown)
}
