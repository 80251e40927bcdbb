/**
 Option and Outcome types shared by the whole model. The runtime reports
 failures by raising Python exceptions; an `Outcome` carries the class of the
 exception instead (the message text is not modelled).
 */
module Wrappers {

  datatype Option<T> = None | Some(value: T)
  {
    predicate IsSome() { this.Some? }

    function GetOr(default: T): T
    {
      match this
      case None => default
      case Some(v) => v
    }
  }

  /** The exception classes the modelled code raises. */
  datatype Exc =
    | ValueError
    | KeyError
    | IndexError
    | TypeError
    | AttributeError
    | OSError
    | ModelRetry
    | EditMismatchError
    | CancelledError

  datatype Outcome<T> = Ok(value: T) | Fail(exc: Exc)
  {
    predicate IsOk() { this.Ok? }
  }
}
