/** Option and Result values used for the source's nil returns and error returns. */
module Wrappers {

  datatype Option<T> = None | Some(value: T)
  {
    predicate IsSome() { Some? }

    function GetOr(default: T): T
    {
      match this
      case None => default
      case Some(v) => v
    }
  }

  /** A Go `(value, error)` pair: either a value or the error's message. */
  datatype Result<T> = Ok(value: T) | Err(msg: string)
  {
    predicate IsOk() { Ok? }
  }

  /** A Go call that returns only an `error`. */
  datatype Status = Success | Failure(msg: string)
  {
    predicate IsSuccess() { Success? }
  }
}
