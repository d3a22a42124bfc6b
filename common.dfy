/** Failure-compatible wrappers shared by every module of the model. */
module Common {

  /** An optional value: a JavaScript `undefined`/`null` or a present value. */
  datatype Option<+T> = None | Some(value: T) {
    function GetOr(default: T): T {
      match this
      case Some(v) => v
      case None => default
    }
  }

  /** The outcome of an operation that can throw: its value, or the error it raised. */
  datatype Result<+T, +E> = Success(value: T) | Failure(error: E)

  /** An optional value as a list of zero or one values (a failing
      validator's message, or none). */
  function Listed<T>(e: Option<T>): (l: seq<T>)
    ensures l == [] <==> e.None?
  {
    if e.Some? then [e.value] else []
  }
}
