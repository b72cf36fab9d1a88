/** Value types shared by the server handlers and the client state code. */
module Common {

  datatype Option<+T> = None | Some(value: T) {
    function GetOr(default: T): T {
      match this
      case Some(v) => v
      case None => default
    }
  }

  /** The outcome of a server handler: the status and body of a success
      reply, or the status and `{error: ...}` text of a failure reply. */
  datatype Result<+T> = Ok(status: nat, value: T) | Err(status: nat, error: string)

  /** How a call into the Firebase SDK ended: its value, or the message of
      the error it threw. */
  datatype Fallible<+T> = Done(value: T) | Failed(message: string)

  /** A JSON request-body field as the handlers see it after parsing:
      the source tests its JavaScript type, so the type is kept. */
  datatype JsonValue =
    | Missing
    | JNull
    | JBool(b: bool)
    | JNum(n: int)
    | JStr(s: string)

  /** JavaScript truthiness of a JSON value. */
  predicate Truthy(v: JsonValue) {
    match v
    case Missing => false
    case JNull => false
    case JBool(b) => b
    case JNum(n) => n != 0
    case JStr(s) => s != ""
  }

  /** A value a client `catch` block receives: an `Error` object or anything else. */
  datatype Thrown = ErrorObject(message: string) | OtherValue

  /** `err instanceof Error ? err.message : fallback` */
  function ErrorText(t: Thrown, fallback: string): (r: string)
    ensures t.ErrorObject? ==> r == t.message
    ensures t.OtherValue? ==> r == fallback
  {
    match t
    case ErrorObject(m) => m
    case OtherValue => fallback
  }

  /** How an awaited client call ended. */
  datatype Outcome<+T> = Resolved(value: T) | Rejected(thrown: Thrown)
}
