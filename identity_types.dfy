/** Values shared by every part of the identity-verification registry. */
module IdentityTypes {

  /** A principal is an opaque identity string (an address). */
  type Principal = string

  /** The three failure kinds. The first mock reports them as numbers,
      the second as symbolic names; both encodings are kept below. */
  datatype Error = Unauthorized | AlreadyVerified | NotFound

  /** Numeric code used by the first mock (100, 101, 102). */
  function Code(e: Error): (code: nat)
  {
    match e
    case Unauthorized => 100
    case AlreadyVerified => 101
    case NotFound => 102
  }

  /** Symbolic name used by the second mock. */
  function Name(e: Error): (name: string)
  {
    match e
    case Unauthorized => "ERR_UNAUTHORIZED"
    case AlreadyVerified => "ERR_ALREADY_VERIFIED"
    case NotFound => "ERR_NOT_FOUND"
  }

  /** The outcome of every state-changing call: success (`{ value: true }`,
      `{ ok: true }`) or one error. */
  datatype Response = Ok | Fail(error: Error)

  /** One audit-log record: its position in the log, the user and the action code. */
  datatype HistoryEntry = HistoryEntry(index: nat, user: Principal, action: int)
}
