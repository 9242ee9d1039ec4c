/** Shared vocabulary of the TaskHub model: identifiers, instants, optional
    values and the outcomes of the server's request handlers. */
module Common {

  /** A document or sub-document identifier (a MongoDB ObjectId). */
  type Id = nat

  /** An instant, in milliseconds since the epoch. */
  type Time = int

  /** Milliseconds in one day. */
  const DayMs: int := 86_400_000

  datatype Option<+T> = None | Some(value: T) {
    /** The value, or `default` when there is none (JavaScript's `a || b` on a present/absent field). */
    function GetOr(default: T): T {
      match this
      case Some(v) => v
      case None => default
    }
  }

  /** Why a request handler refused; `Status` gives the HTTP status it answers with. */
  datatype Error =
    | MissingField       // a required body field is absent or empty
    | UserExists         // registration with a login already taken
    | BadCredentials     // login with an unknown login or a wrong password
    | UserNotFound
    | ProjectNotFound
    | GroupNotFound
    | ColumnNotFound
    | NotMember          // the caller is not among the project's members
    | SaveFailed         // the document failed schema validation on save

  function Status(e: Error): int {
    match e
    case MissingField | UserExists | BadCredentials => 400
    case NotMember => 403
    case UserNotFound | ProjectNotFound | GroupNotFound | ColumnNotFound => 404
    case SaveFailed => 500
  }

  datatype Result<+T> = Ok(value: T) | Err(error: Error)

  /** Midnight at the start of the day holding `t` (`setHours(0, 0, 0, 0)`),
      with days counted from the epoch. */
  function StartOfDay(t: Time): (d: Time)
    ensures d <= t < d + DayMs
    ensures d % DayMs == 0
  {
    t - t % DayMs
  }

  /** A day start is its own day start: the creation stamp of a group or a
      project carries no time of day. */
  lemma StartOfDayIdempotent(t: Time)
    ensures StartOfDay(StartOfDay(t)) == StartOfDay(t)
  {
    var d := StartOfDay(t);
    assert d % DayMs == 0;
  }
}
