/** The error classes of the backend (an `ExpressError` base class carrying
    a message and an HTTP status, and four subclasses with fixed statuses
    and default messages), the HTTP status the error handler answers with,
    and the result type every model operation returns. */
module Errors {
  import opened Optional

  /** The class an error was constructed from. `Unhandled` stands for any
      exception that is not an ExpressError: one raised by the database or by
      the password-hashing library. */
  datatype ErrKind = Express | NotFound | Unauthorized | BadRequest | Forbidden | Unhandled

  /** An error value: its class, its `message` and its `status` property
      (0 when the object has none, as for a plain JavaScript Error). */
  datatype Error = Error(kind: ErrKind, message: string, status: int)

  /** `new ExpressError(message, status)`. */
  function ExpressError(message: string, status: int): (e: Error)
    ensures e.kind == Express && e.message == message && e.status == status
  {
    Error(Express, message, status)
  }

  /** The message a subclass constructor uses: the one given, or its default
      when the argument is `undefined`. */
  function MessageOr(message: Option<string>, default: string): string {
    message.GetOr(default)
  }

  function NotFoundError(message: Option<string>): (e: Error)
    ensures e.kind == NotFound && e.status == 404
    ensures message.None? ==> e.message == "Not Found"
    ensures message.Some? ==> e.message == message.value
  {
    Error(NotFound, MessageOr(message, "Not Found"), 404)
  }

  function UnauthorizedError(message: Option<string>): (e: Error)
    ensures e.kind == Unauthorized && e.status == 401
    ensures message.None? ==> e.message == "Unauthorized"
    ensures message.Some? ==> e.message == message.value
  {
    Error(Unauthorized, MessageOr(message, "Unauthorized"), 401)
  }

  function BadRequestError(message: Option<string>): (e: Error)
    ensures e.kind == BadRequest && e.status == 400
    ensures message.None? ==> e.message == "Bad Request"
    ensures message.Some? ==> e.message == message.value
  {
    Error(BadRequest, MessageOr(message, "Bad Request"), 400)
  }

  function ForbiddenError(message: Option<string>): (e: Error)
    ensures e.kind == Forbidden && e.status == 403
    ensures message.None? ==> e.message == "Forbidden"
    ensures message.Some? ==> e.message == message.value
  {
    Error(Forbidden, MessageOr(message, "Forbidden"), 403)
  }

  /** An exception that is not an ExpressError; it has no status property. */
  function UnhandledError(message: string): (e: Error)
    ensures e.kind == Unhandled && e.status == 0
  {
    Error(Unhandled, message, 0)
  }

  /** The status the catch-all handler answers with: the error's own status,
      or 500 when it has none (`err.status || 500`). */
  function HttpStatus(e: Error): (s: int)
    ensures e.status != 0 ==> s == e.status
    ensures e.status == 0 ==> s == 500
  {
    if e.status != 0 then e.status else 500
  }

  /** Errors built by the constructors above: the subclasses always carry
      their own status, and unhandled ones have none. */
  predicate Constructed(e: Error) {
    match e.kind
    case Express => true
    case NotFound => e.status == 404
    case Unauthorized => e.status == 401
    case BadRequest => e.status == 400
    case Forbidden => e.status == 403
    case Unhandled => e.status == 0
  }

  /** For every subclass error and every unhandled error, the HTTP status
      alone tells which class it was: the four statuses and 500 differ. */
  lemma StatusIdentifiesKind(e1: Error, e2: Error)
    requires Constructed(e1) && Constructed(e2)
    requires e1.kind != Express && e2.kind != Express
    ensures HttpStatus(e1) == HttpStatus(e2) <==> e1.kind == e2.kind
  {
  }

  /** The outcome of a model operation: a value, or the error it throws. */
  datatype Result<+T> = Ok(value: T) | Err(error: Error) {

    predicate IsFailure() {
      Err?
    }

    function PropagateFailure<U>(): Result<U>
      requires Err?
    {
      Err(error)
    }

    function Extract(): T
      requires Ok?
    {
      value
    }

    /** The operation failed with an error of class `k`. */
    predicate FailsWith(k: ErrKind) {
      Err? && error.kind == k
    }
  }
}
