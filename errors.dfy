/**
 * The five error builders of errors.py. Each returns the JSON envelope
 * `{success: false, error: <status>, message: <message>}` together with the
 * HTTP status. A `NotFound` exception passed to the unauthorized, forbidden
 * or not-found builder is replaced by its string form; every other argument
 * becomes the message as it is.
 */
module Errors {

  /** What a caller passes as `error`: a message text, or a werkzeug `NotFound` exception. */
  datatype ErrorArg = Text(text: string) | NotFoundException(description: string)

  datatype Envelope = Envelope(success: bool, error: int, message: ErrorArg)

  /** The `(jsonify(envelope), status)` pair a builder returns. */
  datatype ErrorReply = ErrorReply(body: Envelope, status: int)

  /** The five builders, as one kind per function of errors.py. */
  datatype ErrorKind = BadRequest | Unauthorized | Forbidden | NotFound | ServerError

  /** `str(e)`: werkzeug renders an HTTP exception as "<code> <name>: <description>". */
  function StringOf(e: ErrorArg): (s: string)
    ensures e.Text? ==> s == e.text
    ensures e.NotFoundException? ==>
      |s| == |"404 Not Found: "| + |e.description|
      && s[..|"404 Not Found: "|] == "404 Not Found: " && s[|"404 Not Found: "|..] == e.description
  {
    match e
    case Text(s) => s
    case NotFoundException(d) => "404 Not Found: " + d
  }

  /** An error body never reports success, and its `error` field repeats the HTTP status. */
  predicate WellFormed(r: ErrorReply) {
    !r.body.success && r.body.error == r.status
  }

  /** `message` is `str(error)` for a NotFound exception and `error` itself otherwise. */
  function Stringified(error: ErrorArg): (m: ErrorArg)
    ensures m.Text? && StringOf(m) == StringOf(error)
    ensures error.Text? ==> m == error
  {
    if error.NotFoundException? then Text(StringOf(error)) else error
  }

  function BadRequestError(error: ErrorArg := Text("Bad request")): (r: ErrorReply)
    ensures WellFormed(r) && r.status == 400
    ensures r.body.message == error
  {
    ErrorReply(Envelope(false, 400, error), 400)
  }

  function UnauthorizedError(error: ErrorArg := Text("Unauthorized")): (r: ErrorReply)
    ensures WellFormed(r) && r.status == 401
    ensures r.body.message.Text? && StringOf(r.body.message) == StringOf(error)
    ensures !error.NotFoundException? ==> r.body.message == error
  {
    if error.NotFoundException? then ErrorReply(Envelope(false, 401, Text(StringOf(error))), 401)
    else ErrorReply(Envelope(false, 401, error), 401)
  }

  function ForbiddenError(error: ErrorArg := Text("Forbidden")): (r: ErrorReply)
    ensures WellFormed(r) && r.status == 403
    ensures r.body.message.Text? && StringOf(r.body.message) == StringOf(error)
    ensures !error.NotFoundException? ==> r.body.message == error
  {
    if error.NotFoundException? then ErrorReply(Envelope(false, 403, Text(StringOf(error))), 403)
    else ErrorReply(Envelope(false, 403, error), 403)
  }

  function NotFoundError(error: ErrorArg := Text("Resource not found")): (r: ErrorReply)
    ensures WellFormed(r) && r.status == 404
    ensures r.body.message.Text? && StringOf(r.body.message) == StringOf(error)
    ensures !error.NotFoundException? ==> r.body.message == error
  {
    if error.NotFoundException? then ErrorReply(Envelope(false, 404, Text(StringOf(error))), 404)
    else ErrorReply(Envelope(false, 404, error), 404)
  }

  function ServerError(error: ErrorArg := Text("Server Error")): (r: ErrorReply)
    ensures WellFormed(r) && r.status == 500
    ensures r.body.message == error
  {
    ErrorReply(Envelope(false, 500, error), 500)
  }

  /** Calls the builder of a kind. */
  function Build(kind: ErrorKind, error: ErrorArg): ErrorReply {
    match kind
    case BadRequest => BadRequestError(error)
    case Unauthorized => UnauthorizedError(error)
    case Forbidden => ForbiddenError(error)
    case NotFound => NotFoundError(error)
    case ServerError => ServerError(error)
  }

  /** Calls the builder of a kind without an argument, so that its default message applies. */
  function BuildDefault(kind: ErrorKind): ErrorReply {
    match kind
    case BadRequest => BadRequestError()
    case Unauthorized => UnauthorizedError()
    case Forbidden => ForbiddenError()
    case NotFound => NotFoundError()
    case ServerError => ServerError()
  }

  /** The status table of errors.py. */
  function StatusCode(kind: ErrorKind): int {
    match kind
    case BadRequest => 400
    case Unauthorized => 401
    case Forbidden => 403
    case NotFound => 404
    case ServerError => 500
  }

  /** The default message of each builder. */
  function DefaultMessage(kind: ErrorKind): string {
    match kind
    case BadRequest => "Bad request"
    case Unauthorized => "Unauthorized"
    case Forbidden => "Forbidden"
    case NotFound => "Resource not found"
    case ServerError => "Server Error"
  }

  /** Only the unauthorized, forbidden and not-found builders stringify a NotFound exception. */
  predicate Stringifies(kind: ErrorKind) {
    kind == Unauthorized || kind == Forbidden || kind == NotFound
  }

  /**
   * Every builder, for every argument: the body is a failure whose `error`
   * is the status of its kind, and the message is the argument, stringified
   * exactly for the three builders that test for NotFound.
   */
  lemma BuildContract(kind: ErrorKind, error: ErrorArg)
    ensures WellFormed(Build(kind, error))
    ensures Build(kind, error).status == StatusCode(kind)
    ensures Build(kind, error).body.message == if Stringifies(kind) then Stringified(error) else error
  {
  }

  /** Without an argument, each builder reports its kind's status and default message. */
  lemma DefaultContract(kind: ErrorKind)
    ensures WellFormed(BuildDefault(kind))
    ensures BuildDefault(kind).status == StatusCode(kind)
    ensures BuildDefault(kind).body.message == Text(DefaultMessage(kind))
  {
  }

  /** Distinct kinds give distinct statuses, so the status alone tells which builder answered. */
  lemma StatusIdentifiesKind(k1: ErrorKind, k2: ErrorKind)
    ensures StatusCode(k1) == StatusCode(k2) ==> k1 == k2
  {
  }
}
