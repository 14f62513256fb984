/**
 * The exception handler: turns any thrown failure into a JSON response. An
 * instance of the bad-request exception (or a subclass) gives status 400, of
 * the not-found exception 404, anything else 500; the body names the
 * failure's code, class and message, and the only header is
 * `Content-Type: application/json`.
 */
module ExceptionHandler {
  import opened Wrappers
  import opened Failures
  import P = Parameters
  import Responses
  import Json

  const JsonContentType := "application/json"

  /** `determineStatusCode`: the first matching arm wins; the two families are disjoint. */
  function StatusCode(f: Failure): (code: int)
    ensures code == 400 <==> f.family == BadRequest
    ensures code == 404 <==> f.family == NotFound
    ensures code == 500 <==> f.family == Unrelated
  {
    match f.family
    case BadRequest => 400
    case NotFound => 404
    case Unrelated => 500
  }

  /** `createErrorMessage`: the JSON text of code, class name and message. */
  function ErrorMessage(f: Failure): (body: string)
    ensures Json.ParseErrorBody(body) == Some((f.code, f.className, f.message))
  {
    Json.ErrorBodyRoundTrip(f.code, f.className, f.message);
    Json.ErrorBody(f.code, f.className, f.message)
  }

  /** `handle`. */
  function Handle(f: Failure): (r: Responses.Response)
    ensures Responses.Valid(r)
    ensures r.statusCode == StatusCode(f)
    ensures Json.ParseErrorBody(r.content) == Some((f.code, f.className, f.message))
    ensures P.All(r.headers) == [("Content-Type", JsonContentType)]
  {
    Responses.Create(ErrorMessage(f), StatusCode(f), [("Content-Type", JsonContentType)])
  }

  // ---------------------------------------------------------------------------
  // Properties
  // ---------------------------------------------------------------------------

  /** The status depends on the failure's family only, never on its code or message. */
  lemma StatusIgnoresCodeAndMessage(f: Failure, g: Failure)
    requires f.family == g.family
    ensures Handle(f).statusCode == Handle(g).statusCode
  {
  }

  /** An error response is always a client or server error. */
  lemma StatusIsAnError(f: Failure)
    ensures 400 <= Handle(f).statusCode < 600
  {
  }

  /** The response announces JSON, and its body identifies the failure it came from. */
  lemma ResponseIdentifiesFailure(f: Failure, g: Failure)
    requires Handle(f).content == Handle(g).content
    ensures f.code == g.code && f.className == g.className && f.message == g.message
    ensures Responses.GetHeader(Handle(f), "Content-Type") == Some(JsonContentType)
  {
    Json.ErrorBodyInjective(f.code, f.className, f.message, g.code, g.className, g.message);
  }

  /** The component's own exceptions map to their statuses; a `RuntimeException` or a `TypeError` to 500. */
  lemma KnownFailures(msg: string)
    ensures Handle(BadRequestException(msg)).statusCode == 400
    ensures Handle(NotFoundException(msg)).statusCode == 404
    ensures Handle(RuntimeException(msg)).statusCode == 500
    ensures Handle(InvalidArgumentException(msg)).statusCode == 500
    ensures Handle(TypeError(msg)).statusCode == 500
  {
  }
}
