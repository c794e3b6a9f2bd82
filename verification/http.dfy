/**
 * The HTTP exchange as the clients see it. The transport itself is not modelled:
 * a request is a value, and the server is a function from requests to responses
 * that the operations receive as a parameter.
 */
module Http {
  import opened Opt
  import opened Text
  import JsonValues
  import Query

  datatype Method = Get | Put | Post | Delete

  /**
   * Reading a response body as text: the text, or a read that did not finish within
   * the 3000 ms an exception constructor waits, or a read that threw.
   */
  datatype BodyRead = Read(text: string) | TimedOut | ReadFailed

  /**
   * A response: the numeric status, the reason phrase, the `Location` header, the
   * body as text, and the document `JObject.Parse` makes of that text (None when the
   * body cannot be read or is not a JSON object).
   */
  datatype Response = Response(
    status: int,
    reason: string,
    location: Option<string>,
    body: BodyRead,
    json: Option<JsonValues.JObject>)

  /** Where a request goes: a target built by `prepareUrl`, a `Location` taken from a redirect, or raw text. */
  datatype Target =
    | Prepared(url: Query.Url)
    | Redirected(location: string)
    | RawText(text: string)

  /**
   * A request: method (verb), target, whether the body content is attached (only for a
   * non-GET request that has content), and whether redirects are followed
   * automatically (not for the first phase of a write).
   */
  datatype Request = Request(verb: Method, target: Target, withContent: bool, followRedirects: bool)

  /** The query a request carries when its target was built by `prepareUrl`. */
  function QueryOf(req: Request): seq<Query.Pair> {
    if req.target.Prepared? then req.target.url.query else []
  }

  /** The server, as seen from one call: every request gets a response. */
  type Server = Request -> Response

  /** `HttpResponseMessage.IsSuccessStatusCode`. */
  predicate IsSuccess(status: int) {
    200 <= status <= 299
  }

  /** The request `getResponseMessageAsync` sends: the content rides along only on a non-GET request. */
  function Exchange(verb: Method, target: Target, hasContent: bool): (r: Request)
    ensures r.verb == verb && r.target == target && r.followRedirects
    ensures r.withContent <==> verb != Get && hasContent
  {
    Request(verb, target, verb != Get && hasContent, true)
  }

  /**
   * `HttpStatusCode.ToString()`: the enum member's name for a defined code, the decimal
   * number otherwise. For the five codes that carry two names, the second is used.
   */
  function StatusText(code: int): (r: string)
    ensures |r| >= 1
  {
    match code
    case 100 => "Continue"
    case 101 => "SwitchingProtocols"
    case 200 => "OK"
    case 201 => "Created"
    case 202 => "Accepted"
    case 203 => "NonAuthoritativeInformation"
    case 204 => "NoContent"
    case 205 => "ResetContent"
    case 206 => "PartialContent"
    case 300 => "MultipleChoices"
    case 301 => "MovedPermanently"
    case 302 => "Redirect"
    case 303 => "SeeOther"
    case 304 => "NotModified"
    case 305 => "UseProxy"
    case 306 => "Unused"
    case 307 => "TemporaryRedirect"
    case 400 => "BadRequest"
    case 401 => "Unauthorized"
    case 402 => "PaymentRequired"
    case 403 => "Forbidden"
    case 404 => "NotFound"
    case 405 => "MethodNotAllowed"
    case 406 => "NotAcceptable"
    case 407 => "ProxyAuthenticationRequired"
    case 408 => "RequestTimeout"
    case 409 => "Conflict"
    case 410 => "Gone"
    case 411 => "LengthRequired"
    case 412 => "PreconditionFailed"
    case 413 => "RequestEntityTooLarge"
    case 414 => "RequestUriTooLong"
    case 415 => "UnsupportedMediaType"
    case 416 => "RequestedRangeNotSatisfiable"
    case 417 => "ExpectationFailed"
    case 426 => "UpgradeRequired"
    case 500 => "InternalServerError"
    case 501 => "NotImplemented"
    case 502 => "BadGateway"
    case 503 => "ServiceUnavailable"
    case 504 => "GatewayTimeout"
    case 505 => "HttpVersionNotSupported"
    case _ => IntToString(code)
  }
}
