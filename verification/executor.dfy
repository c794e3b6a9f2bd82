/**
 * `callWebHDFS` and `getResponseMessageAsync`: one request, a non-2xx status turned
 * into the client's exception, a 2xx body decoded into an entity; and the read
 * accessors' rule that a 404 means "not there".
 */
module Executor {
  import opened Opt
  import opened Http
  import opened Failures
  import opened JsonValues
  import Query

  const ParsingErrorMessage: string := "Result Json parsing error"

  /**
   * What `callWebHDFS` makes of its response: a non-2xx status fails with the generic
   * exception (response, no message); on a 2xx status, a body that is not a JSON object
   * or that the entity cannot decode fails with the parsing-error message.
   */
  function Interpret<T>(resp: Response, decode: JObject -> Option<T>): (r: Outcome<T>)
    ensures !IsSuccess(resp.status) ==> r == Err(Protocol(Some(resp), None))
    ensures IsSuccess(resp.status) && r.Err? ==> r.failure == Protocol(Some(resp), Some(ParsingErrorMessage))
    ensures r.Ok? <==> IsSuccess(resp.status) && resp.json.Some? && decode(resp.json.value).Some?
    ensures r.Ok? ==> r.value == decode(resp.json.value).value
  {
    if !IsSuccess(resp.status) then Err(Protocol(Some(resp), None))
    else match resp.json
      case Some(o) =>
        (match decode(o)
         case Some(v) => Ok(v)
         case None => Err(Protocol(Some(resp), Some(ParsingErrorMessage))))
      case None => Err(Protocol(Some(resp), Some(ParsingErrorMessage)))
  }

  /** `callWebHDFS(path, op, method, extras)`: exactly one request, with no content, to the prepared target. */
  function Call<T>(verb: Method, url: Query.Url, server: Server, decode: JObject -> Option<T>): (r: Run<T>)
    ensures |r.sent| == 1
    ensures r.sent[0].verb == verb && r.sent[0].target == Prepared(url)
    ensures !r.sent[0].withContent
    ensures r.outcome == Interpret(server(r.sent[0]), decode)
  {
    var req := Exchange(verb, Prepared(url), false);
    Run([req], Interpret(server(req), decode))
  }

  /** The read accessors' catch clause: a failure carrying a 404 response becomes null; all else passes through. */
  function OrNullOn404<T>(o: Outcome<T>): (r: Outcome<Option<T>>)
    ensures o.Ok? ==> r == Ok(Some(o.value))
    ensures o.Err? && IsNotFound(o.failure) ==> r == Ok(None)
    ensures o.Err? && !IsNotFound(o.failure) ==> r == Err(o.failure)
  {
    match o
    case Ok(v) => Ok(Some(v))
    case Err(f) => if IsNotFound(f) then Ok(None) else Err(f)
  }

  /** `ExistsAsync`'s reading: a decoded status means true, a 404 false, anything else propagates. */
  function ExistsFrom<T>(o: Outcome<T>): (r: Outcome<bool>)
    ensures o.Ok? ==> r == Ok(true)
    ensures o.Err? && IsNotFound(o.failure) ==> r == Ok(false)
    ensures o.Err? && !IsNotFound(o.failure) ==> r == Err(o.failure)
  {
    match o
    case Ok(_) => Ok(true)
    case Err(f) => if IsNotFound(f) then Ok(false) else Err(f)
  }

  /**
   * A read accessor: one `callWebHDFS` with its 404 turned into null. By the status of
   * its one response it is null on a 404, the entity on a decodable 2xx body, and
   * otherwise the failure `callWebHDFS` raised, which carries that response.
   */
  function ReadOrNull<T>(verb: Method, url: Query.Url, server: Server, decode: JObject -> Option<T>): (r: Run<Option<T>>)
    ensures |r.sent| == 1 && r.sent[0].verb == verb && r.sent[0].target == Prepared(url) && !r.sent[0].withContent
    ensures r.outcome == Ok(None) <==> server(r.sent[0]).status == 404
    ensures r.outcome.Ok? && r.outcome.value.Some? <==>
      IsSuccess(server(r.sent[0]).status) && server(r.sent[0]).json.Some? && decode(server(r.sent[0]).json.value).Some?
    ensures r.outcome.Ok? && r.outcome.value.Some? ==> r.outcome.value.value == decode(server(r.sent[0]).json.value).value
    ensures r.outcome.Err? ==>
      r.outcome.failure == Protocol(Some(server(r.sent[0])), if IsSuccess(server(r.sent[0]).status) then Some(ParsingErrorMessage) else None)
  {
    var c := Call(verb, url, server, decode);
    ReadAccessorOutcomes(server(c.sent[0]), decode);
    Run(c.sent, OrNullOn404(c.outcome))
  }

  /**
   * How a read accessor ends, by the status of its one response: 404 gives null, a
   * decodable 2xx body gives the entity, an undecodable 2xx body the parsing error,
   * and every other status the generic error carrying that response.
   */
  lemma ReadAccessorOutcomes<T>(resp: Response, decode: JObject -> Option<T>)
    ensures resp.status == 404 ==> OrNullOn404(Interpret(resp, decode)) == Ok(None)
    ensures IsSuccess(resp.status) && resp.json.Some? && decode(resp.json.value).Some? ==>
      OrNullOn404(Interpret(resp, decode)) == Ok(Some(decode(resp.json.value).value))
    ensures IsSuccess(resp.status) && (resp.json.None? || decode(resp.json.value).None?) ==>
      OrNullOn404(Interpret(resp, decode)) == Err(Protocol(Some(resp), Some(ParsingErrorMessage)))
    ensures !IsSuccess(resp.status) && resp.status != 404 ==>
      OrNullOn404(Interpret(resp, decode)) == Err(Protocol(Some(resp), None))
  {
  }

  /** `ExistsAsync` is true exactly for a decodable 2xx response, false exactly for 404, and fails otherwise. */
  lemma ExistsOutcomes<T>(resp: Response, decode: JObject -> Option<T>)
    ensures ExistsFrom(Interpret(resp, decode)) == Ok(true) <==>
      IsSuccess(resp.status) && resp.json.Some? && decode(resp.json.value).Some?
    ensures ExistsFrom(Interpret(resp, decode)) == Ok(false) <==> resp.status == 404
  {
  }

  /** Only a 404 is ever turned into null: any other failure keeps its response and status. */
  lemma NullOnlyFor404<T>(resp: Response, decode: JObject -> Option<T>)
    requires OrNullOn404(Interpret(resp, decode)) == Ok(None)
    ensures resp.status == 404
  {
  }
}
