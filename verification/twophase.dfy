/**
 * The two-phase write behind CREATE and APPEND, in both client variants: a first
 * request without redirects that must not fail and names the data node in its
 * `Location` header, then the content sent to exactly that location, whose status
 * must be 201 (CREATE) or 200 (APPEND).
 */
module TwoPhase {
  import opened Opt
  import opened Http
  import opened Failures
  import Query

  datatype WriteKind = Create | Append

  /** The one status the second phase accepts: 201 Created for CREATE, 200 OK for APPEND. */
  function ExpectedStatus(k: WriteKind): int {
    match k
    case Create => 201
    case Append => 200
  }

  function WriteVerb(k: WriteKind): Method {
    match k
    case Create => Put
    case Append => Post
  }

  function NotDoneMessage(k: WriteKind): string {
    match k
    case Create => "File was not created error. See details for plus information."
    case Append => "File was not appended error. See details for plus information."
  }

  /** Where a write stands: before the first phase, before the second (with its target), or finished. */
  datatype Phase = Negotiating | Transferring(location: string) | Finished(outcome: Outcome<bool>)

  /** `getRedirectLocation`'s request: the prepared target, no content, redirects not followed. */
  function FirstRequest(k: WriteKind, url: Query.Url): (r: Request)
    ensures r.target == Prepared(url) && !r.withContent && !r.followRedirects
  {
    Request(WriteVerb(k), Prepared(url), false, false)
  }

  /** The second phase's request: the content, sent to the location with redirects followed. */
  function SecondRequest(k: WriteKind, location: string): (r: Request)
    ensures r.target == Redirected(location) && r.withContent && r.followRedirects
  {
    Exchange(WriteVerb(k), Redirected(location), true)
  }

  /** The request a phase sends. */
  function PhaseRequest(k: WriteKind, url: Query.Url, phase: Phase): Request
    requires !phase.Finished?
  {
    match phase
    case Negotiating => FirstRequest(k, url)
    case Transferring(location) => SecondRequest(k, location)
  }

  /**
   * One transition on the response to the phase's request. First phase: a status of 400
   * or more fails with the generic error, a missing `Location` fails on dereference,
   * otherwise the location is next. Second phase: a non-2xx status fails with the generic
   * error, the expected status succeeds, any other 2xx fails with the kind's message.
   */
  function Step(k: WriteKind, phase: Phase, resp: Response): Phase
    requires !phase.Finished?
  {
    match phase
    case Negotiating =>
      if resp.status >= 400 then Finished(Err(Protocol(Some(resp), None)))
      else (match resp.location
            case None => Finished(Err(NullLocation))
            case Some(l) => Transferring(l))
    case Transferring(_) =>
      if !IsSuccess(resp.status) then Finished(Err(Protocol(Some(resp), None)))
      else if resp.status == ExpectedStatus(k) then Finished(Ok(true))
      else Finished(Err(Protocol(Some(resp), Some(NotDoneMessage(k)))))
  }

  function Rank(phase: Phase): nat {
    match phase
    case Negotiating => 2
    case Transferring(_) => 1
    case Finished(_) => 0
  }

  /** The two-phase write stated directly: at most two requests, the second only after a usable first response. */
  function Write(k: WriteKind, url: Query.Url, server: Server): (r: Run<bool>)
    ensures 1 <= |r.sent| <= 2 && r.sent[0] == FirstRequest(k, url)
    ensures server(r.sent[0]).status >= 400 ==> |r.sent| == 1 && r.outcome == Err(Protocol(Some(server(r.sent[0])), None))
    ensures |r.sent| == 2 <==> server(r.sent[0]).status < 400 && server(r.sent[0]).location.Some?
    ensures server(r.sent[0]).status < 400 && server(r.sent[0]).location.None? ==> r == Run([r.sent[0]], Err(NullLocation))
    ensures |r.sent| == 2 ==> r.sent[1] == SecondRequest(k, server(r.sent[0]).location.value)
    ensures r.outcome == Ok(true) <==> |r.sent| == 2 && server(r.sent[1]).status == ExpectedStatus(k)
    ensures r.outcome.Ok? ==> r.outcome.value
    ensures |r.sent| == 2 && IsSuccess(server(r.sent[1]).status) && server(r.sent[1]).status != ExpectedStatus(k) ==>
      r.outcome == Err(Protocol(Some(server(r.sent[1])), Some(NotDoneMessage(k))))
    ensures |r.sent| == 2 && !IsSuccess(server(r.sent[1]).status) ==> r.outcome == Err(Protocol(Some(server(r.sent[1])), None))
  {
    var first := FirstRequest(k, url);
    var r1 := server(first);
    if r1.status >= 400 then Run([first], Err(Protocol(Some(r1), None)))
    else match r1.location
      case None => Run([first], Err(NullLocation))
      case Some(l) =>
        var second := SecondRequest(k, l);
        var r2 := server(second);
        Run([first, second], Step(k, Transferring(l), r2).outcome)
  }

  /**
   * Runs the phase machine until it finishes, counting second-phase attempts. The trace
   * and outcome are those of `Write`, and the second phase is attempted at most once.
   */
  method Drive(k: WriteKind, url: Query.Url, server: Server) returns (sent: seq<Request>, outcome: Outcome<bool>, phase2Attempts: nat)
    ensures Run(sent, outcome) == Write(k, url, server)
    ensures phase2Attempts <= 1
    ensures phase2Attempts == 1 <==> server(FirstRequest(k, url)).status < 400 && server(FirstRequest(k, url)).location.Some?
  {
    var phase := Negotiating;
    sent := [];
    phase2Attempts := 0;
    while !phase.Finished?
      invariant phase.Negotiating? ==> sent == [] && phase2Attempts == 0
      invariant phase.Transferring? ==>
        && sent == [FirstRequest(k, url)]
        && server(sent[0]).status < 400
        && server(sent[0]).location == Some(phase.location)
        && phase2Attempts == 0
      invariant phase.Finished? ==> Write(k, url, server) == Run(sent, phase.outcome)
      invariant phase.Finished? ==> phase2Attempts == |sent| - 1
      decreases Rank(phase)
    {
      var req := PhaseRequest(k, url, phase);
      if phase.Transferring? {
        phase2Attempts := phase2Attempts + 1;
      }
      sent := sent + [req];
      phase := Step(k, phase, server(req));
    }
    outcome := phase.outcome;
  }
}
