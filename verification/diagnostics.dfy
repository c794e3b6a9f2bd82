/**
 * The two exception classes that report a failed exchange: `WebHdfsException` of the
 * current client and `HdfsException` of the legacy one. Both compose their `Message`
 * from the base message, the response's status line and the body content captured
 * when the exception was built; they differ in how that content is captured.
 */
module Diagnostics {
  import opened Opt
  import opened Text
  import opened Http

  /** `Environment.NewLine`, taken as the Unix line end. */
  const NewLine: string := "\n"

  const CoreClassName: string := "WebHdfs.Core.WebHdfsException"
  const LegacyClassName: string := "WebHdfs.HdfsException"

  /** An exception of either class: its full class name, constructor message, response and captured content. */
  datatype ExceptionState = ExceptionState(
    className: string,
    message: Option<string>,
    response: Option<Response>,
    content: Option<string>)

  // ---------------------------------------------------------------- Message

  /** The text `Exception.Message` falls back to when the constructor's message was null. */
  function DefaultMessage(className: string): (r: string)
    ensures |r| > 0 && r[0] == 'E' && !IsBlank(r)
  {
    var r := "Exception of type '" + className + "' was thrown.";
    assert !IsWhiteSpace(r[0]);
    r
  }

  /** `base.Message`: the constructor's message, or the default text when it was null. */
  function BaseMessage(e: ExceptionState): (r: string)
    ensures e.message.Some? ==> r == e.message.value
    ensures e.message.None? ==> r == DefaultMessage(e.className)
  {
    e.message.GetOr(DefaultMessage(e.className))
  }

  /** The line naming the response's status (as the enum member name) and reason phrase. */
  function StatusLine(resp: Response): (r: string)
    ensures |r| > 0 && r[0] == 'S' && EndsWith(r, NewLine)
  {
    "Status and Reason : " + StatusText(resp.status) + " " + resp.reason + NewLine
  }

  function ContentLine(content: string): (r: string)
    ensures StartsWith(r, "Content : ") && EndsWith(r, NewLine)
  {
    "Content : " + content + NewLine
  }

  /** The length of the content line the message carries: none for a missing or blank content. */
  function ContentLength(content: Option<string>): nat {
    if content.Some? && !IsBlank(content.value) then |ContentLine(content.value)| else 0
  }

  /** The opening section: the base message and a blank line, or nothing for a blank base message. */
  function Opening(base: string): (r: string)
    ensures IsBlank(base) <==> r == ""
    ensures !IsBlank(base) ==> StartsWith(r, base) && |r| == |base| + 2
  {
    if IsBlank(base) then "" else base + NewLine + NewLine
  }

  /**
   * The `Message` both classes compute: the opening section, then, only when there is
   * a response, its status line followed by the content line when the content is not blank.
   */
  function ComposeMessage(base: string, response: Option<Response>, content: Option<string>): (r: string)
    ensures IsBlank(base) && response.None? ==> r == ""
    ensures !IsBlank(base) ==> StartsWith(r, base + NewLine + NewLine)
    ensures |Opening(base)| <= |r| && r[..|Opening(base)|] == Opening(base)
    ensures response.None? ==> r == Opening(base)
    ensures response.Some? ==>
      var n := |Opening(base)|;
      var s := StatusLine(response.value);
      n + |s| <= |r| && r[n..n + |s|] == s
    ensures response.Some? && content.Some? && !IsBlank(content.value) ==> EndsWith(r, ContentLine(content.value))
    ensures response.Some? && (content.None? || IsBlank(content.value)) ==> EndsWith(r, StatusLine(response.value))
    ensures |r| == |Opening(base)| + (if response.None? then 0 else |StatusLine(response.value)| + ContentLength(content))
  {
    match response
    case None => Opening(base)
    case Some(resp) => AfterOpening(Opening(base), StatusLine(resp), content)
  }

  /** The opening section `head`, the status line, then the content line when the content is not blank. */
  function AfterOpening(head: string, status: string, content: Option<string>): (r: string)
    ensures |head| <= |r| && r[..|head|] == head
    ensures |head| + |status| <= |r| && r[|head|..|head| + |status|] == status
    ensures content.Some? && !IsBlank(content.value) ==> EndsWith(r, ContentLine(content.value))
    ensures content.None? || IsBlank(content.value) ==> EndsWith(r, status)
    ensures |r| == |head| + |status| + ContentLength(content)
  {
    var tail := if content.Some? && !IsBlank(content.value) then ContentLine(content.value) else "";
    JoinSlices(head, status, tail);
    head + status + tail
  }

  /** The three parts of a joined message can be cut back out of it. */
  lemma JoinSlices<T>(a: seq<T>, b: seq<T>, c: seq<T>)
    ensures var r := a + b + c;
      && |a| + |b| + |c| == |r|
      && r[..|a|] == a
      && r[|a|..|a| + |b|] == b
      && r[|r| - |c|..] == c
      && (c == [] ==> r[|r| - |b|..] == b)
  {
    var r := a + b + c;
    assert r[..|a|] == a;
    assert r[|a|..|a| + |b|] == b;
    assert r[|r| - |c|..] == c;
  }

  /** `Message` of an exception of either class. */
  function Message(e: ExceptionState): string {
    ComposeMessage(BaseMessage(e), e.response, e.content)
  }

  // ---------------------------------------------------------------- content capture

  /**
   * The current class's capture: the body read as text, then `Regex.Unescape`d; a read
   * that throws or does not finish in time, an unescape that throws (None from
   * `unescape`), and a missing response all leave the content null.
   */
  function CaptureUnescaped(response: Option<Response>, unescape: string -> Option<string>): (r: Option<string>)
    ensures response.Some? && response.value.body.Read? ==> r == unescape(response.value.body.text)
    ensures response.None? || !response.value.body.Read? ==> r.None?
  {
    match response
    case Some(resp) => if resp.body.Read? then unescape(resp.body.text) else None
    case None => None
  }

  /** The legacy class's capture: the body text as read, with no unescaping. */
  function CaptureRaw(response: Option<Response>): (r: Option<string>)
    ensures r.Some? <==> response.Some? && response.value.body.Read?
    ensures r.Some? ==> r.value == response.value.body.text
  {
    match response
    case Some(resp) => if resp.body.Read? then Some(resp.body.text) else None
    case None => None
  }

  // ---------------------------------------------------------------- constructors

  /**
   * `WebHdfsException(response, message, inner)`: keeps the response and the message
   * whatever happens while the body is read.
   */
  function CoreException(response: Option<Response>, message: Option<string>, unescape: string -> Option<string>): (e: ExceptionState)
    ensures e.className == CoreClassName
    ensures e.response == response && e.message == message
    ensures e.content.Some? ==> response.Some? && response.value.body.Read?
    ensures e.content == CaptureUnescaped(response, unescape)
  {
    ExceptionState(CoreClassName, message, response, CaptureUnescaped(response, unescape))
  }

  /** `WebHdfsException(response)`: chains to the three-argument constructor with a null message. */
  function CoreFromResponse(response: Response, unescape: string -> Option<string>): (e: ExceptionState)
    ensures e.response == Some(response) && e.message.None?
  {
    CoreException(Some(response), None, unescape)
  }

  /** `WebHdfsException(message, inner)` and `WebHdfsException()`: no response, nothing captured. */
  function CoreFromMessage(message: Option<string>): (e: ExceptionState)
    ensures e.response.None? && e.content.None? && e.message == message
  {
    ExceptionState(CoreClassName, message, None, None)
  }

  /** `HdfsException(response, message, inner)`: the legacy class, with the raw body as content. */
  function LegacyException(response: Option<Response>, message: Option<string>): (e: ExceptionState)
    ensures e.className == LegacyClassName
    ensures e.response == response && e.message == message
    ensures e.content == CaptureRaw(response)
  {
    ExceptionState(LegacyClassName, message, response, CaptureRaw(response))
  }

  /** `HdfsException(response)`: chains through the two-argument constructor with a null message. */
  function LegacyFromResponse(response: Response): (e: ExceptionState)
    ensures e.response == Some(response) && e.message.None?
  {
    LegacyException(Some(response), None)
  }

  // ---------------------------------------------------------------- properties

  /** Without a response and with a blank base message, the message is empty. */
  lemma BlankWithoutResponseIsEmpty(message: string)
    requires IsBlank(message)
    ensures Message(CoreFromMessage(Some(message))) == ""
  {
  }

  /** A body whose read failed or timed out still leaves the status line in the message. */
  lemma FailedReadKeepsStatusLine(response: Response, message: Option<string>, unescape: string -> Option<string>)
    requires !response.body.Read?
    ensures var m := Message(CoreException(Some(response), message, unescape));
      EndsWith(m, StatusLine(response))
    ensures var m := Message(LegacyException(Some(response), message));
      EndsWith(m, StatusLine(response))
  {
  }

  /**
   * The two classes write the same message for the same response and message whenever
   * unescaping leaves the body as it is.
   */
  lemma CoreAndLegacyAgree(response: Option<Response>, message: string, unescape: string -> Option<string>)
    requires response.Some? && response.value.body.Read? ==> unescape(response.value.body.text) == Some(response.value.body.text)
    ensures Message(CoreException(response, Some(message), unescape)) == Message(LegacyException(response, Some(message)))
  {
  }

  /**
   * As written, the response-only constructor leaves the message null, and `Message`
   * then opens with the runtime's default text rather than with the status line.
   */
  lemma ResponseOnlyOpensWithDefault(response: Response, unescape: string -> Option<string>)
    ensures var m := Message(CoreFromResponse(response, unescape));
      && StartsWith(m, DefaultMessage(CoreClassName) + NewLine + NewLine)
      && !StartsWith(m, StatusLine(response))
    ensures var m := Message(LegacyFromResponse(response));
      && StartsWith(m, DefaultMessage(LegacyClassName) + NewLine + NewLine)
      && !StartsWith(m, StatusLine(response))
  {
    var m := Message(CoreFromResponse(response, unescape));
    assert m[0] == 'E';
    var l := Message(LegacyFromResponse(response));
    assert l[0] == 'E';
  }

  /** `Message` as evidently intended: a null constructor message counts as blank. */
  function IntendedMessage(e: ExceptionState): (r: string)
    ensures e.message.Some? ==> r == Message(e)
    ensures e.message.None? && e.response.Some? ==> StartsWith(r, StatusLine(e.response.value))
    ensures e.message.None? && e.response.None? ==> r == ""
  {
    var base := e.message.GetOr("");
    var r := ComposeMessage(base, e.response, e.content);
    assert e.message.None? ==> Opening(base) == "";
    r
  }

  /** With the intended reading, the response-only constructor's message opens with the status line. */
  lemma IntendedResponseOnlyOpensWithStatus(response: Response, unescape: string -> Option<string>)
    ensures StartsWith(IntendedMessage(CoreFromResponse(response, unescape)), StatusLine(response))
    ensures StartsWith(IntendedMessage(LegacyFromResponse(response)), StatusLine(response))
  {
  }
}
