/**
 * The operations of the current client (`WebHdfs.Core.WebHdfsClient`), each as the
 * requests it sends to a server given as a function and the way it ends. Every target
 * is built by `prepareUrl` of this variant (leading slashes stripped).
 */
module CoreClient {
  import opened Opt
  import opened Text
  import opened Http
  import opened Failures
  import opened JsonValues
  import Query
  import Permissions
  import Entities
  import Executor
  import TwoPhase
  import Trash
  import Walker

  /** What of the client's configuration shapes a request: the user name, "" when none is set. */
  datatype Client = Client(user: string)

  /** `prepareUrl(path, op, extras)` of this client. */
  function Target(c: Client, path: string, op: string, extras: seq<(string, Option<string>)>): Query.Url {
    Query.PrepareUrlCore(path, op, c.user, extras)
  }

  /** `bool.ToString().ToLower()`. */
  function BoolText(b: bool): string {
    if b then "true" else "false"
  }

  /** The entity decoders `callWebHDFS` is instantiated with. */
  function StatusOf(o: JObject): (r: Option<Entities.FileStatus>)
    ensures r.Some?
  {
    Some(Entities.DecodeFileStatus(o))
  }

  function ListingOf(o: JObject): (r: Option<Entities.DirectoryItems>)
    ensures r.Some? ==> r.value.directoryPath.None? && r.value.entries.Some?
  {
    Entities.ParseDirectoryItems(Entities.DirectoryItems(None, None), o)
  }

  /** A `callWebHDFS<BooleanResult>` whose `Value` the operation returns. */
  function Command(c: Client, path: string, op: string, verb: Method, extras: seq<(string, Option<string>)>, server: Server): Run<bool> {
    Executor.Call(verb, Target(c, path, op, extras), server, Entities.DecodeBoolean)
  }

  // ---------------------------------------------------------------- read accessors

  /**
   * The shape every read accessor of this client shares: one GET of the operation on
   * the prepared path; null exactly on a 404; the entity exactly on a decodable 2xx
   * body; any other response fails with `callWebHDFS`'s exception, carrying it.
   */
  function ReadAccessor<T>(c: Client, path: string, op: string, server: Server, decode: JObject -> Option<T>): (r: Run<Option<T>>)
    ensures |r.sent| == 1 && r.sent[0].verb == Get && r.sent[0].target == Prepared(Target(c, path, op, []))
    ensures r.outcome == Ok(None) <==> server(r.sent[0]).status == 404
    ensures r.outcome.Ok? && r.outcome.value.Some? <==>
      IsSuccess(server(r.sent[0]).status) && server(r.sent[0]).json.Some? && decode(server(r.sent[0]).json.value).Some?
    ensures r.outcome.Ok? && r.outcome.value.Some? ==> r.outcome.value.value == decode(server(r.sent[0]).json.value).value
    ensures r.outcome.Err? ==> r.outcome.failure.Protocol? && r.outcome.failure.response == Some(server(r.sent[0]))
  {
    Executor.ReadOrNull(Get, Target(c, path, op, []), server, decode)
  }

  /**
   * `GetDirectoryItemsAsync`: one LISTSTATUS GET; null exactly on a 404; on a 2xx body
   * the listing `DirectoryItems.Parse` makes of it, without a directory path; any other
   * failure propagates with its response.
   */
  function GetDirectoryItems(c: Client, path: string, server: Server): (r: Run<Option<Entities.DirectoryItems>>)
    ensures |r.sent| == 1 && r.sent[0].verb == Get && r.sent[0].target == Prepared(Target(c, path, "LISTSTATUS", []))
    ensures r.outcome == Ok(None) <==> server(r.sent[0]).status == 404
    ensures r.outcome.Ok? && r.outcome.value.Some? <==>
      && IsSuccess(server(r.sent[0]).status) && server(r.sent[0]).json.Some?
      && Entities.ParseDirectoryItems(Entities.DirectoryItems(None, None), server(r.sent[0]).json.value).Some?
    ensures r.outcome.Ok? && r.outcome.value.Some? ==>
      r.outcome.value.value == Entities.ParseDirectoryItems(Entities.DirectoryItems(None, None), server(r.sent[0]).json.value).value
    ensures r.outcome.Ok? && r.outcome.value.Some? ==>
      r.outcome.value.value.directoryPath.None? && r.outcome.value.value.entries.Some?
    ensures r.outcome.Err? ==> r.outcome.failure.Protocol? && r.outcome.failure.response == Some(server(r.sent[0]))
  {
    ReadAccessor(c, path, "LISTSTATUS", server, ListingOf)
  }

  /** `GetStatusAsync`: one GETFILESTATUS GET; null exactly on a 404, the decoded status on any 2xx JSON body. */
  function GetStatus(c: Client, path: string, server: Server): (r: Run<Option<Entities.FileStatus>>)
    ensures |r.sent| == 1 && r.sent[0].verb == Get && r.sent[0].target == Prepared(Target(c, path, "GETFILESTATUS", []))
    ensures r.outcome == Ok(None) <==> server(r.sent[0]).status == 404
    ensures r.outcome.Ok? && r.outcome.value.Some? <==> IsSuccess(server(r.sent[0]).status) && server(r.sent[0]).json.Some?
    ensures r.outcome.Ok? && r.outcome.value.Some? ==> r.outcome.value.value == Entities.DecodeFileStatus(server(r.sent[0]).json.value)
    ensures r.outcome.Err? ==> r.outcome.failure.Protocol? && r.outcome.failure.response == Some(server(r.sent[0]))
  {
    ReadAccessor(c, path, "GETFILESTATUS", server, StatusOf)
  }

  /** `ExistsAsync`: true exactly on a 2xx JSON body, false exactly on a 404, and any other failure propagates. */
  function Exists(c: Client, path: string, server: Server): (r: Run<bool>)
    ensures |r.sent| == 1 && r.sent[0] == ProbeRequest(c, path)
    ensures r.outcome == Ok(true) <==> IsSuccess(server(r.sent[0]).status) && server(r.sent[0]).json.Some?
    ensures r.outcome == Ok(false) <==> server(r.sent[0]).status == 404
    ensures r.outcome.Err? ==> r.outcome.failure.Protocol? && r.outcome.failure.response == Some(server(r.sent[0]))
  {
    var call := Executor.Call(Get, Target(c, path, "GETFILESTATUS", []), server, StatusOf);
    var resp := server(call.sent[0]);
    assert call.sent[0] == ProbeRequest(c, path);
    Executor.ExistsOutcomes(resp, StatusOf);
    Run(call.sent, Executor.ExistsFrom(Executor.Interpret(resp, StatusOf)))
  }

  /** The GETFILESTATUS request `ExistsAsync` sends. */
  function ProbeRequest(c: Client, path: string): Request {
    Exchange(Get, Prepared(Target(c, path, "GETFILESTATUS", [])), false)
  }

  /**
   * `GetContentSummaryAsync`: one GETCONTENTSUMMARY GET; null exactly on a 404; on a
   * 2xx body the summary `ContentSummary.Parse` reads; any other failure propagates.
   */
  function GetContentSummary(c: Client, path: string, server: Server): (r: Run<Option<Entities.ContentSummary>>)
    ensures |r.sent| == 1 && r.sent[0].verb == Get && r.sent[0].target == Prepared(Target(c, path, "GETCONTENTSUMMARY", []))
    ensures r.outcome == Ok(None) <==> server(r.sent[0]).status == 404
    ensures r.outcome.Ok? && r.outcome.value.Some? <==>
      IsSuccess(server(r.sent[0]).status) && server(r.sent[0]).json.Some? && Entities.ParseContentSummary(server(r.sent[0]).json.value).Some?
    ensures r.outcome.Ok? && r.outcome.value.Some? ==>
      r.outcome.value.value == Entities.ParseContentSummary(server(r.sent[0]).json.value).value
    ensures r.outcome.Err? ==> r.outcome.failure.Protocol? && r.outcome.failure.response == Some(server(r.sent[0]))
  {
    ReadAccessor(c, path, "GETCONTENTSUMMARY", server, Entities.ParseContentSummary)
  }

  /**
   * `GetFileChecksumAsync`: one GETFILECHECKSUM GET; null exactly on a 404; on a 2xx
   * body the decoded checksum; any other failure propagates.
   */
  function GetFileChecksum(c: Client, path: string, server: Server): (r: Run<Option<Entities.FileChecksum>>)
    ensures |r.sent| == 1 && r.sent[0].verb == Get && r.sent[0].target == Prepared(Target(c, path, "GETFILECHECKSUM", []))
    ensures r.outcome == Ok(None) <==> server(r.sent[0]).status == 404
    ensures r.outcome.Ok? && r.outcome.value.Some? <==>
      IsSuccess(server(r.sent[0]).status) && server(r.sent[0]).json.Some? && Entities.DecodeFileChecksum(server(r.sent[0]).json.value).Some?
    ensures r.outcome.Ok? && r.outcome.value.Some? ==>
      r.outcome.value.value == Entities.DecodeFileChecksum(server(r.sent[0]).json.value).value
    ensures r.outcome.Err? ==> r.outcome.failure.Protocol? && r.outcome.failure.response == Some(server(r.sent[0]))
  {
    ReadAccessor(c, path, "GETFILECHECKSUM", server, Entities.DecodeFileChecksum)
  }

  /** The GET that `OpenFileReadAsync(path, offset, length)` sends: the OPEN target with the positive bounds set once each. */
  function OpenRequest(c: Client, path: string, offset: int, length: int): (req: Request)
    ensures req.verb == Get && !req.withContent && req.target.Prepared?
    ensures req.target.url.path == Target(c, path, "OPEN", []).path
    ensures Query.Lookup(QueryOf(req), "op") == Some("OPEN")
    ensures Query.Lookup(QueryOf(req), "offset") == (if offset > 0 then Some(IntToString(offset)) else None)
    ensures Query.Lookup(QueryOf(req), "length") == (if length > 0 then Some(IntToString(length)) else None)
  {
    var base := Target(c, path, "OPEN", []);
    Query.HeadHasNoBounds("OPEN", c.user);
    Query.OpenTargetLookups(base, offset, length);
    Exchange(Get, Prepared(Query.OpenUrl(base, offset, length)), false)
  }

  /**
   * `OpenFileReadAsync(path, offset, length)`: one GET to the OPEN target, whose body
   * is handed back whatever the status: no error is raised. The target sets `offset`
   * and `length` once each; the code as written doubles the target instead (see README).
   */
  function OpenFileRead(c: Client, path: string, offset: int, length: int, server: Server): (r: Run<BodyRead>)
    ensures |r.sent| == 1 && r.sent[0].verb == Get && !r.sent[0].withContent && r.sent[0].target.Prepared?
    ensures r.sent[0].target.url.path == Target(c, path, "OPEN", []).path
    ensures Query.Lookup(QueryOf(r.sent[0]), "op") == Some("OPEN")
    ensures Query.Lookup(QueryOf(r.sent[0]), "offset") == (if offset > 0 then Some(IntToString(offset)) else None)
    ensures Query.Lookup(QueryOf(r.sent[0]), "length") == (if length > 0 then Some(IntToString(length)) else None)
    ensures r.outcome == Ok(server(r.sent[0]).body)
  {
    var req := OpenRequest(c, path, offset, length);
    Run([req], Ok(server(req).body))
  }

  /**
   * `OpenFileReadAsync` exactly as written: `uri += uri.SetQueryParam(...)` appends the
   * whole re-rendered target to the text so far for each positive bound.
   */
  function OpenFileReadAsWritten(c: Client, path: string, offset: int, length: int, server: Server): (r: Run<BodyRead>)
    ensures |r.sent| == 1 && r.sent[0].verb == Get && !r.sent[0].withContent && r.sent[0].target.RawText?
    ensures offset <= 0 && length <= 0 ==> r.sent[0].target.text == Query.Render(Target(c, path, "OPEN", []))
    ensures offset > 0 && length <= 0 ==>
      r.sent[0].target.text == Query.Render(Target(c, path, "OPEN", [])) + Query.Render(OpenRequest(c, path, offset, length).target.url)
    ensures length > 0 ==>
      var before := if offset > 0
        then Query.Render(Target(c, path, "OPEN", [])) + Query.Render(OpenRequest(c, path, offset, -1).target.url)
        else Query.Render(Target(c, path, "OPEN", []));
      r.sent[0].target.text == before + before + "&" + Query.PairText(("length", IntToString(length)))
    ensures r.outcome == Ok(server(r.sent[0]).body)
  {
    var base := Target(c, path, "OPEN", []);
    Query.HeadHasNoBounds("OPEN", c.user);
    Query.HeadOnlyQuery("OPEN", c.user);
    Query.OpenAsWrittenCases(base, offset, length);
    Query.OpenAsWrittenCases(base, offset, -1);
    assert OpenRequest(c, path, offset, -1).target.url == Query.OpenUrl(base, offset, -1);
    var req := Exchange(Get, RawText(Query.OpenTargetAsWritten(base, offset, length)), false);
    Run([req], Ok(server(req).body))
  }

  /** With a positive offset the as-written OPEN text is not the rendering of the corrected target. */
  lemma OpenAsWrittenDiffers(c: Client, path: string, offset: int, server: Server)
    requires offset > 0
    ensures OpenFileReadAsWritten(c, path, offset, -1, server).sent[0].target.text
      != Query.Render(OpenFileRead(c, path, offset, -1, server).sent[0].target.url)
  {
    var base := Target(c, path, "OPEN", []);
    Query.HeadHasNoBounds("OPEN", c.user);
    Query.HeadOnlyQuery("OPEN", c.user);
    Query.OpenOffsetDoublesTarget(base, offset);
  }

  /** The overloads without a range send the plain OPEN target, with no bound at all. */
  lemma OpenWholeFileTarget(c: Client, path: string, server: Server)
    ensures OpenFileRead(c, path, 0, -1, server).sent[0].target == Prepared(Target(c, path, "OPEN", []))
  {
    var u := Target(c, path, "OPEN", []);
    Query.HeadHasNoBounds("OPEN", c.user);
    assert Query.OpenUrl(u, 0, -1) == u;
    assert OpenRequest(c, path, 0, -1) == Exchange(Get, Prepared(Query.OpenUrl(u, 0, -1)), false);
  }

  /**
   * `DownloadFileAsync` up to the local write: both paths must be non-blank, then the
   * whole file is opened. Whether the destination exists and the copy itself are local
   * file-system work outside the model.
   */
  function DownloadFile(c: Client, remote: string, destination: string, server: Server): (r: Run<bool>)
    ensures IsBlank(remote) ==> r == Run([], Err(InvalidArgument(Walker.EmptyPathMessage, "remotePath")))
    ensures !IsBlank(remote) && IsBlank(destination) ==> r == Run([], Err(InvalidArgument(Walker.EmptyPathMessage, "destinationPath")))
    ensures !IsBlank(remote) && !IsBlank(destination) ==> r == Run(OpenFileRead(c, remote, 0, -1, server).sent, Ok(true))
  {
    if IsBlank(remote) then Run([], Err(InvalidArgument(Walker.EmptyPathMessage, "remotePath")))
    else if IsBlank(destination) then Run([], Err(InvalidArgument(Walker.EmptyPathMessage, "destinationPath")))
    else Run(OpenFileRead(c, remote, 0, -1, server).sent, Ok(true))
  }

  // ---------------------------------------------------------------- commands

  /**
   * `CreateDirectoryAsync`: the permission check runs before anything is sent; when it
   * lets the value through, one MKDIRS PUT carries it as `permission`. The check is the
   * one the error text describes; the code as written inverts it (see README).
   */
  function CreateDirectory(c: Client, path: string, permissions: string, server: Server): (r: Run<bool>)
    ensures !Permissions.IsValidPermission(permissions) ==>
      r == Run([], Err(InvalidArgument(Permissions.PermissionsMessage, "permissions")))
    ensures Permissions.IsValidPermission(permissions) ==>
      && |r.sent| == 1 && r.sent[0].verb == Put
      && r.sent[0].target.Prepared? && r.sent[0].target.url.path == Target(c, path, "MKDIRS", []).path
      && Query.Lookup(QueryOf(r.sent[0]), "op") == Some("MKDIRS")
      && Query.Lookup(QueryOf(r.sent[0]), "user.name") == Query.UserName(c.user)
      && Query.Lookup(QueryOf(r.sent[0]), "permission") == Some(permissions)
      && r.outcome == Executor.Interpret(server(r.sent[0]), Entities.DecodeBoolean)
  {
    PermissionCommand(c, path, "MKDIRS", permissions, Permissions.CheckPermissions(permissions), server)
  }

  /**
   * A permission-carrying PUT behind a check: nothing is sent when the check throws,
   * otherwise one PUT of the operation that carries the value as `permission`.
   */
  function PermissionCommand(c: Client, path: string, op: string, permissions: string, check: Outcome<bool>, server: Server): (r: Run<bool>)
    ensures check.Err? ==> r == Run([], Err(check.failure))
    ensures check.Ok? ==>
      && |r.sent| == 1 && r.sent[0].verb == Put
      && r.sent[0].target.Prepared? && r.sent[0].target.url.path == Target(c, path, op, []).path
      && Query.Lookup(QueryOf(r.sent[0]), "op") == Some(op)
      && Query.Lookup(QueryOf(r.sent[0]), "user.name") == Query.UserName(c.user)
      && Query.Lookup(QueryOf(r.sent[0]), "permission") == Some(permissions)
      && r.outcome == Executor.Interpret(server(r.sent[0]), Entities.DecodeBoolean)
  {
    match check
    case Err(f) => Run([], Err(f))
    case Ok(_) =>
      Query.SingleExtraQuery(op, c.user, "permission", Some(permissions), "");
      Query.SingleExtraUser(op, c.user, "permission", Some(permissions));
      Command(c, path, op, Put, [("permission", Some(permissions))], server)
  }

  /**
   * `CreateDirectoryAsync` exactly as written: `throwIfPermissionsNotValide` throws for
   * the values that MATCH its pattern, with message and parameter name swapped.
   */
  function CreateDirectoryAsWritten(c: Client, path: string, permissions: string, server: Server): (r: Run<bool>)
    ensures Permissions.MatchesValidatorPattern(permissions) ==>
      r == Run([], Err(InvalidArgument("permissions", Permissions.PermissionsMessage)))
    ensures !Permissions.MatchesValidatorPattern(permissions) ==>
      && |r.sent| == 1 && r.sent[0].verb == Put
      && r.sent[0].target.Prepared? && r.sent[0].target.url.path == Target(c, path, "MKDIRS", []).path
      && Query.Lookup(QueryOf(r.sent[0]), "op") == Some("MKDIRS")
      && Query.Lookup(QueryOf(r.sent[0]), "user.name") == Query.UserName(c.user)
      && Query.Lookup(QueryOf(r.sent[0]), "permission") == Some(permissions)
      && r.outcome == Executor.Interpret(server(r.sent[0]), Entities.DecodeBoolean)
  {
    PermissionCommand(c, path, "MKDIRS", permissions, Permissions.ThrowIfPermissionsNotValid(permissions), server)
  }

  /** `RenameAsync`: one RENAME PUT naming the new path as `destination`. */
  function Rename(c: Client, path: string, newPath: string, server: Server): (r: Run<bool>)
    ensures |r.sent| == 1 && r.sent[0].verb == Put
    ensures r.sent[0].target.Prepared? && r.sent[0].target.url.path == Target(c, path, "RENAME", []).path
    ensures Query.Lookup(QueryOf(r.sent[0]), "op") == Some("RENAME")
    ensures Query.Lookup(QueryOf(r.sent[0]), "destination") == Some(newPath)
    ensures Query.Lookup(QueryOf(r.sent[0]), "user.name") == Query.UserName(c.user)
    ensures r.outcome == Executor.Interpret(server(r.sent[0]), Entities.DecodeBoolean)
  {
    Query.SingleExtraQuery("RENAME", c.user, "destination", Some(newPath), "");
    Query.SingleExtraUser("RENAME", c.user, "destination", Some(newPath));
    Command(c, path, "RENAME", Put, [("destination", Some(newPath))], server)
  }

  /** `SetPermissionsAsync`: the same check as `CreateDirectoryAsync`, then one SETPERMISSION PUT. */
  function SetPermissions(c: Client, path: string, permissions: string, server: Server): (r: Run<bool>)
    ensures !Permissions.IsValidPermission(permissions) ==>
      r == Run([], Err(InvalidArgument(Permissions.PermissionsMessage, "permissions")))
    ensures Permissions.IsValidPermission(permissions) ==>
      && |r.sent| == 1 && r.sent[0].verb == Put
      && r.sent[0].target.Prepared? && r.sent[0].target.url.path == Target(c, path, "SETPERMISSION", []).path
      && Query.Lookup(QueryOf(r.sent[0]), "op") == Some("SETPERMISSION")
      && Query.Lookup(QueryOf(r.sent[0]), "user.name") == Query.UserName(c.user)
      && Query.Lookup(QueryOf(r.sent[0]), "permission") == Some(permissions)
      && r.outcome == Executor.Interpret(server(r.sent[0]), Entities.DecodeBoolean)
  {
    PermissionCommand(c, path, "SETPERMISSION", permissions, Permissions.CheckPermissions(permissions), server)
  }

  /** `SetPermissionsAsync` exactly as written, with the same inverted check as MKDIRS. */
  function SetPermissionsAsWritten(c: Client, path: string, permissions: string, server: Server): (r: Run<bool>)
    ensures Permissions.MatchesValidatorPattern(permissions) ==>
      r == Run([], Err(InvalidArgument("permissions", Permissions.PermissionsMessage)))
    ensures !Permissions.MatchesValidatorPattern(permissions) ==>
      && |r.sent| == 1 && r.sent[0].verb == Put
      && r.sent[0].target.Prepared? && r.sent[0].target.url.path == Target(c, path, "SETPERMISSION", []).path
      && Query.Lookup(QueryOf(r.sent[0]), "op") == Some("SETPERMISSION")
      && Query.Lookup(QueryOf(r.sent[0]), "user.name") == Query.UserName(c.user)
      && Query.Lookup(QueryOf(r.sent[0]), "permission") == Some(permissions)
      && r.outcome == Executor.Interpret(server(r.sent[0]), Entities.DecodeBoolean)
  {
    PermissionCommand(c, path, "SETPERMISSION", permissions, Permissions.ThrowIfPermissionsNotValid(permissions), server)
  }

  /**
   * How the as-written clients part from the corrected ones: an admissible value is
   * refused before any request exactly when it starts with 0 or 1 ("1777"), and the
   * inadmissible "2000" is sent.
   */
  lemma PermissionClientsDiffer(c: Client, path: string, s: string, server: Server)
    requires Permissions.IsValidPermission(s)
    ensures |CreateDirectory(c, path, s, server).sent| == 1 && |SetPermissions(c, path, s, server).sent| == 1
    ensures CreateDirectoryAsWritten(c, path, s, server).sent == [] <==> s[0] == '0' || s[0] == '1'
    ensures SetPermissionsAsWritten(c, path, s, server).sent == [] <==> s[0] == '0' || s[0] == '1'
    ensures CreateDirectory(c, path, "2000", server).sent == [] && |CreateDirectoryAsWritten(c, path, "2000", server).sent| == 1
    ensures SetPermissions(c, path, "2000", server).sent == [] && |SetPermissionsAsWritten(c, path, "2000", server).sent| == 1
  {
    Permissions.AsWrittenRejectsValidValues(s);
    Permissions.AsWrittenExamples();
  }

  /** `SetOwnerAsync`: one SETOWNER PUT with `owner` only (absent when the owner is null). */
  function SetOwner(c: Client, path: string, owner: Option<string>, server: Server): (r: Run<bool>)
    ensures |r.sent| == 1 && r.sent[0].verb == Put
    ensures r.sent[0].target.Prepared? && r.sent[0].target.url.path == Target(c, path, "SETOWNER", []).path
    ensures Query.Lookup(QueryOf(r.sent[0]), "op") == Some("SETOWNER")
    ensures Query.Lookup(QueryOf(r.sent[0]), "user.name") == Query.UserName(c.user)
    ensures Query.Lookup(QueryOf(r.sent[0]), "owner") == owner
    ensures !Query.HasKey(QueryOf(r.sent[0]), "group")
    ensures r.outcome == Executor.Interpret(server(r.sent[0]), Entities.DecodeBoolean)
  {
    Query.SingleExtraQuery("SETOWNER", c.user, "owner", owner, "group");
    Query.SingleExtraUser("SETOWNER", c.user, "owner", owner);
    Command(c, path, "SETOWNER", Put, [("owner", owner)], server)
  }

  /** `SetGroupAsync`: the same SETOWNER operation, with `group` only. */
  function SetGroup(c: Client, path: string, group: Option<string>, server: Server): (r: Run<bool>)
    ensures |r.sent| == 1 && r.sent[0].verb == Put
    ensures r.sent[0].target.Prepared? && r.sent[0].target.url.path == Target(c, path, "SETOWNER", []).path
    ensures Query.Lookup(QueryOf(r.sent[0]), "op") == Some("SETOWNER")
    ensures Query.Lookup(QueryOf(r.sent[0]), "user.name") == Query.UserName(c.user)
    ensures Query.Lookup(QueryOf(r.sent[0]), "group") == group
    ensures !Query.HasKey(QueryOf(r.sent[0]), "owner")
    ensures r.outcome == Executor.Interpret(server(r.sent[0]), Entities.DecodeBoolean)
  {
    Query.SingleExtraQuery("SETOWNER", c.user, "group", group, "owner");
    Query.SingleExtraUser("SETOWNER", c.user, "group", group);
    Command(c, path, "SETOWNER", Put, [("group", group)], server)
  }

  /** `SetReplicationFactorAsync`: one SETREPLICATION PUT whose `replication` reads back as the factor. */
  function SetReplication(c: Client, path: string, factor: int32, server: Server): (r: Run<bool>)
    ensures |r.sent| == 1 && r.sent[0].verb == Put
    ensures r.sent[0].target.Prepared? && r.sent[0].target.url.path == Target(c, path, "SETREPLICATION", []).path
    ensures Query.Lookup(QueryOf(r.sent[0]), "op") == Some("SETREPLICATION")
    ensures Query.Lookup(QueryOf(r.sent[0]), "user.name") == Query.UserName(c.user)
    ensures Query.Lookup(QueryOf(r.sent[0]), "replication").Some?
    ensures ParseInteger(Query.Lookup(QueryOf(r.sent[0]), "replication").value) == Some(factor as int)
    ensures r.outcome == Executor.Interpret(server(r.sent[0]), Entities.DecodeBoolean)
  {
    Query.SingleExtraQuery("SETREPLICATION", c.user, "replication", Some(IntToString(factor as int)), "");
    Query.SingleExtraUser("SETREPLICATION", c.user, "replication", Some(IntToString(factor as int)));
    IntToStringParses(factor as int);
    Command(c, path, "SETREPLICATION", Put, [("replication", Some(IntToString(factor as int)))], server)
  }

  /** `SetAccessTimeAsync`: one SETTIMES PUT with `accesstime` only. */
  function SetAccessTime(c: Client, path: string, accessTime: Option<string>, server: Server): (r: Run<bool>)
    ensures |r.sent| == 1 && r.sent[0].verb == Put
    ensures r.sent[0].target.Prepared? && r.sent[0].target.url.path == Target(c, path, "SETTIMES", []).path
    ensures Query.Lookup(QueryOf(r.sent[0]), "op") == Some("SETTIMES")
    ensures Query.Lookup(QueryOf(r.sent[0]), "user.name") == Query.UserName(c.user)
    ensures Query.Lookup(QueryOf(r.sent[0]), "accesstime") == accessTime
    ensures !Query.HasKey(QueryOf(r.sent[0]), "modificationtime")
    ensures r.outcome == Executor.Interpret(server(r.sent[0]), Entities.DecodeBoolean)
  {
    Query.SingleExtraQuery("SETTIMES", c.user, "accesstime", accessTime, "modificationtime");
    Query.SingleExtraUser("SETTIMES", c.user, "accesstime", accessTime);
    Command(c, path, "SETTIMES", Put, [("accesstime", accessTime)], server)
  }

  /** `SetModificationTimeAsync`: one SETTIMES PUT with `modificationtime` only. */
  function SetModificationTime(c: Client, path: string, modificationTime: Option<string>, server: Server): (r: Run<bool>)
    ensures |r.sent| == 1 && r.sent[0].verb == Put
    ensures r.sent[0].target.Prepared? && r.sent[0].target.url.path == Target(c, path, "SETTIMES", []).path
    ensures Query.Lookup(QueryOf(r.sent[0]), "op") == Some("SETTIMES")
    ensures Query.Lookup(QueryOf(r.sent[0]), "user.name") == Query.UserName(c.user)
    ensures Query.Lookup(QueryOf(r.sent[0]), "modificationtime") == modificationTime
    ensures !Query.HasKey(QueryOf(r.sent[0]), "accesstime")
    ensures r.outcome == Executor.Interpret(server(r.sent[0]), Entities.DecodeBoolean)
  {
    Query.SingleExtraQuery("SETTIMES", c.user, "modificationtime", modificationTime, "accesstime");
    Query.SingleExtraUser("SETTIMES", c.user, "modificationtime", modificationTime);
    Command(c, path, "SETTIMES", Put, [("modificationtime", modificationTime)], server)
  }

  // ---------------------------------------------------------------- writes

  /**
   * `createFile`: the two-phase CREATE with `overwrite` rendered "true"/"false". The
   * permissions argument is accepted and then neither checked nor sent.
   */
  function CreateFile(c: Client, path: string, overwrite: bool, permissions: string, server: Server): (r: Run<bool>)
    ensures r == TwoPhase.Write(TwoPhase.Create, Target(c, path, "CREATE", [("overwrite", Some(BoolText(overwrite)))]), server)
    ensures r.sent[0].verb == Put
    ensures Query.Lookup(QueryOf(r.sent[0]), "op") == Some("CREATE")
    ensures Query.Lookup(QueryOf(r.sent[0]), "user.name") == Query.UserName(c.user)
    ensures Query.Lookup(QueryOf(r.sent[0]), "overwrite") == Some(BoolText(overwrite))
    ensures !Query.HasKey(QueryOf(r.sent[0]), "permission")
  {
    Query.SingleExtraQuery("CREATE", c.user, "overwrite", Some(BoolText(overwrite)), "permission");
    Query.SingleExtraUser("CREATE", c.user, "overwrite", Some(BoolText(overwrite)));
    TwoPhase.Write(TwoPhase.Create, Target(c, path, "CREATE", [("overwrite", Some(BoolText(overwrite)))]), server)
  }

  /** `appendFile`: the two-phase APPEND with no parameter besides `op` and the user. */
  function AppendFile(c: Client, path: string, server: Server): (r: Run<bool>)
    ensures r == TwoPhase.Write(TwoPhase.Append, Target(c, path, "APPEND", []), server)
    ensures r.sent[0].verb == Post
    ensures QueryOf(r.sent[0]) == Query.Head("APPEND", c.user)
  {
    Query.HeadOnlyQuery("APPEND", c.user);
    TwoPhase.Write(TwoPhase.Append, Target(c, path, "APPEND", []), server)
  }

  // ---------------------------------------------------------------- delete

  /** `DeleteAsync` with `skipTrash`: one DELETE with `recursive` rendered "true"/"false". */
  function DeleteNow(c: Client, path: string, recursive: bool, server: Server): (r: Run<bool>)
    ensures |r.sent| == 1 && r.sent[0].verb == Delete
    ensures r.sent[0].target.Prepared? && r.sent[0].target.url.path == Target(c, path, "DELETE", []).path
    ensures Query.Lookup(QueryOf(r.sent[0]), "op") == Some("DELETE")
    ensures Query.Lookup(QueryOf(r.sent[0]), "user.name") == Query.UserName(c.user)
    ensures Query.Lookup(QueryOf(r.sent[0]), "recursive") == Some(BoolText(recursive))
    ensures r.outcome == Executor.Interpret(server(r.sent[0]), Entities.DecodeBoolean)
  {
    Query.SingleExtraQuery("DELETE", c.user, "recursive", Some(BoolText(recursive)), "");
    Query.SingleExtraUser("DELETE", c.user, "recursive", Some(BoolText(recursive)));
    Command(c, path, "DELETE", Delete, [("recursive", Some(BoolText(recursive)))], server)
  }

  /** Whether the trash folder's MKDIRS succeeds (its boolean result is not looked at). */
  predicate TrashReady(c: Client, server: Server) {
    CreateDirectory(c, Trash.TrashFolder(c.user), Permissions.DefaultPermissions, server).outcome.Ok?
  }

  /** The GETFILESTATUS probes for `names`, in this order. */
  function Probes(c: Client, names: seq<string>): (r: seq<Request>)
    ensures |r| == |names|
    ensures forall i :: 0 <= i < |names| ==> r[i] == ProbeRequest(c, names[i])
  {
    seq(|names|, i requires 0 <= i < |names| => ProbeRequest(c, names[i]))
  }

  /** Slicing a trace after its first request. */
  lemma TraceAfterHead<T>(a: seq<T>, b: seq<T>, k: nat)
    requires |a| == 1 && k <= |b|
    ensures (a + b)[1..k + 1] == b[..k]
    ensures (a + b)[k + 1..] == b[k..]
  {
  }

  /**
   * The trace after the trash folder is made: the probes; then, unless the last probe
   * failed, the RENAME. The outcome is the failed probe's, or else the RENAME's.
   */
  function ThenMove(probes: seq<Request>, last: Outcome<bool>, moved: Run<bool>): (r: Run<bool>)
    ensures |r.sent| >= |probes| && r.sent[..|probes|] == probes
    ensures last.Err? ==> r == Run(probes, last)
    ensures last.Ok? ==> r.sent[|probes|..] == moved.sent && r.outcome == moved.outcome
  {
    if last.Err? then
      assert probes[..|probes|] == probes;
      Run(probes, last)
    else
      assert (probes + moved.sent)[..|probes|] == probes;
      assert (probes + moved.sent)[|probes|..] == moved.sent;
      Run(probes + moved.sent, moved.outcome)
  }

  /**
   * The soft delete once the search has stopped at candidate `k`: MKDIRS of the trash
   * folder with the default permissions, one GETFILESTATUS probe per candidate up to
   * `k`, then RENAME of the path to candidate `k`.
   */
  function SoftDelete(c: Client, path: string, server: Server, k: nat): (r: Run<bool>)
    requires k >= 1
    ensures |r.sent| >= 1 && r.sent[0].verb == Put
    ensures Query.Lookup(QueryOf(r.sent[0]), "op") == Some("MKDIRS")
    ensures Query.Lookup(QueryOf(r.sent[0]), "permission") == Some("755")
    ensures r.sent[0].target.Prepared? && r.sent[0].target.url.path == Target(c, Trash.TrashFolder(c.user), "MKDIRS", []).path
    ensures !TrashReady(c, server) ==> r == CreateDirectory(c, Trash.TrashFolder(c.user), Permissions.DefaultPermissions, server)
    ensures TrashReady(c, server) ==> |r.sent| >= k + 1 && r.sent[1..k + 1] == Probes(c, Trash.Candidates(Trash.TrashFolder(c.user), path, k))
    ensures TrashReady(c, server) && ExistsAt(c, server, Trash.Candidate(Trash.TrashFolder(c.user), path, k)).Err? ==>
      |r.sent| == k + 1 && r.outcome == ExistsAt(c, server, Trash.Candidate(Trash.TrashFolder(c.user), path, k))
    ensures TrashReady(c, server) && ExistsAt(c, server, Trash.Candidate(Trash.TrashFolder(c.user), path, k)).Ok? ==>
      && r.sent[k + 1..] == Rename(c, path, Trash.Candidate(Trash.TrashFolder(c.user), path, k), server).sent
      && r.outcome == Rename(c, path, Trash.Candidate(Trash.TrashFolder(c.user), path, k), server).outcome
  {
    var trash := Trash.TrashFolder(c.user);
    Permissions.DefaultPermissionsPass();
    var made := CreateDirectory(c, trash, Permissions.DefaultPermissions, server);
    if made.outcome.Err? then made
    else
      var name := Trash.Candidate(trash, path, k);
      var moved := ThenMove(Probes(c, Trash.Candidates(trash, path, k)), ExistsAt(c, server, name), Rename(c, path, name, server));
      TraceAfterHead(made.sent, moved.sent, k);
      Run(made.sent + moved.sent, moved.outcome)
  }

  /**
   * A soft delete that succeeds sent MKDIRS, the `k` probes and one RENAME, which named
   * candidate `k` as its destination.
   */
  lemma SoftDeleteSucceeds(c: Client, path: string, server: Server, k: nat)
    requires k >= 1 && SoftDelete(c, path, server, k).outcome.Ok?
    ensures var r := SoftDelete(c, path, server, k);
      && |r.sent| == k + 2
      && Query.Lookup(QueryOf(r.sent[k + 1]), "op") == Some("RENAME")
      && Query.Lookup(QueryOf(r.sent[k + 1]), "destination") == Some(Trash.Candidate(Trash.TrashFolder(c.user), path, k))
  {
    var r := SoftDelete(c, path, server, k);
    var name := Trash.Candidate(Trash.TrashFolder(c.user), path, k);
    var moved := Rename(c, path, name, server);
    assert r.sent[k + 1..] == moved.sent;
    assert r.sent[k + 1] == r.sent[k + 1..][0];
  }

  /** Whether candidate `name` exists, as `ExistsAsync` reports it. */
  function ExistsAt(c: Client, server: Server, name: string): Outcome<bool> {
    Exists(c, name, server).outcome
  }

  /**
   * `DeleteAsync(path, recursive, skipTrash)`. With `skipTrash` it deletes at once and
   * never touches the trash. Otherwise it moves the path into the trash folder under the
   * first candidate name the server does not report as existing. The search ends because
   * the server reports only the finitely many paths in `existing` as existing; it stops
   * early when a probe fails, and that failure is the outcome.
   */
  method DeleteFile(c: Client, path: string, recursive: bool, skipTrash: bool, server: Server, ghost existing: set<string>)
    returns (r: Run<bool>, k: nat)
    requires forall name :: ExistsAt(c, server, name) == Ok(true) ==> name in existing
    ensures skipTrash ==> r == DeleteNow(c, path, recursive, server)
    ensures !skipTrash ==> k >= 1 && r == SoftDelete(c, path, server, k)
    ensures !skipTrash && TrashReady(c, server) ==>
      && ExistsAt(c, server, Trash.Candidate(Trash.TrashFolder(c.user), path, k)) != Ok(true)
      && (forall j :: 1 <= j < k ==> ExistsAt(c, server, Trash.Candidate(Trash.TrashFolder(c.user), path, j)) == Ok(true))
      && k <= |existing| + 1
  {
    if skipTrash {
      r := DeleteNow(c, path, recursive, server);
      k := 0;
      return;
    }
    var trash := Trash.TrashFolder(c.user);
    if !TrashReady(c, server) {
      k := 1;
      r := SoftDelete(c, path, server, k);
      return;
    }
    var last;
    var probe := (name: string) => ExistsAt(c, server, name);
    k, last := Trash.ProbeTrashNames(trash, path, probe, existing);
    r := SoftDelete(c, path, server, k);
  }

  /** `DeleteAsync(path)`: the non-recursive delete through the trash. */
  method DeleteDefault(c: Client, path: string, server: Server, ghost existing: set<string>) returns (r: Run<bool>, k: nat)
    requires forall name :: ExistsAt(c, server, name) == Ok(true) ==> name in existing
    ensures k >= 1 && r == SoftDelete(c, path, server, k)
    ensures TrashReady(c, server) ==> ExistsAt(c, server, Trash.Candidate(Trash.TrashFolder(c.user), path, k)) != Ok(true)
  {
    r, k := DeleteFile(c, path, false, false, server, existing);
  }
}
