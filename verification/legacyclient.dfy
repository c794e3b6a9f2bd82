/**
 * The operations of the older client (`WebHdfs.WebHdfsClient`). They follow the same
 * request pattern as the current client with three differences: `prepareUrl` keeps
 * leading slashes, nothing validates permissions, and delete never uses the trash.
 * Its entity types are not part of this model, so each read accessor takes the
 * entity's decoder as a parameter.
 */
module LegacyClient {
  import opened Opt
  import opened Text
  import opened Http
  import opened Failures
  import opened JsonValues
  import Query
  import Entities
  import Executor
  import TwoPhase

  /** What of the client's configuration shapes a request: the user name, "" when none is set. */
  datatype Client = Client(user: string)

  /** `prepareUrl(path, op, extras)` of this client. */
  function Target(c: Client, path: string, op: string, extras: seq<(string, Option<string>)>): Query.Url {
    Query.PrepareUrlLegacy(path, op, c.user, extras)
  }

  function BoolText(b: bool): string {
    if b then "true" else "false"
  }

  /** A `callWebHDFS<BooleanResult>` whose `Value` the operation returns. */
  function Command(c: Client, path: string, op: string, verb: Method, extras: seq<(string, Option<string>)>, server: Server): Run<bool> {
    Executor.Call(verb, Target(c, path, op, extras), server, Entities.DecodeBoolean)
  }

  // ---------------------------------------------------------------- read accessors

  /**
   * A read accessor (`GetDirectoryStatus`, `GetFileStatus`, `GetContentSummary`,
   * `GetFileChecksum` with their operations): one GET to the path as given, leading
   * slashes kept; null exactly on a 404, the decoded entity exactly on a decodable 2xx
   * body, and otherwise the failure carrying the response.
   */
  function Read<T>(c: Client, path: string, op: string, server: Server, decode: JObject -> Option<T>): (r: Run<Option<T>>)
    ensures |r.sent| == 1 && r.sent[0].verb == Get && r.sent[0].target.Prepared?
    ensures !IsBlank(path) ==> r.sent[0].target.url.path == path
    ensures Query.Lookup(QueryOf(r.sent[0]), "op") == Some(op)
    ensures r.outcome == Ok(None) <==> server(r.sent[0]).status == 404
    ensures r.outcome.Ok? && r.outcome.value.Some? <==>
      IsSuccess(server(r.sent[0]).status) && server(r.sent[0]).json.Some? && decode(server(r.sent[0]).json.value).Some?
    ensures r.outcome.Ok? && r.outcome.value.Some? ==> r.outcome.value.value == decode(server(r.sent[0]).json.value).value
    ensures r.outcome.Err? ==> r.outcome.failure.Protocol? && r.outcome.failure.response == Some(server(r.sent[0]))
  {
    Query.HeadOnlyQuery(op, c.user);
    Executor.ReadOrNull(Get, Target(c, path, op, []), server, decode)
  }

  function GetDirectoryStatus<T>(c: Client, path: string, server: Server, decode: JObject -> Option<T>): Run<Option<T>> {
    Read(c, path, "LISTSTATUS", server, decode)
  }

  function GetFileStatus<T>(c: Client, path: string, server: Server, decode: JObject -> Option<T>): Run<Option<T>> {
    Read(c, path, "GETFILESTATUS", server, decode)
  }

  function GetContentSummary<T>(c: Client, path: string, server: Server, decode: JObject -> Option<T>): Run<Option<T>> {
    Read(c, path, "GETCONTENTSUMMARY", server, decode)
  }

  function GetFileChecksum<T>(c: Client, path: string, server: Server, decode: JObject -> Option<T>): Run<Option<T>> {
    Read(c, path, "GETFILECHECKSUM", server, decode)
  }

  /**
   * `OpenFile(path, offset, length)`: as in the current client, one GET whose body is
   * returned whatever the status, to the OPEN target with the positive bounds set once each.
   */
  function OpenFile(c: Client, path: string, offset: int, length: int, server: Server): (r: Run<BodyRead>)
    ensures |r.sent| == 1 && r.sent[0].verb == Get && !r.sent[0].withContent && r.sent[0].target.Prepared?
    ensures !IsBlank(path) ==> r.sent[0].target.url.path == path
    ensures Query.Lookup(QueryOf(r.sent[0]), "op") == Some("OPEN")
    ensures Query.Lookup(QueryOf(r.sent[0]), "offset") == (if offset > 0 then Some(IntToString(offset)) else None)
    ensures Query.Lookup(QueryOf(r.sent[0]), "length") == (if length > 0 then Some(IntToString(length)) else None)
    ensures r.outcome == Ok(server(r.sent[0]).body)
  {
    var base := Target(c, path, "OPEN", []);
    Query.HeadOnlyQuery("OPEN", c.user);
    Query.OpenTargetLookups(base, offset, length);
    var req := Exchange(Get, Prepared(Query.OpenUrl(base, offset, length)), false);
    Run([req], Ok(server(req).body))
  }

  /**
   * `OpenFile` exactly as written: like the current client, each positive bound is
   * added with `uri += uri.SetQueryParam(...)`, appending the re-rendered target.
   */
  function OpenFileAsWritten(c: Client, path: string, offset: int, length: int, server: Server): (r: Run<BodyRead>)
    ensures |r.sent| == 1 && r.sent[0].verb == Get && !r.sent[0].withContent && r.sent[0].target.RawText?
    ensures offset <= 0 && length <= 0 ==> r.sent[0].target.text == Query.Render(Target(c, path, "OPEN", []))
    ensures offset > 0 && length <= 0 ==>
      r.sent[0].target.text == Query.Render(Target(c, path, "OPEN", [])) + Query.Render(OpenFile(c, path, offset, length, server).sent[0].target.url)
    ensures length > 0 ==>
      var before := if offset > 0
        then Query.Render(Target(c, path, "OPEN", [])) + Query.Render(OpenFile(c, path, offset, -1, server).sent[0].target.url)
        else Query.Render(Target(c, path, "OPEN", []));
      r.sent[0].target.text == before + before + "&" + Query.PairText(("length", IntToString(length)))
    ensures r.outcome == Ok(server(r.sent[0]).body)
  {
    var base := Target(c, path, "OPEN", []);
    Query.HeadHasNoBounds("OPEN", c.user);
    Query.HeadOnlyQuery("OPEN", c.user);
    Query.OpenAsWrittenCases(base, offset, length);
    Query.OpenAsWrittenCases(base, offset, -1);
    assert OpenFile(c, path, offset, -1, server).sent[0].target.url == Query.OpenUrl(base, offset, -1);
    var req := Exchange(Get, RawText(Query.OpenTargetAsWritten(base, offset, length)), false);
    Run([req], Ok(server(req).body))
  }

  /** With a positive offset the as-written OPEN text is not the rendering of the corrected target. */
  lemma OpenAsWrittenDiffers(c: Client, path: string, offset: int, server: Server)
    requires offset > 0
    ensures OpenFileAsWritten(c, path, offset, -1, server).sent[0].target.text
      != Query.Render(OpenFile(c, path, offset, -1, server).sent[0].target.url)
  {
    var base := Target(c, path, "OPEN", []);
    Query.HeadHasNoBounds("OPEN", c.user);
    Query.HeadOnlyQuery("OPEN", c.user);
    Query.OpenOffsetDoublesTarget(base, offset);
  }

  // ---------------------------------------------------------------- commands

  /**
   * `CreateDirectory(path, permissions)`: always exactly one MKDIRS PUT, whatever the
   * permissions text; it carries `permission` exactly when that text is not blank.
   */
  function CreateDirectory(c: Client, path: string, permissions: string, server: Server): (r: Run<bool>)
    ensures |r.sent| == 1 && r.sent[0].verb == Put
    ensures r.sent[0].target.Prepared? && r.sent[0].target.url.path == (if IsBlank(path) then "" else path)
    ensures Query.Lookup(QueryOf(r.sent[0]), "op") == Some("MKDIRS")
    ensures Query.Lookup(QueryOf(r.sent[0]), "user.name") == Query.UserName(c.user)
    ensures Query.HasKey(QueryOf(r.sent[0]), "permission") <==> !IsBlank(permissions)
    ensures !IsBlank(permissions) ==> Query.Lookup(QueryOf(r.sent[0]), "permission") == Some(permissions)
    ensures r.outcome == Executor.Interpret(server(r.sent[0]), Entities.DecodeBoolean)
  {
    if IsBlank(permissions) then
      Query.SingleExtraQuery("MKDIRS", c.user, "permission", None, "");
      Query.SingleExtraUser("MKDIRS", c.user, "permission", None);
      Query.NullExtraDropped("MKDIRS", c.user, "permission");
      Command(c, path, "MKDIRS", Put, [], server)
    else
      Query.SingleExtraQuery("MKDIRS", c.user, "permission", Some(permissions), "");
      Query.SingleExtraUser("MKDIRS", c.user, "permission", Some(permissions));
      Command(c, path, "MKDIRS", Put, [("permission", Some(permissions))], server)
  }

  /** `Rename(path, newPath)`: one RENAME PUT naming the new path as `destination`. */
  function Rename(c: Client, path: string, newPath: string, server: Server): (r: Run<bool>)
    ensures |r.sent| == 1 && r.sent[0].verb == Put
    ensures r.sent[0].target.Prepared? && r.sent[0].target.url.path == (if IsBlank(path) then "" else path)
    ensures Query.Lookup(QueryOf(r.sent[0]), "op") == Some("RENAME")
    ensures Query.Lookup(QueryOf(r.sent[0]), "user.name") == Query.UserName(c.user)
    ensures Query.Lookup(QueryOf(r.sent[0]), "destination") == Some(newPath)
    ensures r.outcome == Executor.Interpret(server(r.sent[0]), Entities.DecodeBoolean)
  {
    Query.SingleExtraQuery("RENAME", c.user, "destination", Some(newPath), "");
    Query.SingleExtraUser("RENAME", c.user, "destination", Some(newPath));
    Command(c, path, "RENAME", Put, [("destination", Some(newPath))], server)
  }

  /** `Delete(path, recursive)`: one DELETE with `recursive` rendered "true"/"false"; there is no trash step. */
  function DeletePath(c: Client, path: string, recursive: bool, server: Server): (r: Run<bool>)
    ensures |r.sent| == 1 && r.sent[0].verb == Delete
    ensures r.sent[0].target.Prepared? && r.sent[0].target.url.path == (if IsBlank(path) then "" else path)
    ensures Query.Lookup(QueryOf(r.sent[0]), "op") == Some("DELETE")
    ensures Query.Lookup(QueryOf(r.sent[0]), "user.name") == Query.UserName(c.user)
    ensures Query.Lookup(QueryOf(r.sent[0]), "recursive") == Some(BoolText(recursive))
    ensures r.outcome == Executor.Interpret(server(r.sent[0]), Entities.DecodeBoolean)
  {
    Query.SingleExtraQuery("DELETE", c.user, "recursive", Some(BoolText(recursive)), "");
    Query.SingleExtraUser("DELETE", c.user, "recursive", Some(BoolText(recursive)));
    Command(c, path, "DELETE", Delete, [("recursive", Some(BoolText(recursive)))], server)
  }

  /** `Delete(path)`: the non-recursive delete. */
  function DeleteDefault(c: Client, path: string, server: Server): (r: Run<bool>)
    ensures |r.sent| == 1 && r.sent[0].verb == Delete
    ensures r.sent[0].target.Prepared? && r.sent[0].target.url.path == (if IsBlank(path) then "" else path)
    ensures Query.Lookup(QueryOf(r.sent[0]), "op") == Some("DELETE")
    ensures Query.Lookup(QueryOf(r.sent[0]), "user.name") == Query.UserName(c.user)
    ensures Query.Lookup(QueryOf(r.sent[0]), "recursive") == Some("false")
    ensures r.outcome == Executor.Interpret(server(r.sent[0]), Entities.DecodeBoolean)
  {
    DeletePath(c, path, false, server)
  }

  /** `SetPermissions`: one SETPERMISSION PUT, sent whatever the permissions text. */
  function SetPermissions(c: Client, path: string, permissions: Option<string>, server: Server): (r: Run<bool>)
    ensures |r.sent| == 1 && r.sent[0].verb == Put
    ensures r.sent[0].target.Prepared? && r.sent[0].target.url.path == (if IsBlank(path) then "" else path)
    ensures Query.Lookup(QueryOf(r.sent[0]), "op") == Some("SETPERMISSION")
    ensures Query.Lookup(QueryOf(r.sent[0]), "user.name") == Query.UserName(c.user)
    ensures Query.Lookup(QueryOf(r.sent[0]), "permission") == permissions
    ensures r.outcome == Executor.Interpret(server(r.sent[0]), Entities.DecodeBoolean)
  {
    Query.SingleExtraQuery("SETPERMISSION", c.user, "permission", permissions, "");
    Query.SingleExtraUser("SETPERMISSION", c.user, "permission", permissions);
    Command(c, path, "SETPERMISSION", Put, [("permission", permissions)], server)
  }

  /** `SetOwner`: one SETOWNER PUT with `owner` only. */
  function SetOwner(c: Client, path: string, owner: Option<string>, server: Server): (r: Run<bool>)
    ensures |r.sent| == 1 && r.sent[0].verb == Put
    ensures r.sent[0].target.Prepared? && r.sent[0].target.url.path == (if IsBlank(path) then "" else path)
    ensures Query.Lookup(QueryOf(r.sent[0]), "op") == Some("SETOWNER")
    ensures Query.Lookup(QueryOf(r.sent[0]), "user.name") == Query.UserName(c.user)
    ensures Query.Lookup(QueryOf(r.sent[0]), "owner") == owner
    ensures !Query.HasKey(QueryOf(r.sent[0]), "group")
    ensures r.outcome == Executor.Interpret(server(r.sent[0]), Entities.DecodeBoolean)
  {
    Query.SingleExtraQuery("SETOWNER", c.user, "owner", owner, "group");
    Query.SingleExtraUser("SETOWNER", c.user, "owner", owner);
    Command(c, path, "SETOWNER", Put, [("owner", owner)], server)
  }

  /** `SetGroup`: the SETOWNER operation again, with `group` only. */
  function SetGroup(c: Client, path: string, group: Option<string>, server: Server): (r: Run<bool>)
    ensures |r.sent| == 1 && r.sent[0].verb == Put
    ensures r.sent[0].target.Prepared? && r.sent[0].target.url.path == (if IsBlank(path) then "" else path)
    ensures Query.Lookup(QueryOf(r.sent[0]), "op") == Some("SETOWNER")
    ensures Query.Lookup(QueryOf(r.sent[0]), "user.name") == Query.UserName(c.user)
    ensures Query.Lookup(QueryOf(r.sent[0]), "group") == group
    ensures !Query.HasKey(QueryOf(r.sent[0]), "owner")
    ensures r.outcome == Executor.Interpret(server(r.sent[0]), Entities.DecodeBoolean)
  {
    Query.SingleExtraQuery("SETOWNER", c.user, "group", group, "owner");
    Query.SingleExtraUser("SETOWNER", c.user, "group", group);
    Command(c, path, "SETOWNER", Put, [("group", group)], server)
  }

  /** `SetReplicationFactor`: one SETREPLICATION PUT whose `replication` reads back as the factor. */
  function SetReplication(c: Client, path: string, factor: int32, server: Server): (r: Run<bool>)
    ensures |r.sent| == 1 && r.sent[0].verb == Put
    ensures r.sent[0].target.Prepared? && r.sent[0].target.url.path == (if IsBlank(path) then "" else path)
    ensures Query.Lookup(QueryOf(r.sent[0]), "op") == Some("SETREPLICATION")
    ensures Query.Lookup(QueryOf(r.sent[0]), "user.name") == Query.UserName(c.user)
    ensures Query.Lookup(QueryOf(r.sent[0]), "replication").Some?
    ensures ParseInteger(Query.Lookup(QueryOf(r.sent[0]), "replication").value) == Some(factor as int)
    ensures r.outcome == Executor.Interpret(server(r.sent[0]), Entities.DecodeBoolean)
  {
    Query.SingleExtraQuery("SETREPLICATION", c.user, "replication", Some(IntToString(factor as int)), "");
    Query.SingleExtraUser("SETREPLICATION", c.user, "replication", Some(IntToString(factor as int)));
    IntToStringParses(factor as int);
    Command(c, path, "SETREPLICATION", Put, [("replication", Some(IntToString(factor as int)))], server)
  }

  /** `SetAccessTime`: one SETTIMES PUT with `accesstime` only. */
  function SetAccessTime(c: Client, path: string, accessTime: Option<string>, server: Server): (r: Run<bool>)
    ensures |r.sent| == 1 && r.sent[0].verb == Put
    ensures r.sent[0].target.Prepared? && r.sent[0].target.url.path == (if IsBlank(path) then "" else path)
    ensures Query.Lookup(QueryOf(r.sent[0]), "op") == Some("SETTIMES")
    ensures Query.Lookup(QueryOf(r.sent[0]), "user.name") == Query.UserName(c.user)
    ensures Query.Lookup(QueryOf(r.sent[0]), "accesstime") == accessTime
    ensures !Query.HasKey(QueryOf(r.sent[0]), "modificationtime")
    ensures r.outcome == Executor.Interpret(server(r.sent[0]), Entities.DecodeBoolean)
  {
    Query.SingleExtraQuery("SETTIMES", c.user, "accesstime", accessTime, "modificationtime");
    Query.SingleExtraUser("SETTIMES", c.user, "accesstime", accessTime);
    Command(c, path, "SETTIMES", Put, [("accesstime", accessTime)], server)
  }

  /** `SetModificationTime`: one SETTIMES PUT with `modificationtime` only. */
  function SetModificationTime(c: Client, path: string, modificationTime: Option<string>, server: Server): (r: Run<bool>)
    ensures |r.sent| == 1 && r.sent[0].verb == Put
    ensures r.sent[0].target.Prepared? && r.sent[0].target.url.path == (if IsBlank(path) then "" else path)
    ensures Query.Lookup(QueryOf(r.sent[0]), "op") == Some("SETTIMES")
    ensures Query.Lookup(QueryOf(r.sent[0]), "user.name") == Query.UserName(c.user)
    ensures Query.Lookup(QueryOf(r.sent[0]), "modificationtime") == modificationTime
    ensures !Query.HasKey(QueryOf(r.sent[0]), "accesstime")
    ensures r.outcome == Executor.Interpret(server(r.sent[0]), Entities.DecodeBoolean)
  {
    Query.SingleExtraQuery("SETTIMES", c.user, "modificationtime", modificationTime, "accesstime");
    Query.SingleExtraUser("SETTIMES", c.user, "modificationtime", modificationTime);
    Command(c, path, "SETTIMES", Put, [("modificationtime", modificationTime)], server)
  }

  // ---------------------------------------------------------------- writes

  /** `createFile`: the two-phase CREATE with `overwrite` rendered "true"/"false"; true exactly on a 201. */
  function CreateFile(c: Client, path: string, overwrite: bool, server: Server): (r: Run<bool>)
    ensures r == TwoPhase.Write(TwoPhase.Create, Target(c, path, "CREATE", [("overwrite", Some(BoolText(overwrite)))]), server)
    ensures r.sent[0].verb == Put
    ensures Query.Lookup(QueryOf(r.sent[0]), "overwrite") == Some(BoolText(overwrite))
    ensures r.outcome == Ok(true) <==> |r.sent| == 2 && server(r.sent[1]).status == 201
  {
    Query.SingleExtraQuery("CREATE", c.user, "overwrite", Some(BoolText(overwrite)), "");
    TwoPhase.Write(TwoPhase.Create, Target(c, path, "CREATE", [("overwrite", Some(BoolText(overwrite)))]), server)
  }

  /** `AppendFile`: the two-phase APPEND; true exactly on a 200. */
  function AppendFile(c: Client, path: string, server: Server): (r: Run<bool>)
    ensures r == TwoPhase.Write(TwoPhase.Append, Target(c, path, "APPEND", []), server)
    ensures r.sent[0].verb == Post
    ensures r.outcome == Ok(true) <==> |r.sent| == 2 && server(r.sent[1]).status == 200
  {
    TwoPhase.Write(TwoPhase.Append, Target(c, path, "APPEND", []), server)
  }
}
