# WebHdfs client core in Dafny

This project models the core of a .NET client for Hadoop's WebHDFS REST interface. The
client has two variants:

- the current one, `WebHdfs.Core.WebHdfsClient`, with `WebHdfsException`;
- the older one, `WebHdfs.WebHdfsClient`, with `HdfsException`.

Every operation of either client builds a relative request target with `prepareUrl`. That
target is the path plus an ordered query that names the operation (`op`), the user
(`user.name`, when one is configured) and the operation's own parameters. The client sends
one request through `callWebHDFS`. A non-2xx status becomes the client's exception, and a
2xx JSON body is decoded into an entity. The read accessors turn a 404 into null.

Writes (CREATE, APPEND) take two phases:

1. A first request is sent without following redirects. Its `Location` header names the
   data node.
2. The content goes to that location. The status must be 201 for CREATE and 200 for APPEND.

The current client adds three things on top:

- a permission check before MKDIRS and SETPERMISSION;
- a soft delete that moves a path into `/user/<user>/.Trash/Current` under the first free
  name `<name>`, `<stem>(2)<ext>`, `<stem>(3)<ext>`, ...;
- a recursive directory download.

The model makes the network a parameter. A `Server` is a function from requests to
responses, and each operation is a function from its arguments and the server to a `Run`.
A `Run` holds the requests sent, in order, and the outcome (`Ok` with a value, or `Err`
with the exception it stands for). Contracts state what goes on the wire (verb, path,
which query parameters carry which values) and how each response status ends the
operation.

Modules, one file each:

| file | module | what it holds |
|---|---|---|
| opt.dfy | Opt | `Option` |
| text.dfy | Text | .NET string helpers: white space, `TrimStart`, decimal rendering and `Int32.Parse` |
| json.dfy | JsonValues | JSON documents and Newtonsoft's `Value<T>` conversions |
| http.dfy | Http | requests, responses, targets, the server, status names |
| failures.dfy | Failures | the exceptions as values, outcomes and runs |
| query.dfy | Query | `prepareUrl` of both variants, Flurl's `SetQueryParam(s)` and `AppendPathSegment`, the OPEN target |
| diagnostics.dfy | Diagnostics | the two exception classes: content capture and `Message` |
| permissions.dfy | Permissions | the permission check as written and as intended |
| entities.dfy | Entities | `ContentSummary`, `DirectoryItems` and the records they read |
| executor.dfy | Executor | `callWebHDFS` and the 404-to-null rule |
| twophase.dfy | TwoPhase | the two-phase write, as a function and as a phase machine |
| trash.dfy | Trash | trash folder, candidate names and the search for a free one |
| walker.dfy | Walker | `DownloadDirectoryAsync` over an abstract remote tree |
| coreclient.dfy | CoreClient | the operations of the current client |
| legacyclient.dfy | LegacyClient | the operations of the older client |

## Model

| member | source | states |
|---|---|---|
| Query.SetParam | src/WebHdfs.Core/WebHdfsClient.cs:723-730 | Setting a parameter leaves every other parameter as it was. A null value removes the name. A value gives the name exactly one pair with that value. A new name is appended at the end |
| Query.SetParamsAppends | src/WebHdfs.Core/WebHdfsClient.cs:728-731 | Setting fresh, distinct names one after another appends their non-null values in declaration order |
| Query.BuildQuery | src/WebHdfs.Core/WebHdfsClient.cs:723-731 | For ordinary extras the query is `op`, then `user.name` when a user is set, then the non-null extras in order |
| Query.PrepareUrlCore | src/WebHdfs.Core/WebHdfsClient.cs:717-734 | A null or white-space path becomes empty. Leading '/'s are stripped, so the path never starts with '/'. The query is the one `BuildQuery` states |
| Query.PrepareUrlLegacy | src/WebHdfs/WebHdfsClient.cs:531-546 | As in the current variant, but a non-blank path is kept exactly as given, leading slashes included |
| Query.QueryStartsWithOp | src/WebHdfs/WebHdfsClient.cs:535-538 | `op` is always the first pair. `user.name` is present exactly when a user is configured, and then it comes second. The extras follow |
| Query.SingleExtraQuery | src/WebHdfs.Core/WebHdfsClient.cs:723-731 | With one extra parameter, the query names the operation and holds the extra exactly when it is not null. It holds no name besides `op`, `user.name` and the extra |
| Query.SingleExtraUser | src/WebHdfs.Core/WebHdfsClient.cs:723-724 | With one extra parameter the query sends the user as `user.name` exactly when the user is not empty |
| Query.OpenOffsetDoublesTarget | src/WebHdfs.Core/WebHdfsClient.cs:257-258 | As written, a positive offset makes the OPEN target the base target followed by the whole intended target, so it differs from the intended one |
| Query.OpenWithoutRangeAgrees | src/WebHdfs.Core/WebHdfsClient.cs:255-261 | With neither bound positive, the as-written and the intended OPEN targets are both the plain OPEN target |
| Query.OpenAsWrittenCases | src/WebHdfs.Core/WebHdfsClient.cs:255-260 | Without an upper bound, the as-written OPEN text is the base target alone, or, for a positive offset, the base target followed by the corrected one |
| Query.OpenUrl | src/WebHdfs.Core/WebHdfsClient.cs:257-260 | The intended OPEN target keeps the path and appends `offset` and then `length`, each only when positive |
| Query.OpenUrlLookups | src/WebHdfs/WebHdfsClient.cs:234-238 | In the intended OPEN target each positive bound reads back under its own name, a bound that is not positive is absent, and every other parameter is unchanged |
| Query.OpenUrlRenders | src/WebHdfs.Core/WebHdfsClient.cs:257-260 | The intended OPEN target renders as the base text plus `&offset=<n>` and `&length=<n>` for the positive bounds |
| Query.AppendPathSegment | src/WebHdfs.Core/WebHdfsClient.cs:405 | Joining keeps the base as a prefix, adds exactly one '/' when the base does not end in one, and drops the segment's leading '/'s |
| Query.AppendPathSegmentInjective | src/WebHdfs.Core/WebHdfsClient.cs:405-410 | Under one base, segments without a leading '/' give distinct paths |
| Http.Exchange | src/WebHdfs.Core/WebHdfsClient.cs:743-763 | The request keeps the method and target. Content is attached exactly when the method is not GET and there is content. Redirects are followed |
| Diagnostics.ComposeMessage | src/WebHdfs.Core/WebHdfsException.cs:53-75 | The message opens with the base message and a blank line when the base is not blank. With a response, the status line follows. The message ends with the content line when the content is not blank, else with the status line. Without a response, the message is just the opening. Its length is the sum of these parts, so nothing else is in it |
| Diagnostics.CaptureUnescaped | src/WebHdfs.Core/WebHdfsException.cs:23-32 | The captured content is the unescaped body text when the body was read. A timed-out or failed read, or a missing response, captures nothing |
| Diagnostics.CaptureRaw | src/WebHdfs/HdfsException.cs:22-31 | The legacy class captures the body text exactly as read, and nothing when the read failed |
| Diagnostics.CoreException | src/WebHdfs.Core/WebHdfsException.cs:19-33 | The exception keeps its response and message whatever the read does. Content is captured only from a response whose body was read, and it is exactly that body unescaped |
| Diagnostics.CoreFromResponse | src/WebHdfs.Core/WebHdfsException.cs:35-41 | The response-only constructor chains to the full one with a null message |
| Diagnostics.CoreFromMessage | src/WebHdfs.Core/WebHdfsException.cs:43-51 | The message-only constructors carry no response and capture nothing |
| Diagnostics.LegacyException | src/WebHdfs/HdfsException.cs:18-32 | The legacy exception keeps its response and message, and its content is the raw body |
| Diagnostics.LegacyFromResponse | src/WebHdfs/HdfsException.cs:34-40 | The legacy response-only constructor chains with a null message |
| Diagnostics.BaseMessage | src/WebHdfs.Core/WebHdfsException.cs:58-60 | `base.Message` is the constructor's message, or the runtime's default text when that was null |
| Diagnostics.BlankWithoutResponseIsEmpty | src/WebHdfs.Core/WebHdfsException.cs:57-73 | Without a response and with a blank message, `Message` is empty |
| Diagnostics.FailedReadKeepsStatusLine | src/WebHdfs/HdfsException.cs:52-59 | In both classes, a body that could not be read still leaves the status line as the message's last line |
| Diagnostics.CoreAndLegacyAgree | src/WebHdfs/HdfsException.cs:42-64 | The two classes compose the same message for the same response and message whenever unescaping leaves the body unchanged |
| Diagnostics.ResponseOnlyOpensWithDefault | src/WebHdfs.Core/WebHdfsException.cs:39-41 | As written, an exception built from a response alone opens with the runtime's default text, not with the status line, in both classes |
| Diagnostics.IntendedMessage | src/WebHdfs.Core/WebHdfsException.cs:53-75 | With a null message read as blank, a response-only exception's message starts with its status line. Without a response it is empty. With a message it is unchanged |
| Diagnostics.IntendedResponseOnlyOpensWithStatus | src/WebHdfs/HdfsException.cs:38-40 | Read the intended way, the response-only constructors of both classes give a message that opens with the status line |
| Permissions.ThrowIfPermissionsNotValid | src/WebHdfs.Core/WebHdfsClient.cs:791-799 | As written, the check fails exactly when the text matches `^[01][0-7]{0,3}$` (with .NET's `$`). The parameter name is passed as the message and the explanation as the parameter name |
| Permissions.AsWrittenRejectsValidValues | src/WebHdfs.Core/WebHdfsClient.cs:793-796 | Among the values the error text admits, the as-written check rejects exactly those starting with 0 or 1 |
| Permissions.AsWrittenRejectsOnlyValid | src/WebHdfs.Core/WebHdfsClient.cs:793-796 | Everything the as-written check rejects is admissible by its own error text, up to a final line feed |
| Permissions.DefaultPermissionsPass | src/WebHdfs.Core/WebHdfsClient.cs:56 | The default "755" passes both the as-written and the intended check |
| Permissions.AsWrittenExamples | src/WebHdfs.Core/WebHdfsClient.cs:793-796 | "1777" is admissible but rejected as written. "2000" is inadmissible but accepted as written. The intended check does the opposite for both |
| Permissions.IntendedPatternIsValid | src/WebHdfs.Core/WebHdfsClient.cs:795 | The pattern of one to three octal digits, or four starting with 0 or 1, accepts exactly the one-to-four-digit octal values up to 0o1777 |
| Permissions.CheckPermissions | src/WebHdfs.Core/WebHdfsClient.cs:791-799 | The intended check accepts exactly the admissible values. It rejects the others with the explanation as the message and `permissions` as the parameter name |
| Entities.KeyReading | src/WebHdfs.Core/Entities/ContentSummary.cs:52-57 | A missing counter reads as 0. A read counter lies in the range of its declared width, `int` or `long` |
| Entities.SummarySource | src/WebHdfs.Core/Entities/ContentSummary.cs:50 | Counters come from the `ContentSummary` member when it is an object, and from the root when it is missing or null. Any other kind makes the parse throw |
| Entities.ReadSummary | src/WebHdfs.Core/Entities/ContentSummary.cs:52-57 | The summary exists exactly when all six counters are readable, and each field equals the reading of its own key |
| Entities.ParseContentSummary | src/WebHdfs.Core/Entities/ContentSummary.cs:48-58 | With no `ContentSummary` member, or a null one, the counters are read from the root. With an object member they are read from that object. A member of any other kind makes the parse fail |
| Entities.EnvelopeTransparent | src/WebHdfs.Core/Entities/ContentSummary.cs:50 | Wrapping a document in a `ContentSummary` envelope does not change the parse |
| Entities.SummaryFieldLocal | src/WebHdfs.Core/Entities/ContentSummary.cs:52-57 | A counter depends on its own key only |
| Entities.EmptySummaryIsZero | src/WebHdfs.Core/Entities/ContentSummary.cs:48-58 | An empty document parses to all-zero counters |
| Entities.WideDirectoryCountFails | src/WebHdfs.Core/Entities/ContentSummary.cs:52 | A directory count beyond the 32-bit range makes the parse throw |
| Entities.DecodeEntries | src/WebHdfs.Core/Entities/DirectoryItems.cs:34-39 | There is one entry per array element, in order, and the decode succeeds exactly when every element is an object |
| Entities.ParseDirectoryItems | src/WebHdfs.Core/Entities/DirectoryItems.cs:32-40 | The parse succeeds exactly when `FileStatuses.FileStatus` is an array of objects. It then holds one decoded entry per element and keeps the directory path |
| Entities.OfType | src/WebHdfs.Core/Entities/DirectoryItems.cs:46 | The filtered view holds exactly the listing's entries of the type, in listing order |
| Entities.Files | src/WebHdfs.Core/Entities/DirectoryItems.cs:51-52 | `Files` is defined exactly after `Parse`, and is then the FILE entries in order |
| Entities.Directories | src/WebHdfs.Core/Entities/DirectoryItems.cs:45-46 | `Directories` is defined exactly after `Parse`, and is then the DIRECTORY entries in order |
| Entities.OfTypeAppend | src/WebHdfs.Core/Entities/DirectoryItems.cs:45-52 | Filtering a concatenation filters each part and keeps their order |
| Entities.FilesDirectoriesPartition | src/WebHdfs.Core/Entities/DirectoryItems.cs:45-52 | No entry is both a file and a directory. Entries of other types are in neither view. Together the views are no longer than the listing |
| Entities.SetDirectoryPath | src/WebHdfs.Core/Entities/DirectoryItems.cs:19-29 | The path is recorded. Parsed entries get their full paths back-filled, and unparsed ones stay unparsed |
| Entities.WithFullPaths | src/WebHdfs.Core/Entities/DirectoryItems.cs:24-27 | Back-filling keeps the order and every field except the full path. The full path is the directory path joined with the entry's name |
| Entities.FullPathsUnderDirectory | src/WebHdfs.Core/Entities/DirectoryItems.cs:26 | Every back-filled full path starts with the directory path |
| Entities.SetDirectoryPathLastWins | src/WebHdfs.Core/Entities/DirectoryItems.cs:19-29 | Setting the path twice is the same as setting it once to the second path |
| Entities.OfTypeWithFullPaths | src/WebHdfs.Core/Entities/DirectoryItems.cs:24-27 | Back-filling commutes with the typed views |
| Entities.FilesAfterSetDirectoryPath | src/WebHdfs.Core/Entities/DirectoryItems.cs:19-52 | After `SetDirectoryPath`, the files and directories are the same entries, now with their full paths |
| Entities.DecodeBoolean | src/WebHdfs.Core/WebHdfsClient.cs:362-363 | Assumed rule for the `BooleanResult` parse: a missing `boolean` member reads as false, a boolean reads as itself, and any other kind makes the decode throw |
| Executor.Interpret | src/WebHdfs.Core/WebHdfsClient.cs:693-714 | A non-2xx status fails with the response and no message. A 2xx status yields the entity exactly when the body is a JSON object the entity decodes. Otherwise it fails with "Result Json parsing error" and the response |
| Executor.Call | src/WebHdfs.Core/WebHdfsClient.cs:684-715 | Exactly one request is sent, with the given method, no content, to the prepared target, and its response is interpreted |
| Executor.OrNullOn404 | src/WebHdfs.Core/WebHdfsClient.cs:131-138 | A success is kept. A failure carrying a 404 becomes null. Every other failure propagates unchanged |
| Executor.ExistsFrom | src/WebHdfs.Core/WebHdfsClient.cs:160-168 | A decoded status means true, a 404 means false, and every other failure propagates |
| Executor.ReadOrNull | src/WebHdfs/WebHdfsClient.cs:119-129 | One request with the given method and no content. The result is null exactly on a 404 and the entity exactly on a decodable 2xx JSON body. Any other response fails carrying that response: with "Result Json parsing error" for a 2xx, with no message otherwise |
| Executor.ReadAccessorOutcomes | src/WebHdfs.Core/WebHdfsClient.cs:195-205 | Per status, a read accessor ends as follows: 404 is null, a decodable 2xx is the entity, an undecodable 2xx is the parsing error, and anything else is the generic error with the response |
| Executor.ExistsOutcomes | src/WebHdfs.Core/WebHdfsClient.cs:158-169 | `ExistsAsync` is true exactly for a decodable 2xx response and false exactly for a 404 |
| Executor.NullOnlyFor404 | src/WebHdfs.Core/WebHdfsClient.cs:135 | Null is returned only for a 404 |
| TwoPhase.FirstRequest | src/WebHdfs.Core/WebHdfsClient.cs:765-777 | The first phase targets the prepared URL, carries no content and does not follow redirects |
| TwoPhase.SecondRequest | src/WebHdfs.Core/WebHdfsClient.cs:671 | The second phase sends the content to the redirect location and follows redirects |
| TwoPhase.Write | src/WebHdfs.Core/WebHdfsClient.cs:592-606 | At most two requests are sent. A first status of 400 or more fails with that response. A first status below 400 without a location fails on the null dereference after that one request. The second request is sent exactly when the first is below 400 and names a location, and it goes to that location. The write succeeds exactly when the second status is the expected one. Another 2xx fails with the kind's message, and a non-2xx fails with no message |
| TwoPhase.Drive | src/WebHdfs.Core/WebHdfsClient.cs:666-680 | Running the phase machine gives the same trace and outcome as `Write`, and the second phase is attempted at most once: exactly when the first response allows it |
| Trash.TrashFolder | src/WebHdfs.Core/WebHdfsClient.cs:48-54 | The trash folder is `/user/<user>` followed by `/.Trash/Current` |
| Trash.FileName | src/WebHdfs.Core/WebHdfsClient.cs:405 | The file name is the part of the path after its last '/': a suffix with no '/' in it, that is the whole path or follows a '/' |
| Trash.Stem | src/WebHdfs.Core/WebHdfsClient.cs:410 | The stem is the file name up to its last '.', or the whole name when it has no '.' |
| Trash.Extension | src/WebHdfs.Core/WebHdfsClient.cs:410 | The extension is the file name from its last '.' on. It is empty when the name has no '.' or ends with one |
| Trash.StemExtensionSplit | src/WebHdfs.Core/WebHdfsClient.cs:410 | The file name splits at its last '.': stem then extension give back the name. A name without '.' is all stem with no extension, and a name ending in '.' is the stem followed by that '.' |
| Trash.CandidatesDistinct | src/WebHdfs.Core/WebHdfsClient.cs:405-412 | The candidate paths the loop tries are pairwise distinct |
| Trash.FirstFree | src/WebHdfs.Core/WebHdfsClient.cs:408-412 | The search stops at the first candidate not reported taken, with that answer as its result. Every earlier candidate was reported taken. At most one candidate beyond the taken names is tried |
| Trash.ProbeTrashNames | src/WebHdfs.Core/WebHdfsClient.cs:405-412 | The same search over the trash candidates: `<name>`, then `<stem>(2)<ext>`, `<stem>(3)<ext>`, ... |
| Trash.ChooseTrashName | src/WebHdfs.Core/WebHdfsClient.cs:404-413 | Against a finite set of existing paths, the chosen name is free, every earlier candidate is taken, and the search needs at most one more probe than there are existing paths |
| Walker.Walk | src/WebHdfs.Core/WebHdfsClient.cs:311-345 | A blank remote or local path fails before anything happens. Otherwise the local directory is made first. A missing remote directory then fails with "Directory \"<path>\" not exists", and a listing that cannot be read fails with its own failure, after only the local directory was made |
| Walker.WalkDownloadsEveryFile | src/WebHdfs.Core/WebHdfsClient.cs:332-342 | A walk that succeeds asks for as many downloads as there are FILE entries anywhere in the remote tree |
| Walker.WalkFailsWithSubwalk | src/WebHdfs.Core/WebHdfsClient.cs:337-342 | A subdirectory whose walk fails makes the whole walk fail. When the subdirectories listed before it all succeed, the whole walk fails with that subdirectory's failure |
| Walker.WalkDownloadsTreeFiles | src/WebHdfs.Core/WebHdfsClient.cs:332-342 | A walk that succeeds downloads every FILE entry of the tree and nothing else: from the directory's remote path joined with the name to the local directory combined with the name, the files of a directory before those below its subdirectories, each in listing order |
| Walker.Combine | src/WebHdfs.Core/WebHdfsClient.cs:339 | `Path.Combine` with a relative name yields a path that starts with the directory and ends with the name. An empty name yields the directory |
| Walker.CombineSeparators | src/WebHdfs.Core/WebHdfsClient.cs:339 | `Path.Combine` joins a relative name to a directory ending in '/' directly and to any other directory with one '/'. A rooted name, or an empty directory, yields the name itself |
| CoreClient.ReadAccessor | src/WebHdfs.Core/WebHdfsClient.cs:129-156 | Every read accessor sends one GET of its operation to the stripped path. It is null exactly on a 404 and holds the entity exactly on a 2xx body the entity decodes |
| CoreClient.GetDirectoryItems | src/WebHdfs.Core/WebHdfsClient.cs:129-139 | One LISTSTATUS GET. The result is null exactly on a 404. On a 2xx JSON body that `DirectoryItems.Parse` accepts it is that parsed listing, without a directory path. Any other response fails carrying it |
| CoreClient.GetStatus | src/WebHdfs.Core/WebHdfsClient.cs:146-156 | One GETFILESTATUS GET. The result is null exactly on a 404, and a status exactly on a 2xx JSON body |
| CoreClient.Exists | src/WebHdfs.Core/WebHdfsClient.cs:158-169 | One GETFILESTATUS GET. The result is true exactly on a 2xx JSON body and false exactly on a 404. Any other failure keeps its response |
| CoreClient.GetContentSummary | src/WebHdfs.Core/WebHdfsClient.cs:195-205 | One GETCONTENTSUMMARY GET. The result is null exactly on a 404. On a 2xx JSON body that `ContentSummary.Parse` reads it is that summary. Any other response fails carrying it |
| CoreClient.GetFileChecksum | src/WebHdfs.Core/WebHdfsClient.cs:213-223 | One GETFILECHECKSUM GET. The result is null exactly on a 404. On a 2xx JSON body it is the checksum decoded from it. Any other response fails carrying it |
| CoreClient.OpenRequest | src/WebHdfs.Core/WebHdfsClient.cs:255-261 | The corrected OPEN request is a GET without content to the stripped path. It names `OPEN` and reads back each positive bound under its own name, and a bound that is not positive is absent |
| CoreClient.OpenFileRead | src/WebHdfs.Core/WebHdfsClient.cs:255-265 | With the corrected target: one GET to the OPEN target, with `offset` and `length` present exactly when positive. The body comes back whatever the status |
| CoreClient.OpenFileReadAsWritten | src/WebHdfs.Core/WebHdfsClient.cs:255-265 | As written: one GET whose body comes back whatever the status. Without a positive bound the target text is the plain OPEN target. With only a positive offset it is the plain target followed by the whole corrected target. A positive length doubles the text sent without one and appends `&length=<length>` |
| CoreClient.OpenAsWrittenDiffers | src/WebHdfs.Core/WebHdfsClient.cs:257-258 | With a positive offset the as-written target text differs from the rendering of the corrected target |
| CoreClient.OpenWholeFileTarget | src/WebHdfs.Core/WebHdfsClient.cs:230-243 | The overloads without a range send the plain OPEN target |
| CoreClient.DownloadFile | src/WebHdfs.Core/WebHdfsClient.cs:275-301 | A blank remote path or destination fails with its parameter name before any request. Otherwise the whole file is opened |
| CoreClient.CreateDirectory | src/WebHdfs.Core/WebHdfsClient.cs:356-364 | With the corrected check: an inadmissible permission fails before any request. Otherwise one MKDIRS PUT carries the value as `permission`, and its `boolean` result is the outcome. The query sends the client's user as `user.name` when it is set. The request goes to the given path with its leading '/'s stripped ("" for a blank path) |
| CoreClient.CreateDirectoryAsWritten | src/WebHdfs.Core/WebHdfsClient.cs:356-364 | As written: a value matching the validator pattern fails before any request, with message and parameter name swapped. Any other value is sent as `permission` in one MKDIRS PUT. The query sends the client's user as `user.name` when it is set. The request goes to the given path with its leading '/'s stripped ("" for a blank path) |
| CoreClient.Rename | src/WebHdfs.Core/WebHdfsClient.cs:372-376 | One RENAME PUT on the stripped path, naming the new path as `destination`. The outcome is the response read as a `boolean` result. The query sends the client's user as `user.name` when it is set |
| CoreClient.SetPermissions | src/WebHdfs.Core/WebHdfsClient.cs:426-432 | The same corrected check as MKDIRS, then one SETPERMISSION PUT that carries the value, whose `boolean` result is the outcome. The query sends the client's user as `user.name` when it is set. The request goes to the given path with its leading '/'s stripped ("" for a blank path) |
| CoreClient.SetPermissionsAsWritten | src/WebHdfs.Core/WebHdfsClient.cs:426-432 | As written: the same inverted check as MKDIRS, then one SETPERMISSION PUT that carries the value. The query sends the client's user as `user.name` when it is set. The request goes to the given path with its leading '/'s stripped ("" for a blank path) |
| CoreClient.PermissionClientsDiffer | src/WebHdfs.Core/WebHdfsClient.cs:791-799 | An admissible value is always sent by the corrected operations. As written, MKDIRS and SETPERMISSION refuse it before any request exactly when it starts with 0 or 1. The inadmissible "2000" is sent as written and refused when corrected |
| CoreClient.SetOwner | src/WebHdfs.Core/WebHdfsClient.cs:440-444 | One SETOWNER PUT that carries `owner` exactly when it is not null, and never `group`. The outcome is the response read as a `boolean` result. The query sends the client's user as `user.name` when it is set. The request goes to the given path with its leading '/'s stripped ("" for a blank path) |
| CoreClient.SetGroup | src/WebHdfs.Core/WebHdfsClient.cs:452-456 | One SETOWNER PUT that carries `group` exactly when it is not null, and never `owner`. The outcome is the response read as a `boolean` result. The query sends the client's user as `user.name` when it is set. The request goes to the given path with its leading '/'s stripped ("" for a blank path) |
| CoreClient.SetReplication | src/WebHdfs.Core/WebHdfsClient.cs:464-468 | One SETREPLICATION PUT whose `replication` parses back to the factor. The outcome is the response read as a `boolean` result. The query sends the client's user as `user.name` when it is set. The request goes to the given path with its leading '/'s stripped ("" for a blank path) |
| CoreClient.SetAccessTime | src/WebHdfs.Core/WebHdfsClient.cs:477-481 | One SETTIMES PUT that carries `accesstime` and never `modificationtime`. The outcome is the response read as a `boolean` result. The query sends the client's user as `user.name` when it is set. The request goes to the given path with its leading '/'s stripped ("" for a blank path) |
| CoreClient.SetModificationTime | src/WebHdfs.Core/WebHdfsClient.cs:490-494 | One SETTIMES PUT that carries `modificationtime` and never `accesstime`. The outcome is the response read as a `boolean` result. The query sends the client's user as `user.name` when it is set. The request goes to the given path with its leading '/'s stripped ("" for a blank path) |
| CoreClient.CreateFile | src/WebHdfs.Core/WebHdfsClient.cs:592-606 | The two-phase CREATE, whose first request carries `overwrite` as "true"/"false" and never a permission. The query sends the client's user as `user.name` when it is set |
| CoreClient.AppendFile | src/WebHdfs.Core/WebHdfsClient.cs:666-680 | The two-phase APPEND, whose first query is only `op` and the user |
| CoreClient.DeleteNow | src/WebHdfs.Core/WebHdfsClient.cs:398-401 | With `skipTrash`, one DELETE carries `recursive` as "true"/"false". The outcome is the response read as a `boolean` result. The query sends the client's user as `user.name` when it is set. The request goes to the given path with its leading '/'s stripped ("" for a blank path) |
| CoreClient.Probes | src/WebHdfs.Core/WebHdfsClient.cs:408 | The probes are one GETFILESTATUS request per candidate name, in the order of the names |
| CoreClient.SoftDelete | src/WebHdfs.Core/WebHdfsClient.cs:402-414 | MKDIRS of the trash folder with "755" comes first, sent to the folder's path `user/<user>/.Trash/Current`, and its failure is the whole delete. Otherwise the probes of candidates 1 to k follow in order. A failing probe of candidate k ends the delete with that failure. Otherwise the RENAME of the path to candidate k follows, and its outcome is the delete's |
| CoreClient.SoftDeleteSucceeds | src/WebHdfs.Core/WebHdfsClient.cs:402-414 | A soft delete that succeeds sent exactly MKDIRS, the k probes and one RENAME, and that RENAME names candidate k as its destination |
| CoreClient.DeleteFile | src/WebHdfs.Core/WebHdfsClient.cs:396-415 | With `skipTrash` it deletes at once. Otherwise it soft-deletes to the first candidate the server does not report as existing, every earlier candidate having been reported existing |
| CoreClient.DeleteDefault | src/WebHdfs.Core/WebHdfsClient.cs:384-387 | The one-argument delete goes through the trash |
| LegacyClient.Read | src/WebHdfs/WebHdfsClient.cs:119-129 | One GET of the operation to the path as given, leading slashes kept. The result is null exactly on a 404 and the decoded entity exactly on a decodable 2xx JSON body. Any other response fails carrying it |
| LegacyClient.OpenFile | src/WebHdfs/WebHdfsClient.cs:232-243 | With the corrected target: one GET to the OPEN target, with `offset` and `length` present exactly when positive. The body comes back whatever the status |
| LegacyClient.OpenFileAsWritten | src/WebHdfs/WebHdfsClient.cs:232-243 | As written: without a positive bound the target text is the plain OPEN target, and with only a positive offset it is the plain target followed by the whole corrected target. A positive length doubles the text sent without one and appends `&length=<length>` |
| LegacyClient.OpenAsWrittenDiffers | src/WebHdfs/WebHdfsClient.cs:235-236 | With a positive offset the as-written target text differs from the rendering of the corrected target |
| LegacyClient.CreateDirectory | src/WebHdfs/WebHdfsClient.cs:254-264 | Always one MKDIRS PUT, whatever the permission text, carrying `permission` exactly when the text is not blank. The request goes to the given path as written, leading '/'s kept ("" for a blank path), and the query sends the client's user as `user.name` when it is set |
| LegacyClient.Rename | src/WebHdfs/WebHdfsClient.cs:272-276 | One RENAME PUT naming the new path as `destination`. The outcome is the response read as a `boolean` result. The request goes to the given path as written, leading '/'s kept ("" for a blank path), and the query sends the client's user as `user.name` when it is set |
| LegacyClient.DeletePath | src/WebHdfs/WebHdfsClient.cs:297-301 | One DELETE with `recursive` as "true"/"false", and no trash step. The request goes to the given path as written, leading '/'s kept ("" for a blank path), and the query sends the client's user as `user.name` when it is set |
| LegacyClient.DeleteDefault | src/WebHdfs/WebHdfsClient.cs:284-287 | The one-argument delete is one DELETE with `recursive` "false", and the response read as a `boolean` result is the outcome. The request goes to the given path as written, leading '/'s kept ("" for a blank path), and the query sends the client's user as `user.name` when it is set |
| LegacyClient.SetPermissions | src/WebHdfs/WebHdfsClient.cs:311-315 | One SETPERMISSION PUT, with no check, carrying `permission` exactly when it is not null. The outcome is the response read as a `boolean` result. The request goes to the given path as written, leading '/'s kept ("" for a blank path), and the query sends the client's user as `user.name` when it is set |
| LegacyClient.SetOwner | src/WebHdfs/WebHdfsClient.cs:323-327 | One SETOWNER PUT with `owner` only. The outcome is the response read as a `boolean` result. The request goes to the given path as written, leading '/'s kept ("" for a blank path), and the query sends the client's user as `user.name` when it is set |
| LegacyClient.SetGroup | src/WebHdfs/WebHdfsClient.cs:335-339 | One SETOWNER PUT with `group` only. The outcome is the response read as a `boolean` result. The request goes to the given path as written, leading '/'s kept ("" for a blank path), and the query sends the client's user as `user.name` when it is set |
| LegacyClient.SetReplication | src/WebHdfs/WebHdfsClient.cs:347-351 | One SETREPLICATION PUT whose `replication` parses back to the factor. The outcome is the response read as a `boolean` result. The request goes to the given path as written, leading '/'s kept ("" for a blank path), and the query sends the client's user as `user.name` when it is set |
| LegacyClient.SetAccessTime | src/WebHdfs/WebHdfsClient.cs:360-364 | One SETTIMES PUT with `accesstime` only. The outcome is the response read as a `boolean` result. The request goes to the given path as written, leading '/'s kept ("" for a blank path), and the query sends the client's user as `user.name` when it is set |
| LegacyClient.SetModificationTime | src/WebHdfs/WebHdfsClient.cs:373-377 | One SETTIMES PUT with `modificationtime` only. The outcome is the response read as a `boolean` result. The request goes to the given path as written, leading '/'s kept ("" for a blank path), and the query sends the client's user as `user.name` when it is set |
| LegacyClient.CreateFile | src/WebHdfs/WebHdfsClient.cs:421-435 | The two-phase CREATE, true exactly when the second status is 201 |
| LegacyClient.AppendFile | src/WebHdfs/WebHdfsClient.cs:481-495 | The two-phase APPEND, true exactly when the second status is 200 |

## Left out

- The HTTP transport is left out: connections, timeouts, cancellation tokens, base addresses, completion options and disposal. The server is a function parameter, and the same request always gets the same response within one operation.
- URL encoding is left out. Query values are kept as plain text, and `Render` joins them unescaped.
- Content encodings and the bytes of uploaded or downloaded files are left out. A request records only whether content is attached.
- Local file-system work is left out: `File.Exists`, `File.OpenWrite`, stream copying, `Directory.CreateDirectory`, `UploadFileAsync` and `UploadDirectoryAsync`. The directory walk records the local actions it asks for instead of performing them.
- `GetHomeDirectoryAsync` is left out. It is a cache of one GET whose result no modelled operation reads.
- `FileStatus`, `FileChecksum` and `BooleanResult` are reduced to what the model reads, because their source is not part of this model. So are the legacy entities (`DirectoryListing`, `DirectoryEntry`, the legacy `ContentSummary` and `FileChecksum`), whose decoders are parameters of `LegacyClient.Read`.
- The legacy client throws `WebHdfs.WebHdfsException`, whose source is not part of this model. Its failures are the same abstract `Protocol` failure, and `HdfsException` is modelled as a class on its own.
- `Regex.Unescape` is a parameter, because it is library code. It is `None` where it throws.
- `Environment.NewLine` is taken as "\n". `HttpStatusCode.ToString()` picks one name for the codes that have two.
- Paths use '/' as the only separator, in `Path.GetFileName`, `Path.GetFileNameWithoutExtension`, `Path.GetExtension` and `Path.Combine`.
- A null string argument is modelled (as `Option`) only for the setters whose parameter may be null (`owner`, `group`, the times, the legacy permissions). Elsewhere it would throw inside Flurl or .NET before any request.
- The `return default(T)` after a non-2xx status in `callWebHDFS` is unreachable, because `getResponseMessageAsync` has already thrown. It is not modelled.
- A `JObject.Parse` that returns null is not modelled: a body either parses to an object or fails with the parsing error.
- Inside the directory walk, each file download is recorded as an action that succeeds. Its own checks (the destination already existing) and its OPEN request belong to `CoreClient.DownloadFile` and local file-system work.
- The trash search assumes that the server reports only finitely many paths as existing (the ghost set `existing` of `CoreClient.DeleteFile`). Without that assumption the loop need not end, and the source's `int` counter (src/WebHdfs.Core/WebHdfsClient.cs:406) would wrap around.
- `GetDirectoryItemsAsync` of the current client never calls `SetDirectoryPath`, so a listing it returns has no directory path and no full paths. The model follows the code. `SetDirectoryPath` is modelled on its own.
- The current client's `createFile` takes a `permissions` argument and neither checks nor sends it. The model follows the code.
- CoreClient.CreateDirectory: models the corrected permission check, `Permissions.CheckPermissions`. The code as written is `CoreClient.CreateDirectoryAsWritten`.
- CoreClient.SetPermissions: models the corrected permission check. The code as written is `CoreClient.SetPermissionsAsWritten`.
- CoreClient.OpenRequest: builds the corrected OPEN target, `Query.OpenUrl`. The text the code as written sends is in `CoreClient.OpenFileReadAsWritten`.
- CoreClient.OpenFileRead: sends the corrected OPEN target. The code as written is `CoreClient.OpenFileReadAsWritten`.
- LegacyClient.OpenFile: sends the corrected OPEN target. The code as written is `LegacyClient.OpenFileAsWritten`.
- LegacyClient.OpenFile: the source sends OPEN through a new `HttpClient` built from the inner handler, with no base address (src/WebHdfs/WebHdfsClient.cs:239-241), so its relative target has nothing to resolve against. The model sends it to the server like every other request.
- Permissions.CheckPermissions: accepts one- and two-digit values such as "7" and "75". It follows the error text, a radix-8 integer from 0 to 1777, which WebHDFS's own permission parameter also admits. A reading that demands three or four digits is not modelled.
- Entities.DecodeBoolean: the source of `BooleanResult` is not part of this model, so the rule is assumed. Newtonsoft's `Value<bool>` would also convert some strings and numbers, and such bodies are outside the model.
- Http.StatusText: uses the names of the .NET Framework `HttpStatusCode` enum. Newer runtimes also name 308, 422 and 429, which appear here as numbers.
- JsonValues.TokenToInteger: JSON numbers are integers only. Newtonsoft's `Value<int>` and `Value<long>` also convert a fractional number, rounding it. Such bodies are outside the model.
- `WebHdfsException`'s constructors are modelled in `Diagnostics`, and `callWebHDFS`'s failures as the abstract `Protocol` value (the response and the optional message). The step that builds the exception object from that value is not stated as a member.

## Findings

| source | as written | input that shows it | evidently intended | confidence | as-written member | corrected member |
|---|---|---|---|---|---|---|
| src/WebHdfs.Core/WebHdfsClient.cs:791-799 | The check throws when the value MATCHES `^[01][0-7]{0,3}$`. It passes the parameter name as the message and the explanation as the parameter name | "1777" is rejected though the error text admits it. "2000" is accepted though the text does not admit it | Reject what is not a radix-8 integer between 0 and 1777, with the explanation as the message. One- and two-digit values are admitted too, as the error text says | not executed | Permissions.ThrowIfPermissionsNotValid | Permissions.CheckPermissions |
| src/WebHdfs.Core/WebHdfsClient.cs:257-260 | `uri += uri.SetQueryParam(...)` appends the whole re-rendered target to the old one | offset 5 gives `p?op=OPEN` followed by `p?op=OPEN&offset=5` | Set `offset` and `length` on the target once each | not executed | Query.OpenOffsetDoublesTarget | Query.OpenUrlRenders |
| src/WebHdfs/WebHdfsClient.cs:235-238 | The legacy `OpenFile` builds its target the same way, with `uri += uri.SetQueryParam(...)` | offset 5 gives the OPEN target followed by the OPEN target with `offset=5` | Set `offset` and `length` on the target once each | not executed | LegacyClient.OpenAsWrittenDiffers | LegacyClient.OpenFile |
| src/WebHdfs.Core/WebHdfsException.cs:39-41 | The response-only constructor passes a null message, and `base.Message` then returns the runtime's default text, which `Message` prints as the first line | any response: the message starts "Exception of type 'WebHdfs.Core.WebHdfsException' was thrown." | A null message counts as blank, so the message starts with the status line | not executed | Diagnostics.ResponseOnlyOpensWithDefault | Diagnostics.IntendedResponseOnlyOpensWithStatus |

The client modules use the corrected members. `CoreClient.CreateDirectory` and
`CoreClient.SetPermissions` apply `Permissions.CheckPermissions`. Both clients' OPEN
requests carry `Query.OpenUrl`. The code as written is modelled next to them:
`CoreClient.CreateDirectoryAsWritten`, `CoreClient.SetPermissionsAsWritten`,
`CoreClient.OpenFileReadAsWritten` and `LegacyClient.OpenFileAsWritten`. The lemmas
`CoreClient.PermissionClientsDiffer`, `CoreClient.OpenAsWrittenDiffers` and
`LegacyClient.OpenAsWrittenDiffers` show where the two part.
