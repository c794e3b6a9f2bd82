/**
 * `DownloadDirectoryAsync` of the current client over an abstract remote tree: check
 * both paths, create the local directory, list the remote one, download its files in
 * listing order, then descend into its subdirectories in listing order. The local file
 * system is reduced to the actions the walk asks of it.
 */
module Walker {
  import opened Opt
  import opened Text
  import opened Failures
  import Entities
  import Query

  /**
   * What listing a remote directory yields: a 404 (`GetDirectoryItemsAsync` returns
   * null), another failure, or the entries, each carrying the listing of what is below it.
   */
  datatype Listing =
    | Missing
    | Unreadable(failure: Failure)
    | Listed(entries: seq<Node>)

  datatype Node = Node(status: Entities.FileStatus, below: Listing)

  /** What the walk asks of the local side, in order. */
  datatype Action =
    | MakeLocalDirectory(local: string)
    | DownloadFile(remote: string, local: string)

  const EmptyPathMessage: string := "Path must not be empty"

  /** `Path.Combine(a, b)` with '/' as the separator: an empty part yields the other, a rooted `b` replaces `a`. */
  function Combine(a: string, b: string): (r: string)
    ensures |b| > 0 && b[0] != '/' && |a| > 0 ==> StartsWith(r, a) && EndsWith(r, b)
    ensures |b| == 0 ==> r == a
  {
    if |b| == 0 then a
    else if |a| == 0 || b[0] == '/' then b
    else if a[|a| - 1] == '/' then a + b
    else a + "/" + b
  }

  /**
   * `Path.Combine` puts exactly one separator between a directory and a relative name:
   * none of its own when the directory already ends with one. An empty directory or a
   * rooted name yields the name alone.
   */
  lemma CombineSeparators(a: string, b: string)
    ensures |b| > 0 && b[0] != '/' && |a| > 0 ==>
      || (a[|a| - 1] == '/' && Combine(a, b) == a + b)
      || (a[|a| - 1] != '/' && Combine(a, b) == a + "/" + b)
    ensures |b| > 0 && (|a| == 0 || b[0] == '/') ==> Combine(a, b) == b
  {
  }

  /** The downloads of the FILE entries of one listing, in order. */
  function FileDownloads(remote: string, local: string, nodes: seq<Node>): (r: seq<Action>)
    ensures |r| <= |nodes|
    ensures forall i :: 0 <= i < |r| ==> r[i].DownloadFile?
    decreases |nodes|
  {
    if |nodes| == 0 then []
    else
      var s := nodes[0].status;
      var rest := FileDownloads(remote, local, nodes[1..]);
      if s.fileType == Entities.FileType then
        [DownloadFile(Query.AppendPathSegment(remote, s.pathSuffix), Combine(local, s.pathSuffix))] + rest
      else rest
  }

  /** The walk of one remote directory: the actions it performed and how it ended. */
  function Walk(remote: string, local: string, listing: Listing): (r: (seq<Action>, Outcome<bool>))
    ensures IsBlank(remote) ==> r == ([], Err(InvalidArgument(EmptyPathMessage, "remoteDirectory")))
    ensures !IsBlank(remote) && IsBlank(local) ==> r == ([], Err(InvalidArgument(EmptyPathMessage, "localDirectory")))
    ensures !IsBlank(remote) && !IsBlank(local) ==> |r.0| >= 1 && r.0[0] == MakeLocalDirectory(local)
    ensures listing.Missing? && !IsBlank(remote) && !IsBlank(local) ==>
      r == ([MakeLocalDirectory(local)], Err(DirectoryNotFound("Directory \"" + remote + "\" not exists")))
    ensures listing.Unreadable? && !IsBlank(remote) && !IsBlank(local) ==>
      r == ([MakeLocalDirectory(local)], Err(listing.failure))
    ensures r.1.Ok? ==> r.1.value
    decreases listing, 1, 0
  {
    if IsBlank(remote) then ([], Err(InvalidArgument(EmptyPathMessage, "remoteDirectory")))
    else if IsBlank(local) then ([], Err(InvalidArgument(EmptyPathMessage, "localDirectory")))
    else
      var made := [MakeLocalDirectory(local)];
      match listing
      case Missing => (made, Err(DirectoryNotFound("Directory \"" + remote + "\" not exists")))
      case Unreadable(f) => (made, Err(f))
      case Listed(nodes) =>
        var below := WalkDirectories(remote, local, listing, 0);
        (made + FileDownloads(remote, local, nodes) + below.0, below.1)
  }

  /**
   * The walks into the DIRECTORY entries of a listing from position `i` on, in order,
   * stopping at the first that fails.
   */
  function WalkDirectories(remote: string, local: string, listing: Listing, i: nat): (r: (seq<Action>, Outcome<bool>))
    requires listing.Listed? && i <= |listing.entries|
    ensures r.1.Ok? ==> r.1.value
    decreases listing, 0, |listing.entries| - i
  {
    if i == |listing.entries| then ([], Ok(true))
    else
      var n := listing.entries[i];
      if n.status.fileType != Entities.DirectoryType then WalkDirectories(remote, local, listing, i + 1)
      else
        var w := Walk(Query.AppendPathSegment(remote, n.status.pathSuffix), Combine(local, n.status.pathSuffix), n.below);
        if w.1.Err? then w
        else
          var rest := WalkDirectories(remote, local, listing, i + 1);
          (w.0 + rest.0, rest.1)
  }

  /** The walk into the subdirectory of `remote` that node `n` names. */
  function SubWalk(remote: string, local: string, n: Node): (seq<Action>, Outcome<bool>)
  {
    Walk(Query.AppendPathSegment(remote, n.status.pathSuffix), Combine(local, n.status.pathSuffix), n.below)
  }

  /**
   * A subdirectory walk that fails fails the whole walk: the walk ends with that same
   * failure when every earlier subdirectory walk succeeded, and with an earlier one's
   * failure otherwise.
   */
  lemma WalkFailsWithSubwalk(remote: string, local: string, listing: Listing, j: nat)
    requires !IsBlank(remote) && !IsBlank(local) && listing.Listed? && j < |listing.entries|
    requires listing.entries[j].status.fileType == Entities.DirectoryType
    requires SubWalk(remote, local, listing.entries[j]).1.Err?
    ensures Walk(remote, local, listing).1.Err?
    ensures EarlierSubwalksSucceed(remote, local, listing, 0, j) ==>
      Walk(remote, local, listing).1 == SubWalk(remote, local, listing.entries[j]).1
  {
    var es := listing.entries;
    var f := seq(|es| + 1, k requires 0 <= k <= |es| => WalkDirectories(remote, local, listing, k).1);
    var g := seq(|es|, k requires 0 <= k < |es| =>
      if es[k].status.fileType == Entities.DirectoryType then SubWalk(remote, local, es[k]).1 else Ok(true));
    forall k: nat | k <= j
      ensures Chains(f, g, k)
    {
      DirectoriesStep(remote, local, listing, k);
    }
    FirstFailureWins(f, g, 0, j);
    assert f[0] == WalkDirectories(remote, local, listing, 0).1;
  }

  /** Subdirectory walks `i` to `j - 1` that are walked all succeed. */
  predicate EarlierSubwalksSucceed(remote: string, local: string, listing: Listing, i: nat, j: nat)
    requires listing.Listed? && j <= |listing.entries|
  {
    forall k :: i <= k < j && listing.entries[k].status.fileType == Entities.DirectoryType ==>
      SubWalk(remote, local, listing.entries[k]).1.Ok?
  }

  /** How one subdirectory step decides the outcome of the remaining walks. */
  lemma DirectoriesStep(remote: string, local: string, listing: Listing, i: nat)
    requires listing.Listed? && i < |listing.entries|
    ensures var n := listing.entries[i];
      WalkDirectories(remote, local, listing, i).1 ==
        if n.status.fileType == Entities.DirectoryType && SubWalk(remote, local, n).1.Err? then SubWalk(remote, local, n).1
        else WalkDirectories(remote, local, listing, i + 1).1
  {
    var n := listing.entries[i];
    assert SubWalk(remote, local, n) == Walk(Query.AppendPathSegment(remote, n.status.pathSuffix), Combine(local, n.status.pathSuffix), n.below);
  }

  /** Step `k` of a chain: it ends with `g[k]` when that fails, and otherwise goes on to `f[k + 1]`. */
  predicate Chains(f: seq<Outcome<bool>>, g: seq<Outcome<bool>>, k: nat)
    requires k < |g| && |f| == |g| + 1
  {
    f[k] == if g[k].Err? then g[k] else f[k + 1]
  }

  /**
   * In a chain of steps, a failing step `j` makes `f[i]` fail, and with that same
   * failure when no step before it fails.
   */
  lemma {:induction false} FirstFailureWins(f: seq<Outcome<bool>>, g: seq<Outcome<bool>>, i: nat, j: nat)
    requires i <= j < |g| && |f| == |g| + 1 && g[j].Err?
    requires forall k: nat :: i <= k <= j ==> Chains(f, g, k)
    ensures f[i].Err?
    ensures (forall k :: i <= k < j ==> g[k].Ok?) ==> f[i] == g[j]
    decreases j - i
  {
    assert Chains(f, g, i);
    if i < j {
      FirstFailureWins(f, g, i + 1, j);
    }
  }

  // ---------------------------------------------------------------- counting

  function CountDownloads(actions: seq<Action>): nat {
    if |actions| == 0 then 0 else (if actions[0].DownloadFile? then 1 else 0) + CountDownloads(actions[1..])
  }

  lemma {:induction false} CountDownloadsAppend(a: seq<Action>, b: seq<Action>)
    ensures CountDownloads(a + b) == CountDownloads(a) + CountDownloads(b)
    decreases |a|
  {
    if |a| > 0 {
      assert (a + b)[1..] == a[1..] + b;
      CountDownloadsAppend(a[1..], b);
    } else {
      assert a + b == b;
    }
  }

  /** The FILE entries of one listing. */
  function TopFiles(nodes: seq<Node>): nat
    decreases |nodes|
  {
    if |nodes| == 0 then 0
    else (if nodes[0].status.fileType == Entities.FileType then 1 else 0) + TopFiles(nodes[1..])
  }

  /** The FILE entries of a listing and of every DIRECTORY entry below it, however deep. */
  function FilesBelow(listing: Listing): nat
    decreases listing, 1, 0
  {
    match listing
    case Listed(nodes) => TopFiles(nodes) + FilesInDirectories(listing, 0)
    case _ => 0
  }

  /** The files below the DIRECTORY entries of a listing from position `i` on. */
  function FilesInDirectories(listing: Listing, i: nat): nat
    requires listing.Listed? && i <= |listing.entries|
    decreases listing, 0, |listing.entries| - i
  {
    if i == |listing.entries| then 0
    else
      var n := listing.entries[i];
      (if n.status.fileType == Entities.DirectoryType then FilesBelow(n.below) else 0)
      + FilesInDirectories(listing, i + 1)
  }

  lemma {:induction false} FileDownloadsCount(remote: string, local: string, nodes: seq<Node>)
    ensures CountDownloads(FileDownloads(remote, local, nodes)) == TopFiles(nodes)
    decreases |nodes|
  {
    if |nodes| > 0 {
      FileDownloadsCount(remote, local, nodes[1..]);
      var s := nodes[0].status;
      var rest := FileDownloads(remote, local, nodes[1..]);
      if s.fileType == Entities.FileType {
        var d := DownloadFile(Query.AppendPathSegment(remote, s.pathSuffix), Combine(local, s.pathSuffix));
        assert ([d] + rest)[1..] == rest;
      }
    }
  }

  /** A walk that succeeds downloads exactly one file per FILE entry anywhere in the tree. */
  lemma {:induction false} WalkDownloadsEveryFile(remote: string, local: string, listing: Listing)
    requires Walk(remote, local, listing).1.Ok?
    ensures CountDownloads(Walk(remote, local, listing).0) == FilesBelow(listing)
    decreases listing, 1, 0
  {
    var nodes := listing.entries;
    var made := [MakeLocalDirectory(local)];
    var files := FileDownloads(remote, local, nodes);
    var below := WalkDirectories(remote, local, listing, 0);
    assert Walk(remote, local, listing).0 == made + files + below.0;
    CountDownloadsAppend(made + files, below.0);
    CountDownloadsAppend(made, files);
    FileDownloadsCount(remote, local, nodes);
    WalkDirectoriesDownloadEveryFile(remote, local, listing, 0);
  }

  lemma {:induction false} WalkDirectoriesDownloadEveryFile(remote: string, local: string, listing: Listing, i: nat)
    requires listing.Listed? && i <= |listing.entries|
    requires WalkDirectories(remote, local, listing, i).1.Ok?
    ensures CountDownloads(WalkDirectories(remote, local, listing, i).0) == FilesInDirectories(listing, i)
    decreases listing, 0, |listing.entries| - i
  {
    if i < |listing.entries| {
      var n := listing.entries[i];
      if n.status.fileType == Entities.DirectoryType {
        var sub := Query.AppendPathSegment(remote, n.status.pathSuffix);
        var subLocal := Combine(local, n.status.pathSuffix);
        var w := Walk(sub, subLocal, n.below);
        var rest := WalkDirectories(remote, local, listing, i + 1);
        WalkDownloadsEveryFile(sub, subLocal, n.below);
        WalkDirectoriesDownloadEveryFile(remote, local, listing, i + 1);
        CountDownloadsAppend(w.0, rest.0);
      } else {
        WalkDirectoriesDownloadEveryFile(remote, local, listing, i + 1);
      }
    }
  }

  // ---------------------------------------------------------------- what is downloaded where

  /** The (remote, local) paths of the downloads among the actions, in order. */
  function Downloads(actions: seq<Action>): (r: seq<(string, string)>)
    ensures |r| == CountDownloads(actions)
    decreases |actions|
  {
    if |actions| == 0 then []
    else
      var here := if actions[0].DownloadFile? then [(actions[0].remote, actions[0].local)] else [];
      here + Downloads(actions[1..])
  }

  lemma {:induction false} DownloadsAppend(a: seq<Action>, b: seq<Action>)
    ensures Downloads(a + b) == Downloads(a) + Downloads(b)
    decreases |a|
  {
    if |a| > 0 {
      assert (a + b)[0] == a[0];
      assert (a + b)[1..] == a[1..] + b;
      DownloadsAppend(a[1..], b);
    } else {
      assert a + b == b;
    }
  }

  /** Where the FILE entries of one listing go: the remote path joined with the name, and the local one. */
  function TopFilePaths(remote: string, local: string, nodes: seq<Node>): seq<(string, string)>
    decreases |nodes|
  {
    if |nodes| == 0 then []
    else
      var s := nodes[0].status;
      (if s.fileType == Entities.FileType then [(Query.AppendPathSegment(remote, s.pathSuffix), Combine(local, s.pathSuffix))] else [])
      + TopFilePaths(remote, local, nodes[1..])
  }

  /**
   * Every FILE entry of the tree with the remote and local path it belongs at: the files
   * of a directory first, then those below its DIRECTORY entries, each in listing order.
   */
  function TreeFiles(remote: string, local: string, listing: Listing): seq<(string, string)>
    decreases listing, 1, 0
  {
    match listing
    case Listed(nodes) => TopFilePaths(remote, local, nodes) + SubtreeFiles(remote, local, listing, 0)
    case _ => []
  }

  /** The files below the DIRECTORY entries of a listing from position `i` on, with their paths. */
  function SubtreeFiles(remote: string, local: string, listing: Listing, i: nat): seq<(string, string)>
    requires listing.Listed? && i <= |listing.entries|
    decreases listing, 0, |listing.entries| - i
  {
    if i == |listing.entries| then []
    else
      var n := listing.entries[i];
      var here :=
        if n.status.fileType == Entities.DirectoryType then
          TreeFiles(Query.AppendPathSegment(remote, n.status.pathSuffix), Combine(local, n.status.pathSuffix), n.below)
        else [];
      here + SubtreeFiles(remote, local, listing, i + 1)
  }

  lemma {:induction false} FileDownloadsPaths(remote: string, local: string, nodes: seq<Node>)
    ensures Downloads(FileDownloads(remote, local, nodes)) == TopFilePaths(remote, local, nodes)
    decreases |nodes|
  {
    if |nodes| > 0 {
      FileDownloadsPaths(remote, local, nodes[1..]);
      var s := nodes[0].status;
      var rest := FileDownloads(remote, local, nodes[1..]);
      if s.fileType == Entities.FileType {
        var d := DownloadFile(Query.AppendPathSegment(remote, s.pathSuffix), Combine(local, s.pathSuffix));
        DownloadsAppend([d], rest);
        assert Downloads([d]) == [(d.remote, d.local)] by {
          assert [d][1..] == [];
        }
      }
    }
  }

  /**
   * A walk that succeeds downloads every FILE entry of the tree, each from the remote
   * path of its entry to the local path of the same name, in the tree order and nothing else.
   */
  lemma {:induction false} WalkDownloadsTreeFiles(remote: string, local: string, listing: Listing)
    requires Walk(remote, local, listing).1.Ok?
    ensures Downloads(Walk(remote, local, listing).0) == TreeFiles(remote, local, listing)
    decreases listing, 1, 0
  {
    var nodes := listing.entries;
    var made := [MakeLocalDirectory(local)];
    var files := FileDownloads(remote, local, nodes);
    var below := WalkDirectories(remote, local, listing, 0);
    assert Walk(remote, local, listing).0 == made + files + below.0;
    DownloadsAppend(made + files, below.0);
    DownloadsAppend(made, files);
    assert Downloads(made) == [] by {
      assert made[1..] == [];
    }
    FileDownloadsPaths(remote, local, nodes);
    WalkDirectoriesDownloadTreeFiles(remote, local, listing, 0);
  }

  lemma {:induction false} WalkDirectoriesDownloadTreeFiles(remote: string, local: string, listing: Listing, i: nat)
    requires listing.Listed? && i <= |listing.entries|
    requires WalkDirectories(remote, local, listing, i).1.Ok?
    ensures Downloads(WalkDirectories(remote, local, listing, i).0) == SubtreeFiles(remote, local, listing, i)
    decreases listing, 0, |listing.entries| - i
  {
    if i < |listing.entries| {
      var n := listing.entries[i];
      if n.status.fileType == Entities.DirectoryType {
        var sub := Query.AppendPathSegment(remote, n.status.pathSuffix);
        var subLocal := Combine(local, n.status.pathSuffix);
        var w := Walk(sub, subLocal, n.below);
        var rest := WalkDirectories(remote, local, listing, i + 1);
        WalkDownloadsTreeFiles(sub, subLocal, n.below);
        WalkDirectoriesDownloadTreeFiles(remote, local, listing, i + 1);
        DownloadsAppend(w.0, rest.0);
      } else {
        WalkDirectoriesDownloadTreeFiles(remote, local, listing, i + 1);
      }
    }
  }
}
