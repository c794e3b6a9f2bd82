/**
 * The entities the current client decodes from response documents: `ContentSummary`,
 * `DirectoryItems` with its `Files`/`Directories` views and the full-path back-fill,
 * and the records whose source is not part of this model (`FileStatus`,
 * `FileChecksum`, `BooleanResult`), kept to the fields the rest of the model reads.
 * A decoder that throws is a `None`.
 */
module Entities {
  import opened Opt
  import opened Text
  import opened JsonValues
  import Query

  // ---------------------------------------------------------------- records whose source is not modelled

  /** A directory entry: its name relative to the listed directory, its type, and the full path once known. */
  datatype FileStatus = FileStatus(pathSuffix: string, fileType: string, fullPath: Option<string>)

  /** Reads the two string members the client uses; the full path is left unset. */
  function DecodeFileStatus(o: JObject): (r: FileStatus)
    ensures r.fullPath.None?
    ensures "pathSuffix" in o && o["pathSuffix"].JStr? ==> r.pathSuffix == o["pathSuffix"].s
    ensures "type" in o && o["type"].JStr? ==> r.fileType == o["type"].s
  {
    FileStatus(StringMember(o, "pathSuffix"), StringMember(o, "type"), None)
  }

  /** A checksum record, kept as the document it was read from. */
  datatype FileChecksum = FileChecksum(document: JObject)

  function DecodeFileChecksum(o: JObject): Option<FileChecksum> {
    Some(FileChecksum(o))
  }

  /** `BooleanResult`: the `boolean` member; a missing member reads as false, a non-boolean one throws. */
  function DecodeBoolean(o: JObject): (r: Option<bool>)
    ensures "boolean" !in o ==> r == Some(false)
    ensures "boolean" in o ==> (r.Some? <==> o["boolean"].JBool?)
    ensures "boolean" in o && r.Some? ==> r.value == o["boolean"].b
  {
    if "boolean" !in o then Some(false)
    else match o["boolean"]
      case JBool(b) => Some(b)
      case _ => None
  }

  // ---------------------------------------------------------------- ContentSummary

  /** The six counters; three are `int` and three are `long` in the source. */
  datatype ContentSummary = ContentSummary(
    directoryCount: int32,
    fileCount: int32,
    length: int64,
    quota: int32,
    spaceConsumed: int64,
    spaceQuota: int64)

  const Int32Keys: set<string> := {"directoryCount", "fileCount", "quota"}
  const Int64Keys: set<string> := {"length", "spaceConsumed", "spaceQuota"}
  const SummaryKeys: set<string> := Int32Keys + Int64Keys

  /** The counter a key names. */
  function SummaryField(cs: ContentSummary, key: string): int
    requires key in SummaryKeys
  {
    match key
    case "directoryCount" => cs.directoryCount as int
    case "fileCount" => cs.fileCount as int
    case "length" => cs.length as int
    case "quota" => cs.quota as int
    case "spaceConsumed" => cs.spaceConsumed as int
    case _ => cs.spaceQuota as int
  }

  /** What `Value<int>` or `Value<long>` reads for a key, by the width of the counter it names. */
  function KeyReading(o: JObject, key: string): (r: Option<int>)
    requires key in SummaryKeys
    ensures key !in o ==> r == Some(0)
    ensures key in Int32Keys && r.Some? ==> -0x8000_0000 <= r.value < 0x8000_0000
    ensures key in Int64Keys && r.Some? ==> -0x8000_0000_0000_0000 <= r.value < 0x8000_0000_0000_0000
  {
    if key in Int32Keys then
      (match ValueInt32(o, key) case Some(n) => Some(n as int) case None => None)
    else
      (match ValueInt64(o, key) case Some(n) => Some(n as int) case None => None)
  }

  /** The object the counters are read from: the `ContentSummary` member, or the root when that is missing or null. */
  function SummarySource(root: JObject): (r: Option<JObject>)
    ensures "ContentSummary" !in root ==> r == Some(root)
    ensures "ContentSummary" in root && root["ContentSummary"].JObj? ==> r == Some(root["ContentSummary"].members)
    ensures "ContentSummary" in root && root["ContentSummary"].JNull? ==> r == Some(root)
    ensures r.None? <==> "ContentSummary" in root && !root["ContentSummary"].JObj? && !root["ContentSummary"].JNull?
  {
    match ValueObject(root, "ContentSummary")
    case Null => Some(root)
    case Value(inner) => Some(inner)
    case CastError => None
  }

  /** Reads the six counters, each from its own key; any unreadable counter makes the read throw. */
  function ReadSummary(o: JObject): (r: Option<ContentSummary>)
    ensures r.Some? <==> forall k :: k in SummaryKeys ==> KeyReading(o, k).Some?
    ensures r.Some? ==> forall k :: k in SummaryKeys ==> SummaryField(r.value, k) == KeyReading(o, k).value
  {
    var dc := ValueInt32(o, "directoryCount");
    var fc := ValueInt32(o, "fileCount");
    var ln := ValueInt64(o, "length");
    var qu := ValueInt32(o, "quota");
    var sc := ValueInt64(o, "spaceConsumed");
    var sq := ValueInt64(o, "spaceQuota");
    assert KeyReading(o, "directoryCount").Some? <==> dc.Some?;
    assert KeyReading(o, "fileCount").Some? <==> fc.Some?;
    assert KeyReading(o, "length").Some? <==> ln.Some?;
    assert KeyReading(o, "quota").Some? <==> qu.Some?;
    assert KeyReading(o, "spaceConsumed").Some? <==> sc.Some?;
    assert KeyReading(o, "spaceQuota").Some? <==> sq.Some?;
    if dc.Some? && fc.Some? && ln.Some? && qu.Some? && sc.Some? && sq.Some? then
      Some(ContentSummary(dc.value, fc.value, ln.value, qu.value, sc.value, sq.value))
    else
      None
  }

  /** `ContentSummary.Parse`: counters from the envelope when there is one, from the root otherwise. */
  function ParseContentSummary(root: JObject): (r: Option<ContentSummary>)
    ensures ("ContentSummary" !in root || root["ContentSummary"].JNull?) ==> r == ReadSummary(root)
    ensures "ContentSummary" in root && root["ContentSummary"].JObj? ==> r == ReadSummary(root["ContentSummary"].members)
    ensures "ContentSummary" in root && !root["ContentSummary"].JObj? && !root["ContentSummary"].JNull? ==> r.None?
  {
    match SummarySource(root)
    case Some(o) => ReadSummary(o)
    case None => None
  }

  /** Wrapping a document in a `ContentSummary` envelope does not change what is parsed. */
  lemma EnvelopeTransparent(x: JObject)
    requires "ContentSummary" !in x
    ensures ParseContentSummary(map["ContentSummary" := JObj(x)]) == ParseContentSummary(x)
  {
  }

  /** A counter depends on its own key only: two documents that agree there agree on that counter. */
  lemma SummaryFieldLocal(o1: JObject, o2: JObject, key: string)
    requires key in SummaryKeys
    requires key in o1 <==> key in o2
    requires key in o1 ==> o1[key] == o2[key]
    requires ReadSummary(o1).Some? && ReadSummary(o2).Some?
    ensures SummaryField(ReadSummary(o1).value, key) == SummaryField(ReadSummary(o2).value, key)
  {
    assert KeyReading(o1, key) == KeyReading(o2, key);
  }

  /** Missing counters read as zero. */
  lemma EmptySummaryIsZero()
    ensures ParseContentSummary(map[]) == Some(ContentSummary(0, 0, 0, 0, 0, 0))
  {
  }

  /** A 32-bit counter beyond the `int` range makes the parse throw, even when the 64-bit ones could hold it. */
  lemma WideDirectoryCountFails(o: JObject, n: int)
    requires "ContentSummary" !in o
    requires "directoryCount" in o && o["directoryCount"] == JInt(n) && n >= 0x8000_0000
    ensures ParseContentSummary(o).None?
  {
    assert KeyReading(o, "directoryCount").None?;
  }

  // ---------------------------------------------------------------- DirectoryItems

  /** A listing: the directory path once set, and the entries once parsed (None before `Parse`). */
  datatype DirectoryItems = DirectoryItems(directoryPath: Option<string>, entries: Option<seq<FileStatus>>)

  /** One `FileStatus` per array element, in order; an element that is not an object makes the decode throw. */
  function DecodeEntries(items: seq<Json>): (r: Option<seq<FileStatus>>)
    ensures r.Some? <==> forall i :: 0 <= i < |items| ==> items[i].JObj?
    ensures r.Some? ==> |r.value| == |items|
    ensures r.Some? ==> forall i :: 0 <= i < |items| ==> r.value[i] == DecodeFileStatus(items[i].members)
    decreases |items|
  {
    if |items| == 0 then Some([])
    else match items[0]
      case JObj(m) =>
        (match DecodeEntries(items[1..])
         case Some(rest) => Some([DecodeFileStatus(m)] + rest)
         case None => None)
      case _ => None
  }

  /** `DirectoryItems.Parse`: the `FileStatus` array inside the `FileStatuses` object; the directory path is kept. */
  function ParseDirectoryItems(d: DirectoryItems, root: JObject): (r: Option<DirectoryItems>)
    ensures r.Some? <==>
      && "FileStatuses" in root && root["FileStatuses"].JObj?
      && var fss := root["FileStatuses"].members;
      && "FileStatus" in fss && fss["FileStatus"].JArr?
      && forall i :: 0 <= i < |fss["FileStatus"].items| ==> fss["FileStatus"].items[i].JObj?
    ensures r.Some? ==>
      && r.value.directoryPath == d.directoryPath
      && r.value.entries.Some?
      && var items := root["FileStatuses"].members["FileStatus"].items;
      && |r.value.entries.value| == |items|
      && forall i :: 0 <= i < |items| ==> r.value.entries.value[i] == DecodeFileStatus(items[i].members)
  {
    match ValueObject(root, "FileStatuses")
    case Value(fss) =>
      (match ValueArray(fss, "FileStatus")
       case Value(items) =>
         (match DecodeEntries(items)
          case Some(es) => Some(d.(entries := Some(es)))
          case None => None)
       case _ => None)
    case _ => None
  }

  /** The entries of one type, in listing order (`Where(fs => fs.Type == t)`). */
  function OfType(es: seq<FileStatus>, t: string): (r: seq<FileStatus>)
    ensures |r| <= |es|
    ensures forall i :: 0 <= i < |r| ==> r[i].fileType == t
    ensures forall x :: x in r <==> x in es && x.fileType == t
    decreases |es|
  {
    if |es| == 0 then []
    else if es[0].fileType == t then [es[0]] + OfType(es[1..], t)
    else OfType(es[1..], t)
  }

  /** Filtering a concatenation filters each part: the kept entries stay in their order. */
  lemma {:induction false} OfTypeAppend(a: seq<FileStatus>, b: seq<FileStatus>, t: string)
    ensures OfType(a + b, t) == OfType(a, t) + OfType(b, t)
    decreases |a|
  {
    if |a| > 0 {
      assert (a + b)[1..] == a[1..] + b;
      OfTypeAppend(a[1..], b, t);
    } else {
      assert a + b == b;
    }
  }

  /** A single entry is kept exactly when it has the type. */
  lemma OfTypeSingle(x: FileStatus, t: string)
    ensures OfType([x], t) == if x.fileType == t then [x] else []
  {
  }

  const FileType: string := "FILE"
  const DirectoryType: string := "DIRECTORY"

  /** `Files`: the FILE entries; reading it before `Parse` throws. */
  function Files(d: DirectoryItems): (r: Option<seq<FileStatus>>)
    ensures r.Some? <==> d.entries.Some?
    ensures r.Some? ==> r.value == OfType(d.entries.value, FileType)
  {
    match d.entries
    case Some(es) => Some(OfType(es, FileType))
    case None => None
  }

  /** `Directories`: the DIRECTORY entries; reading it before `Parse` throws. */
  function Directories(d: DirectoryItems): (r: Option<seq<FileStatus>>)
    ensures r.Some? <==> d.entries.Some?
    ensures r.Some? ==> r.value == OfType(d.entries.value, DirectoryType)
  {
    match d.entries
    case Some(es) => Some(OfType(es, DirectoryType))
    case None => None
  }

  /**
   * Files and directories never share an entry, entries of any other type are in
   * neither view, and together the views are no longer than the listing.
   */
  lemma {:induction false} FilesDirectoriesPartition(es: seq<FileStatus>)
    ensures forall x :: x in OfType(es, FileType) ==> x !in OfType(es, DirectoryType)
    ensures forall x :: x in es && x.fileType != FileType && x.fileType != DirectoryType ==>
      x !in OfType(es, FileType) && x !in OfType(es, DirectoryType)
    ensures |OfType(es, FileType)| + |OfType(es, DirectoryType)| <= |es|
    decreases |es|
  {
    if |es| > 0 {
      FilesDirectoriesPartition(es[1..]);
    }
  }

  /** One entry with its full path set to `p` joined with its name; every other field unchanged. */
  function Backfill(x: FileStatus, p: string): (r: FileStatus)
    ensures r.pathSuffix == x.pathSuffix && r.fileType == x.fileType
    ensures r.fullPath == Some(Query.AppendPathSegment(p, x.pathSuffix))
  {
    x.(fullPath := Some(Query.AppendPathSegment(p, x.pathSuffix)))
  }

  /** Every entry back-filled, in order. */
  function WithFullPaths(es: seq<FileStatus>, p: string): (r: seq<FileStatus>)
    ensures |r| == |es|
    ensures forall i :: 0 <= i < |es| ==> r[i] == Backfill(es[i], p)
    decreases |es|
  {
    if |es| == 0 then [] else [Backfill(es[0], p)] + WithFullPaths(es[1..], p)
  }

  /** `SetDirectoryPath(p)`: records `p`; when entries have been parsed, back-fills their full paths. */
  function SetDirectoryPath(d: DirectoryItems, p: string): (r: DirectoryItems)
    ensures r.directoryPath == Some(p)
    ensures d.entries.None? ==> r.entries.None?
    ensures d.entries.Some? ==> r.entries == Some(WithFullPaths(d.entries.value, p))
  {
    DirectoryItems(Some(p), match d.entries case Some(es) => Some(WithFullPaths(es, p)) case None => None)
  }

  /** Every back-filled path starts with the directory path. */
  lemma FullPathsUnderDirectory(es: seq<FileStatus>, p: string)
    ensures forall x :: x in WithFullPaths(es, p) ==> x.fullPath.Some? && StartsWith(x.fullPath.value, p)
  {
  }

  /** Setting the directory path twice leaves the listing as setting it once to the second path. */
  lemma SetDirectoryPathLastWins(d: DirectoryItems, p: string, q: string)
    ensures SetDirectoryPath(SetDirectoryPath(d, p), q) == SetDirectoryPath(d, q)
  {
    if d.entries.Some? {
      var es := d.entries.value;
      forall i | 0 <= i < |es|
        ensures Backfill(Backfill(es[i], p), q) == Backfill(es[i], q)
      {
        BackfillLastWins(es[i], p, q);
      }
      assert WithFullPaths(WithFullPaths(es, p), q) == WithFullPaths(es, q);
    }
  }

  lemma BackfillLastWins(x: FileStatus, p: string, q: string)
    ensures Backfill(Backfill(x, p), q) == Backfill(x, q)
  {
  }

  /** Back-filling commutes with the typed views: the files of the back-filled listing are the back-filled files. */
  lemma {:induction false} OfTypeWithFullPaths(es: seq<FileStatus>, p: string, t: string)
    ensures OfType(WithFullPaths(es, p), t) == WithFullPaths(OfType(es, t), p)
    decreases |es|
  {
    if |es| > 0 {
      OfTypeWithFullPaths(es[1..], p, t);
      if es[0].fileType == t {
        var g := OfType(es[1..], t);
        assert OfType(es, t) == [es[0]] + g;
        assert ([es[0]] + g)[1..] == g;
      }
    }
  }

  /** After `SetDirectoryPath`, the files are the same entries, now with their full paths. */
  lemma FilesAfterSetDirectoryPath(d: DirectoryItems, p: string)
    requires d.entries.Some?
    ensures Files(SetDirectoryPath(d, p)) == Some(WithFullPaths(Files(d).value, p))
    ensures Directories(SetDirectoryPath(d, p)) == Some(WithFullPaths(Directories(d).value, p))
  {
    OfTypeWithFullPaths(d.entries.value, p, FileType);
    OfTypeWithFullPaths(d.entries.value, p, DirectoryType);
  }
}
