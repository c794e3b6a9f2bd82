/**
 * The soft-delete naming rule of the current client's `DeleteAsync`: the file keeps
 * its name in the trash folder when that is free, and otherwise becomes
 * `<stem>(c)<extension>` for the first c = 2, 3, ... not taken. Which names are taken
 * is a finite set; the .NET path helpers are modelled for '/' as the only separator.
 */
module Trash {
  import opened Text
  import opened Failures
  import Query

  /** The trash folder of a user: `/user/<user>/.Trash/Current`. */
  function TrashFolder(user: string): (r: string)
    ensures StartsWith(r, "/user/") && EndsWith(r, "/.Trash/Current")
  {
    var r := "/user/" + user + "/.Trash/Current";
    assert r[..6] == "/user/";
    assert r[|r| - 15..] == "/.Trash/Current";
    r
  }

  /** The position of the last `c` in `s`, or -1. */
  function LastIndexOf(s: string, c: char): (r: int)
    ensures -1 <= r < |s|
    ensures r >= 0 ==> s[r] == c
    ensures forall j :: r < j < |s| ==> s[j] != c
    ensures r < 0 <==> c !in s
    decreases |s|
  {
    if |s| == 0 then -1 else if s[|s| - 1] == c then |s| - 1 else LastIndexOf(s[..|s| - 1], c)
  }

  /** `Path.GetFileName`: the text after the last separator. */
  function FileName(path: string): (r: string)
    ensures forall i :: 0 <= i < |r| ==> r[i] != '/'
    ensures EndsWith(path, r)
    ensures |r| == |path| || path[|path| - |r| - 1] == '/'
  {
    path[LastIndexOf(path, '/') + 1..]
  }

  /** `Path.GetFileNameWithoutExtension`: the file name up to its last '.', or all of it when it has none. */
  function Stem(path: string): (r: string)
    ensures forall i :: 0 <= i < |r| ==> r[i] != '/'
    ensures StartsWith(FileName(path), r)
    ensures '.' !in FileName(path) ==> r == FileName(path)
    ensures '.' in FileName(path) ==>
      && |r| < |FileName(path)| && FileName(path)[|r|] == '.'
      && forall i :: |r| < i < |FileName(path)| ==> FileName(path)[i] != '.'
  {
    var f := FileName(path);
    PrefixAvoids(f, StemOf(f), '/');
    StemOf(f)
  }

  /** A prefix of a text without `c` has no `c` either. */
  lemma PrefixAvoids(s: string, prefix: string, c: char)
    requires StartsWith(s, prefix) && forall i :: 0 <= i < |s| ==> s[i] != c
    ensures forall i :: 0 <= i < |prefix| ==> prefix[i] != c
  {
    assert forall i :: 0 <= i < |prefix| ==> prefix[i] == s[i];
  }

  /** The stem of a file name `f`. */
  function StemOf(f: string): (r: string)
    ensures StartsWith(f, r)
    ensures '.' !in f ==> r == f
    ensures '.' in f ==> |r| < |f| && f[|r|] == '.' && forall i :: |r| < i < |f| ==> f[i] != '.'
  {
    var d := LastIndexOf(f, '.');
    if d < 0 then f else f[..d]
  }

  /** `Path.GetExtension`: from the last '.' of the file name on, or "" when there is none or it ends the name. */
  function Extension(path: string): (r: string)
    ensures |r| == 0 || r[0] == '.'
    ensures EndsWith(FileName(path), r)
    ensures forall i :: 1 <= i < |r| ==> r[i] != '.'
    ensures r == "" <==> '.' !in FileName(path) || FileName(path)[|FileName(path)| - 1] == '.'
  {
    ExtensionOf(FileName(path))
  }

  /** The extension of a file name `f`. */
  function ExtensionOf(f: string): (r: string)
    ensures |r| == 0 || r[0] == '.'
    ensures EndsWith(f, r)
    ensures forall i :: 1 <= i < |r| ==> r[i] != '.'
    ensures r == "" <==> '.' !in f || f[|f| - 1] == '.'
  {
    var d := LastIndexOf(f, '.');
    if d < 0 || d == |f| - 1 then "" else f[d..]
  }

  /** The file name is the stem and the extension, plus at most the one '.' that ends the name. */
  lemma FileNameLength(path: string)
    ensures |FileName(path)| <= |Stem(path)| + |Extension(path)| + 1
  {
    SplitOf(FileName(path));
  }

  /**
   * The file name splits at its last '.' into the stem and the extension; a name
   * without '.' is all stem, and a name ending in '.' loses only that '.'.
   */
  lemma StemExtensionSplit(path: string)
    ensures Extension(path) != "" ==> Stem(path) + Extension(path) == FileName(path)
    ensures '.' !in FileName(path) ==> Stem(path) == FileName(path) && Extension(path) == ""
    ensures '.' in FileName(path) && Extension(path) == "" ==> Stem(path) + "." == FileName(path)
  {
    SplitOf(FileName(path));
  }

  lemma SplitOf(f: string)
    ensures ExtensionOf(f) != "" ==> StemOf(f) + ExtensionOf(f) == f
    ensures '.' !in f ==> StemOf(f) == f && ExtensionOf(f) == ""
    ensures '.' in f && ExtensionOf(f) == "" ==> StemOf(f) + "." == f
  {
    var d := LastIndexOf(f, '.');
    if 0 <= d < |f| - 1 {
      assert f[..d] + f[d..] == f;
    } else if 0 <= d {
      assert f[..d] + [f[d]] == f;
    }
  }

  /** The name of the k-th candidate inside the trash folder: the file name first, then `<stem>(k)<extension>`. */
  function CandidateName(path: string, k: nat): (r: string)
    requires k >= 1
    ensures |r| == 0 || r[0] != '/'
  {
    if k == 1 then FileName(path)
    else (Stem(path) + "(") + NatToString(k) + (")" + Extension(path))
  }

  /** The k-th path the loop tries. */
  function Candidate(trash: string, path: string, k: nat): (r: string)
    requires k >= 1
    ensures StartsWith(r, trash)
  {
    Query.AppendPathSegment(trash, CandidateName(path, k))
  }

  /** A numbered name is longer than the plain file name. */
  lemma NumberedNameLonger(path: string, k: nat)
    requires k >= 2
    ensures |CandidateName(path, 1)| < |CandidateName(path, k)|
  {
    FileNameLength(path);
  }

  /** Text between a common prefix and a common suffix is determined by the whole. */
  lemma MiddleCancel(p: string, m1: string, m2: string, t: string)
    requires p + m1 + t == p + m2 + t
    ensures m1 == m2
  {
    var w := p + m1 + t;
    assert w[|p|..|w| - |t|] == m1;
    assert (p + m2 + t)[|p|..|w| - |t|] == m2;
  }

  /** Numbered names with different numbers differ. */
  lemma NumberedNamesInjective(path: string, a: nat, b: nat)
    requires a >= 2 && b >= 2
    ensures CandidateName(path, a) == CandidateName(path, b) ==> a == b
  {
    if CandidateName(path, a) == CandidateName(path, b) {
      MiddleCancel(Stem(path) + "(", NatToString(a), NatToString(b), ")" + Extension(path));
      NatToStringInjective(a, b);
    }
  }

  /** The candidate names are pairwise distinct. */
  lemma CandidateNamesDistinct(path: string, a: nat, b: nat)
    requires 1 <= a < b
    ensures CandidateName(path, a) != CandidateName(path, b)
  {
    if a == 1 {
      NumberedNameLonger(path, b);
    } else {
      NumberedNamesInjective(path, a, b);
    }
  }

  /** The candidate paths are pairwise distinct, so every probe asks about a new path. */
  lemma CandidatesDistinct(trash: string, path: string, a: nat, b: nat)
    requires 1 <= a < b
    ensures Candidate(trash, path, a) != Candidate(trash, path, b)
  {
    CandidateNamesDistinct(path, a, b);
    Query.AppendPathSegmentInjective(trash, CandidateName(path, a), CandidateName(path, b));
  }

  /**
   * The search loop over any sequence of pairwise distinct candidates numbered from 1,
   * asking `probe` whether each is taken: it stops at the first answer that is not
   * "taken" (a free name, or a failure that propagates). It ends because only the
   * finitely many names in `existing` are ever reported taken, and each probe that
   * finds its candidate taken uses up one more of them.
   */
  method FirstFree(candidate: nat -> string, probe: string -> Outcome<bool>, ghost existing: set<string>)
    returns (k: nat, last: Outcome<bool>)
    requires forall a: nat, b: nat :: 1 <= a < b ==> candidate(a) != candidate(b)
    requires forall n :: probe(n) == Ok(true) ==> n in existing
    ensures k >= 1 && last == probe(candidate(k)) && last != Ok(true)
    ensures forall j :: 1 <= j < k ==> probe(candidate(j)) == Ok(true)
    ensures k <= |existing| + 1
  {
    k := 1;
    last := probe(candidate(1));
    while last == Ok(true)
      invariant k >= 1 && last == probe(candidate(k))
      invariant forall j :: 1 <= j < k ==> probe(candidate(j)) == Ok(true)
      invariant Probed(candidate, k) <= existing && k - 1 <= |existing|
      decreases |existing| - (k - 1)
    {
      ProbeStep(candidate, probe, existing, k);
      k := k + 1;
      last := probe(candidate(k));
    }
  }

  /** The candidates before `k`, which the loop has found taken. */
  ghost function Probed(candidate: nat -> string, k: nat): set<string>
  {
    if k <= 1 then {} else Probed(candidate, k - 1) + {candidate(k - 1)}
  }

  /** A probe that finds candidate `k` taken adds it to the probed set, which stays within `existing`. */
  lemma ProbeStep(candidate: nat -> string, probe: string -> Outcome<bool>, existing: set<string>, k: nat)
    requires forall a: nat, b: nat :: 1 <= a < b ==> candidate(a) != candidate(b)
    requires forall n :: probe(n) == Ok(true) ==> n in existing
    requires k >= 1 && Probed(candidate, k) <= existing && probe(candidate(k)) == Ok(true)
    ensures Probed(candidate, k + 1) <= existing && k <= |existing|
  {
    ProbedCard(candidate, k + 1);
    SubsetCard(Probed(candidate, k + 1), existing);
  }

  /** Distinct candidates make the probed set as large as the number of probes. */
  lemma {:induction false} ProbedCard(candidate: nat -> string, k: nat)
    requires forall a: nat, b: nat :: 1 <= a < b ==> candidate(a) != candidate(b)
    requires k >= 1
    ensures |Probed(candidate, k)| == k - 1
    ensures forall j: nat :: k <= j ==> candidate(j) !in Probed(candidate, k)
  {
    if k > 1 {
      ProbedCard(candidate, k - 1);
    }
  }

  lemma SubsetCard(a: set<string>, b: set<string>)
    requires a <= b
    ensures |a| <= |b|
  {
    assert b == a + (b - a);
  }

  /** The k-th candidate, extended to 0 so that it can be passed as a total function. */
  function CandidateAt(trash: string, path: string): nat -> string {
    k => if k >= 1 then Candidate(trash, path, k) else trash
  }

  /** The first `k` candidates, in the order the search tries them: entry `i` is candidate `i + 1`. */
  function Candidates(trash: string, path: string, k: nat): (r: seq<string>)
    ensures |r| == k
  {
    seq(k, i requires 0 <= i < k => CandidateAt(trash, path)(i + 1))
  }

  /**
   * The loop of `DeleteAsync`: ask about the candidates in order until one is not
   * reported taken. Every earlier candidate was reported taken, and the loop never
   * asks about more than one name beyond the taken ones.
   */
  method ProbeTrashNames(trash: string, path: string, probe: string -> Outcome<bool>, ghost existing: set<string>)
    returns (k: nat, last: Outcome<bool>)
    requires forall n :: probe(n) == Ok(true) ==> n in existing
    ensures k >= 1 && last == probe(Candidate(trash, path, k)) && last != Ok(true)
    ensures forall j :: 1 <= j < k ==> probe(Candidate(trash, path, j)) == Ok(true)
    ensures k <= |existing| + 1
  {
    var candidate := CandidateAt(trash, path);
    forall a: nat, b: nat | 1 <= a < b
      ensures candidate(a) != candidate(b)
    {
      CandidatesDistinct(trash, path, a, b);
    }
    k, last := FirstFree(candidate, probe, existing);
    forall j | 1 <= j < k
      ensures probe(Candidate(trash, path, j)) == Ok(true)
    {
      assert candidate(j) == Candidate(trash, path, j);
    }
  }

  /**
   * The same loop against a finite set of existing paths: the name it returns is free,
   * every earlier candidate was taken, and at most one name beyond the taken ones is tried.
   */
  method ChooseTrashName(trash: string, path: string, existing: set<string>) returns (name: string, k: nat)
    ensures k >= 1 && name == Candidate(trash, path, k)
    ensures name !in existing
    ensures forall j :: 1 <= j < k ==> Candidate(trash, path, j) in existing
    ensures k <= |existing| + 1
  {
    var probe := (n: string) => Ok(n in existing);
    var last;
    k, last := ProbeTrashNames(trash, path, probe, existing);
    name := Candidate(trash, path, k);
    forall j | 1 <= j < k
      ensures Candidate(trash, path, j) in existing
    {
      assert probe(Candidate(trash, path, j)) == Ok(true);
    }
  }
}
