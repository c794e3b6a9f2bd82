/**
 * Request targets: a relative path plus an ordered query, built the way the
 * two client variants' `prepareUrl` build them with Flurl, and Flurl's
 * `AppendPathSegment`. Values are kept unencoded; see README for what that leaves out.
 */
module Query {
  import opened Opt
  import opened Text

  type Pair = (string, string)

  datatype Url = Url(path: string, query: seq<Pair>)

  // ---------------------------------------------------------------- query lists

  predicate HasKey(q: seq<Pair>, k: string) {
    exists i :: 0 <= i < |q| && q[i].0 == k
  }

  function CountKey(q: seq<Pair>, k: string): nat {
    if |q| == 0 then 0 else (if q[0].0 == k then 1 else 0) + CountKey(q[1..], k)
  }

  /** The value of the first pair named `k`. */
  function Lookup(q: seq<Pair>, k: string): Option<string> {
    if |q| == 0 then None else if q[0].0 == k then Some(q[0].1) else Lookup(q[1..], k)
  }

  /** The query with every pair named `k` dropped, the others in their order. */
  function RemoveKey(q: seq<Pair>, k: string): (r: seq<Pair>)
    ensures !HasKey(r, k)
    ensures |r| <= |q|
    ensures !HasKey(q, k) ==> r == q
  {
    if |q| == 0 then []
    else if q[0].0 == k then RemoveKey(q[1..], k)
    else [q[0]] + RemoveKey(q[1..], k)
  }

  /** The first pair named `k` takes the value `v` in place; later pairs named `k` are dropped. */
  function ReplaceFirst(q: seq<Pair>, k: string, v: string): (r: seq<Pair>)
    requires HasKey(q, k)
    ensures RemoveKey(r, k) == RemoveKey(q, k)
    ensures CountKey(r, k) == 1 && Lookup(r, k) == Some(v)
  {
    if q[0].0 == k then
      RemoveKeyCount(q[1..], k);
      [(k, v)] + RemoveKey(q[1..], k)
    else
      assert HasKey(q[1..], k) by {
        var i :| 0 <= i < |q| && q[i].0 == k;
        assert q[1..][i - 1].0 == k;
      }
      [q[0]] + ReplaceFirst(q[1..], k, v)
  }

  lemma RemoveKeyCount(q: seq<Pair>, k: string)
    ensures CountKey(RemoveKey(q, k), k) == 0
  {
  }

  /**
   * Flurl's `SetQueryParam(k, v)`: a null value removes the parameter; a value
   * replaces an existing parameter of that name in place; otherwise the pair is appended.
   */
  function SetParam(q: seq<Pair>, k: string, v: Option<string>): (r: seq<Pair>)
    ensures RemoveKey(r, k) == RemoveKey(q, k)
    ensures v.None? ==> !HasKey(r, k)
    ensures v.Some? ==> CountKey(r, k) == 1 && Lookup(r, k) == v
    ensures v.Some? && !HasKey(q, k) ==> r == q + [(k, v.value)]
  {
    match v
    case None => RemoveKey(q, k)
    case Some(x) => if HasKey(q, k) then ReplaceFirst(q, k, x) else AppendFresh(q, k, x)
  }

  function AppendFresh(q: seq<Pair>, k: string, v: string): (r: seq<Pair>)
    requires !HasKey(q, k)
    ensures r == q + [(k, v)]
    ensures RemoveKey(r, k) == q && CountKey(r, k) == 1 && Lookup(r, k) == Some(v)
  {
    AppendRemove(q, k, v);
    q + [(k, v)]
  }

  lemma {:induction false} AppendRemove(q: seq<Pair>, k: string, v: string)
    requires !HasKey(q, k)
    ensures RemoveKey(q + [(k, v)], k) == q
    ensures CountKey(q + [(k, v)], k) == 1
    ensures Lookup(q + [(k, v)], k) == Some(v)
  {
    if |q| > 0 {
      assert q[0].0 != k;
      AppendRemove(q[1..], k, v);
      assert (q + [(k, v)])[1..] == q[1..] + [(k, v)];
    }
  }

  /** Flurl's `SetQueryParams(object)`: one `SetParam` per property, in declaration order. */
  function SetParams(q: seq<Pair>, extras: seq<(string, Option<string>)>): seq<Pair>
    decreases |extras|
  {
    if |extras| == 0 then q else SetParams(SetParam(q, extras[0].0, extras[0].1), extras[1..])
  }

  /** The pairs of `extras` whose value is not null, in order. */
  function Present(extras: seq<(string, Option<string>)>): (r: seq<Pair>)
    ensures |r| <= |extras|
  {
    if |extras| == 0 then []
    else if extras[0].1.Some? then [(extras[0].0, extras[0].1.value)] + Present(extras[1..])
    else Present(extras[1..])
  }

  /** Parameter names that appear at most once and never as a name already in use. */
  predicate FreshKeys(q: seq<Pair>, extras: seq<(string, Option<string>)>) {
    && (forall i :: 0 <= i < |extras| ==> !HasKey(q, extras[i].0))
    && (forall i, j :: 0 <= i < j < |extras| ==> extras[i].0 != extras[j].0)
  }

  lemma HasKeyConcat(a: seq<Pair>, b: seq<Pair>, k: string)
    ensures HasKey(a + b, k) <==> HasKey(a, k) || HasKey(b, k)
  {
    if HasKey(a + b, k) {
      var i :| 0 <= i < |a + b| && (a + b)[i].0 == k;
      if i >= |a| { assert b[i - |a|].0 == k; }
    }
    if HasKey(a, k) {
      var i :| 0 <= i < |a| && a[i].0 == k;
      assert (a + b)[i].0 == k;
    }
    if HasKey(b, k) {
      var i :| 0 <= i < |b| && b[i].0 == k;
      assert (a + b)[i + |a|].0 == k;
    }
  }

  /** Every name in `Present(extras)` is the name of some extra. */
  lemma {:induction false} PresentHasKey(extras: seq<(string, Option<string>)>, k: string)
    requires HasKey(Present(extras), k)
    ensures exists i :: 0 <= i < |extras| && extras[i].0 == k
    decreases |extras|
  {
    var head: seq<Pair> := if extras[0].1.Some? then [(extras[0].0, extras[0].1.value)] else [];
    assert Present(extras) == head + Present(extras[1..]);
    HasKeyConcat(head, Present(extras[1..]), k);
    if HasKey(Present(extras[1..]), k) {
      PresentHasKey(extras[1..], k);
      var i :| 0 <= i < |extras[1..]| && extras[1..][i].0 == k;
      assert extras[i + 1].0 == k;
    } else {
      assert extras[0].0 == k;
    }
  }

  /** The pairs one extra contributes when its name is fresh: itself, unless null. */
  function Contribution(e: (string, Option<string>)): seq<Pair> {
    if e.1.Some? then [(e.0, e.1.value)] else []
  }

  lemma FreshKeysStep(q: seq<Pair>, extras: seq<(string, Option<string>)>)
    requires |extras| > 0 && FreshKeys(q, extras)
    ensures FreshKeys(q + Contribution(extras[0]), extras[1..])
  {
    var head := Contribution(extras[0]);
    var rest := extras[1..];
    forall i | 0 <= i < |rest|
      ensures !HasKey(q + head, rest[i].0)
    {
      assert rest[i] == extras[i + 1];
      HasKeyConcat(q, head, rest[i].0);
    }
    forall i, j | 0 <= i < j < |rest|
      ensures rest[i].0 != rest[j].0
    {
      assert rest[i] == extras[i + 1] && rest[j] == extras[j + 1];
    }
  }

  /** Setting the first of fresh extras appends its contribution. */
  lemma SetParamsStep(q: seq<Pair>, extras: seq<(string, Option<string>)>)
    requires |extras| > 0 && !HasKey(q, extras[0].0)
    ensures SetParams(q, extras) == SetParams(q + Contribution(extras[0]), extras[1..])
  {
    assert SetParam(q, extras[0].0, extras[0].1) == q + Contribution(extras[0]);
  }

  /** Freshness as the loop sees it: each name is new to the query built so far. */
  predicate FreshChain(q: seq<Pair>, extras: seq<(string, Option<string>)>)
    decreases |extras|
  {
    |extras| == 0 || (!HasKey(q, extras[0].0) && FreshChain(q + Contribution(extras[0]), extras[1..]))
  }

  lemma {:induction false} FreshKeysChain(q: seq<Pair>, extras: seq<(string, Option<string>)>)
    requires FreshKeys(q, extras)
    ensures FreshChain(q, extras)
    decreases |extras|
  {
    if |extras| > 0 {
      FreshKeysStep(q, extras);
      FreshKeysChain(q + Contribution(extras[0]), extras[1..]);
    }
  }

  /** One step of the chain: setting a fresh first extra and then the rest appends them all. */
  lemma ChainStep(q: seq<Pair>, extras: seq<(string, Option<string>)>)
    requires |extras| > 0 && !HasKey(q, extras[0].0)
    requires SetParams(q + Contribution(extras[0]), extras[1..]) == (q + Contribution(extras[0])) + Present(extras[1..])
    ensures SetParams(q, extras) == q + Present(extras)
  {
    SetParamsStep(q, extras);
    PresentCons(extras);
    AppendAssoc(q, Contribution(extras[0]), Present(extras[1..]));
  }

  lemma AppendAssoc<T>(a: seq<T>, b: seq<T>, c: seq<T>)
    ensures (a + b) + c == a + (b + c)
  {
  }

  lemma {:induction false} ChainAppends(q: seq<Pair>, extras: seq<(string, Option<string>)>)
    requires FreshChain(q, extras)
    ensures SetParams(q, extras) == q + Present(extras)
    decreases |extras|
  {
    if |extras| > 0 {
      ChainAppends(q + Contribution(extras[0]), extras[1..]);
      ChainStep(q, extras);
    }
  }

  /** With fresh, distinct names every non-null extra is appended, in the caller's order. */
  lemma SetParamsAppends(q: seq<Pair>, extras: seq<(string, Option<string>)>)
    requires FreshKeys(q, extras)
    ensures SetParams(q, extras) == q + Present(extras)
  {
    FreshKeysChain(q, extras);
    ChainAppends(q, extras);
  }

  lemma PresentCons(extras: seq<(string, Option<string>)>)
    requires |extras| > 0
    ensures Present(extras) == Contribution(extras[0]) + Present(extras[1..])
  {
  }

  // ---------------------------------------------------------------- prepareUrl

  /** The `user.name` parameter a client sends: its user, or none when the user is empty. */
  function UserName(user: string): Option<string> {
    if user == "" then None else Some(user)
  }

  /** The pairs every request starts with: `op`, then `user.name` when a user is configured. */
  function Head(op: string, user: string): seq<Pair> {
    [("op", op)] + (if user == "" then [] else [("user.name", user)])
  }

  lemma HeadKeys(op: string, user: string)
    ensures forall i :: 0 <= i < |Head(op, user)| ==> Head(op, user)[i].0 == "op" || Head(op, user)[i].0 == "user.name"
  {
  }

  /** Extras a caller may pass: none named `op` or `user.name`, no name twice. */
  predicate PlainExtras(extras: seq<(string, Option<string>)>) {
    && (forall i :: 0 <= i < |extras| ==> extras[i].0 != "op" && extras[i].0 != "user.name")
    && (forall i, j :: 0 <= i < j < |extras| ==> extras[i].0 != extras[j].0)
  }

  /** The query `prepareUrl` builds: SETs of `op`, then `user.name` (when a user is set), then the extras. */
  function BuildQuery(op: string, user: string, extras: seq<(string, Option<string>)>): (r: seq<Pair>)
    ensures PlainExtras(extras) ==> r == Head(op, user) + Present(extras)
  {
    var q0 := SetParam([], "op", Some(op));
    var q1 := if user == "" then q0 else SetParam(q0, "user.name", Some(user));
    var r := SetParams(q1, extras);
    if PlainExtras(extras) then
      assert q1 == Head(op, user);
      SetParamsAppends(q1, extras);
      r
    else r
  }

  /**
   * `prepareUrl` of the current client: a null or white-space path becomes "",
   * every leading '/' is stripped, and the query is built by `BuildQuery`.
   */
  function PrepareUrlCore(path: string, op: string, user: string, extras: seq<(string, Option<string>)>): (r: Url)
    ensures IsBlank(path) ==> r.path == ""
    ensures !IsBlank(path) ==> r.path == TrimStart(path, '/')
    ensures |r.path| == 0 || r.path[0] != '/'
    ensures r.query == BuildQuery(op, user, extras)
  {
    var p := if IsBlank(path) then "" else path;
    Url(TrimStart(p, '/'), BuildQuery(op, user, extras))
  }

  /** `prepareUrl` of the legacy client: as `PrepareUrlCore`, but leading slashes are kept. */
  function PrepareUrlLegacy(path: string, op: string, user: string, extras: seq<(string, Option<string>)>): (r: Url)
    ensures IsBlank(path) ==> r.path == ""
    ensures !IsBlank(path) ==> r.path == path
    ensures r.query == BuildQuery(op, user, extras)
  {
    Url(if IsBlank(path) then "" else path, BuildQuery(op, user, extras))
  }

  /** Without extras the query is the head alone: `op`, `user.name` when a user is set, and no other name. */
  lemma HeadOnlyQuery(op: string, user: string)
    ensures BuildQuery(op, user, []) == Head(op, user)
    ensures Lookup(Head(op, user), "op") == Some(op)
    ensures forall k :: k != "op" && k != "user.name" ==> !HasKey(Head(op, user), k)
  {
    assert PlainExtras([]);
    assert Present([]) == [];
  }

  /** A query built with no extras names its operation and carries neither read bound. */
  lemma HeadHasNoBounds(op: string, user: string)
    ensures var q := BuildQuery(op, user, []);
      && Lookup(q, "op") == Some(op) && !HasKey(q, "offset") && !HasKey(q, "length")
  {
    HeadOnlyQuery(op, user);
  }

  /** Both variants put `op` first and `user.name` right after it exactly when a user is configured. */
  lemma QueryStartsWithOp(op: string, user: string, extras: seq<(string, Option<string>)>)
    requires PlainExtras(extras)
    ensures var q := BuildQuery(op, user, extras);
      && |q| >= 1 && q[0] == ("op", op)
      && (user != "" <==> HasKey(q, "user.name"))
      && (user != "" ==> q[1] == ("user.name", user))
      && q[|Head(op, user)|..] == Present(extras)
  {
    var q := BuildQuery(op, user, extras);
    var h := Head(op, user);
    assert q == h + Present(extras);
    HasKeyConcat(h, Present(extras), "user.name");
    if HasKey(Present(extras), "user.name") {
      PresentHasKey(extras, "user.name");
    }
    if user != "" {
      assert h[1].0 == "user.name";
    }
  }

  /**
   * A request with one extra parameter: the query names the operation, holds the
   * extra's value exactly when it is not null, and holds no other parameter besides
   * `user.name`.
   */
  lemma SingleExtraQuery(op: string, user: string, k: string, v: Option<string>, other: string)
    requires k != "op" && k != "user.name"
    ensures var q := BuildQuery(op, user, [(k, v)]);
      && Lookup(q, "op") == Some(op)
      && Lookup(q, k) == v
      && (HasKey(q, k) <==> v.Some?)
      && (forall i :: 0 <= i < |q| ==> q[i].0 == "op" || q[i].0 == "user.name" || q[i].0 == k)
      && (other != "op" && other != "user.name" && other != k ==> !HasKey(q, other))
  {
    var extras := [(k, v)];
    assert PlainExtras(extras);
    PresentCons(extras);
    assert Present(extras[1..]) == [];
    var h := Head(op, user);
    var tail := Contribution((k, v));
    var q := h + tail;
    assert BuildQuery(op, user, extras) == q;
    HeadKeys(op, user);
    assert !HasKey(h, k) && (other != "op" && other != "user.name" ==> !HasKey(h, other));
    forall i | 0 <= i < |q|
      ensures q[i].0 == "op" || q[i].0 == "user.name" || q[i].0 == k
    {
      if i < |h| {
        assert q[i] == h[i];
      } else {
        assert q[i] == tail[i - |h|] && tail[i - |h|].0 == k;
      }
    }
    LookupConcat(h, tail, "op");
    LookupConcat(h, tail, k);
    LookupAbsent(h, k);
    HasKeyConcat(h, tail, k);
    HasKeyConcat(h, tail, other);
  }

  /** A request with one extra parameter names the client's user exactly when it has one. */
  lemma SingleExtraUser(op: string, user: string, k: string, v: Option<string>)
    requires k != "op" && k != "user.name"
    ensures Lookup(BuildQuery(op, user, [(k, v)]), "user.name") == UserName(user)
  {
    var extras := [(k, v)];
    assert PlainExtras(extras);
    PresentCons(extras);
    assert Present(extras[1..]) == [];
    var h := Head(op, user);
    var tail := Contribution((k, v));
    assert BuildQuery(op, user, extras) == h + tail;
    LookupConcat(h, tail, "user.name");
    if user == "" {
      assert h == [("op", op)];
      LookupAbsent(h, "user.name");
      LookupAbsent(tail, "user.name");
    }
  }

  /** A single null extra sets nothing: the query is the one built without it. */
  lemma NullExtraDropped(op: string, user: string, k: string)
    requires k != "op" && k != "user.name"
    ensures BuildQuery(op, user, [(k, None)]) == BuildQuery(op, user, [])
  {
    assert PlainExtras([(k, None)]) && PlainExtras([]);
    PresentCons([(k, None)]);
    assert Present([(k, None)]) == [];
  }

  // ---------------------------------------------------------------- rendering

  function PairText(p: Pair): string {
    p.0 + "=" + p.1
  }

  function JoinQuery(q: seq<Pair>): string
    requires |q| >= 1
  {
    if |q| == 1 then PairText(q[0]) else PairText(q[0]) + "&" + JoinQuery(q[1..])
  }

  /** The target text: the path, then '?' and the `&`-joined pairs when there are any. */
  function Render(u: Url): string {
    if |u.query| == 0 then u.path else u.path + "?" + JoinQuery(u.query)
  }

  lemma {:induction false} JoinQueryAppend(q: seq<Pair>, p: Pair)
    requires |q| >= 1
    ensures JoinQuery(q + [p]) == JoinQuery(q) + "&" + PairText(p)
    decreases |q|
  {
    if |q| > 1 {
      assert (q + [p])[1..] == q[1..] + [p];
      JoinQueryAppend(q[1..], p);
    } else {
      assert (q + [p])[1..] == [p];
    }
  }

  /** Appending a pair to a non-empty query appends `&k=v` to the rendered text. */
  lemma RenderAppend(u: Url, p: Pair)
    requires |u.query| >= 1
    ensures Render(Url(u.path, u.query + [p])) == Render(u) + "&" + PairText(p)
  {
    JoinQueryAppend(u.query, p);
  }

  // ---------------------------------------------------------------- OPEN

  /**
   * The OPEN target as both client variants build it: `uri += uri.SetQueryParam(...)`
   * concatenates the whole re-rendered target onto the old one for `offset`, and again
   * for `length`. `SetQueryParam` on text that already carries a query without that
   * name appends `&name=value`, which is what `s + "&offset=" + ...` stands for.
   */
  function OpenTargetAsWritten(base: Url, offset: int, length: int): string {
    var s0 := Render(base);
    var s1 := if offset > 0 then s0 + (s0 + "&" + PairText(("offset", IntToString(offset)))) else s0;
    if length > 0 then s1 + (s1 + "&" + PairText(("length", IntToString(length)))) else s1
  }

  /** The OPEN target as evidently intended: `offset` and `length` set once each, only when positive. */
  function OpenUrl(base: Url, offset: int, length: int): (r: Url)
    requires !HasKey(base.query, "offset") && !HasKey(base.query, "length")
    ensures r.path == base.path
    ensures r.query == base.query
      + (if offset > 0 then [("offset", IntToString(offset))] else [])
      + (if length > 0 then [("length", IntToString(length))] else [])
    ensures offset <= 0 && length <= 0 ==> r == base
  {
    var q1 := if offset > 0 then SetParam(base.query, "offset", Some(IntToString(offset))) else base.query;
    assert !HasKey(q1, "length") by {
      if offset > 0 {
        HasKeyConcat(base.query, [("offset", IntToString(offset))], "length");
      }
    }
    var q2 := if length > 0 then SetParam(q1, "length", Some(IntToString(length))) else q1;
    Url(base.path, q2)
  }

  /** With neither bound positive, the as-written target is the plain OPEN target. */
  lemma OpenWithoutRangeAgrees(base: Url, offset: int, length: int)
    requires offset <= 0 && length <= 0
    requires !HasKey(base.query, "offset") && !HasKey(base.query, "length")
    ensures OpenTargetAsWritten(base, offset, length) == Render(OpenUrl(base, offset, length)) == Render(base)
  {
  }

  /**
   * A positive offset makes the as-written target the base target followed by the
   * intended one: the rendered URL is doubled instead of extended.
   */
  lemma OpenOffsetDoublesTarget(base: Url, offset: int)
    requires offset > 0 && |base.query| >= 1
    requires !HasKey(base.query, "offset") && !HasKey(base.query, "length")
    ensures OpenTargetAsWritten(base, offset, -1) == Render(base) + Render(OpenUrl(base, offset, -1))
    ensures OpenTargetAsWritten(base, offset, -1) != Render(OpenUrl(base, offset, -1))
  {
    var o := ("offset", IntToString(offset));
    var intended := OpenUrl(base, offset, -1);
    assert intended.query == base.query + [o];
    RenderAppend(base, o);
    assert Render(intended) == Render(base) + "&" + PairText(o);
    assert |Render(base)| > 0;
  }

  /** The as-written OPEN target without an upper bound: the base alone, or the base followed by the intended target. */
  lemma OpenAsWrittenCases(base: Url, offset: int, length: int)
    requires |base.query| >= 1
    requires !HasKey(base.query, "offset") && !HasKey(base.query, "length")
    ensures offset <= 0 && length <= 0 ==> OpenTargetAsWritten(base, offset, length) == Render(base)
    ensures offset > 0 && length <= 0 ==>
      OpenTargetAsWritten(base, offset, length) == Render(base) + Render(OpenUrl(base, offset, length))
    ensures length > 0 ==>
      var before := OpenTargetAsWritten(base, offset, -1);
      OpenTargetAsWritten(base, offset, length) == before + before + "&" + PairText(("length", IntToString(length)))
  {
    if offset <= 0 && length <= 0 {
      OpenWithoutRangeAgrees(base, offset, length);
    } else if offset > 0 && length <= 0 {
      OpenOffsetDoublesTarget(base, offset);
      assert OpenUrl(base, offset, length) == OpenUrl(base, offset, -1);
    }
  }

  /** The first pair named `k` in a concatenation comes from the left part when it names `k` at all. */
  lemma {:induction false} LookupConcat(a: seq<Pair>, b: seq<Pair>, k: string)
    ensures Lookup(a + b, k) == if HasKey(a, k) then Lookup(a, k) else Lookup(b, k)
    decreases |a|
  {
    if |a| == 0 {
      assert a + b == b;
    } else {
      assert (a + b)[1..] == a[1..] + b;
      LookupConcat(a[1..], b, k);
      if a[0].0 != k {
        assert HasKey(a, k) <==> HasKey(a[1..], k) by {
          if HasKey(a, k) {
            var i :| 0 <= i < |a| && a[i].0 == k;
            assert a[1..][i - 1].0 == k;
          }
          if HasKey(a[1..], k) {
            var i :| 0 <= i < |a[1..]| && a[1..][i].0 == k;
            assert a[i + 1].0 == k;
          }
        }
      } else {
        assert HasKey(a, k) by { assert a[0].0 == k; }
      }
    }
  }

  /** A name that does not occur has no value. */
  lemma {:induction false} LookupAbsent(q: seq<Pair>, k: string)
    requires !HasKey(q, k)
    ensures Lookup(q, k) == None
    decreases |q|
  {
    if |q| > 0 {
      assert q[0].0 != k;
      forall i | 0 <= i < |q[1..]|
        ensures q[1..][i].0 != k
      {
        assert q[1..][i] == q[i + 1];
      }
      LookupAbsent(q[1..], k);
    }
  }

  /** One key of the intended OPEN target: the base's value, else the bound of that name when positive. */
  lemma OpenUrlLookup(base: Url, offset: int, length: int, k: string)
    requires !HasKey(base.query, "offset") && !HasKey(base.query, "length")
    ensures Lookup(OpenUrl(base, offset, length).query, k) ==
      if HasKey(base.query, k) then Lookup(base.query, k)
      else if k == "offset" && offset > 0 then Some(IntToString(offset))
      else if k == "length" && length > 0 then Some(IntToString(length))
      else None
  {
    var o := BoundPairs("offset", offset);
    var l := BoundPairs("length", length);
    assert OpenUrl(base, offset, length).query == base.query + (o + l);
    LookupConcat(base.query, o + l, k);
    LookupConcat(o, l, k);
    if offset > 0 {
      assert HasKey(o, k) <==> k == "offset" by {
        if HasKey(o, k) { var i :| 0 <= i < |o| && o[i].0 == k; }
      }
    } else {
      assert o == [];
    }
    if length <= 0 {
      assert l == [];
    }
  }

  /** The three lookups an OPEN request is read by: `op` is kept, and each bound is present exactly when positive. */
  lemma OpenTargetLookups(base: Url, offset: int, length: int)
    requires !HasKey(base.query, "offset") && !HasKey(base.query, "length")
    ensures var q := OpenUrl(base, offset, length).query;
      && Lookup(q, "op") == Lookup(base.query, "op")
      && Lookup(q, "offset") == (if offset > 0 then Some(IntToString(offset)) else None)
      && Lookup(q, "length") == (if length > 0 then Some(IntToString(length)) else None)
  {
    OpenUrlLookup(base, offset, length, "offset");
    OpenUrlLookup(base, offset, length, "length");
    OpenUrlLookup(base, offset, length, "op");
    if !HasKey(base.query, "op") {
      LookupAbsent(base.query, "op");
    }
  }

  /**
   * The intended OPEN target carries each positive bound under its own name, no bound
   * that is not positive, and every other parameter as the base target has it.
   */
  lemma OpenUrlLookups(base: Url, offset: int, length: int)
    requires !HasKey(base.query, "offset") && !HasKey(base.query, "length")
    ensures var q := OpenUrl(base, offset, length).query;
      && Lookup(q, "offset") == (if offset > 0 then Some(IntToString(offset)) else None)
      && Lookup(q, "length") == (if length > 0 then Some(IntToString(length)) else None)
      && (forall k :: k != "offset" && k != "length" ==> Lookup(q, k) == Lookup(base.query, k))
  {
    OpenUrlLookup(base, offset, length, "offset");
    OpenUrlLookup(base, offset, length, "length");
    forall k | k != "offset" && k != "length"
      ensures Lookup(OpenUrl(base, offset, length).query, k) == Lookup(base.query, k)
    {
      OpenUrlLookup(base, offset, length, k);
      if !HasKey(base.query, k) {
        LookupAbsent(base.query, k);
      }
    }
  }

  /** The text `&name=value` that `SetQueryParam` adds for an OPEN bound, or nothing when the bound is not positive. */
  function BoundText(name: string, bound: int): string {
    if bound > 0 then "&" + PairText((name, IntToString(bound))) else ""
  }

  /** The optional pair for one OPEN bound: present only when the bound is positive. */
  function BoundPairs(name: string, bound: int): (r: seq<Pair>)
    ensures |r| <= 1
  {
    if bound > 0 then [(name, IntToString(bound))] else []
  }

  /** Appending a bound's optional pair to a non-empty query appends its `&name=value` text, if any. */
  lemma RenderBound(u: Url, name: string, bound: int)
    requires |u.query| >= 1
    ensures Render(Url(u.path, u.query + BoundPairs(name, bound))) == Render(u) + BoundText(name, bound)
  {
    if bound > 0 {
      RenderAppend(u, (name, IntToString(bound)));
    } else {
      assert u.query + BoundPairs(name, bound) == u.query;
    }
  }

  /** The intended OPEN target renders as the base target plus `&offset=..` and `&length=..`. */
  lemma OpenUrlRenders(base: Url, offset: int, length: int)
    requires |base.query| >= 1
    requires !HasKey(base.query, "offset") && !HasKey(base.query, "length")
    ensures Render(OpenUrl(base, offset, length)) == Render(base) + BoundText("offset", offset) + BoundText("length", length)
  {
    var mid := Url(base.path, base.query + BoundPairs("offset", offset));
    assert OpenUrl(base, offset, length) == Url(mid.path, mid.query + BoundPairs("length", length));
    RenderBound(base, "offset", offset);
    RenderBound(mid, "length", length);
  }

  // ---------------------------------------------------------------- path segments

  /** The base with exactly one '/' ensured at its end. */
  function SegmentHead(base: string): (h: string)
    ensures StartsWith(h, base) && |h| >= 1 && h[|h| - 1] == '/'
  {
    if EndsWith(base, "/") then base else base + "/"
  }

  /**
   * Flurl's `AppendPathSegment`: the base keeps its text, a '/' is added unless it
   * already ends with one, and the segment follows with its leading '/'s dropped.
   */
  function AppendPathSegment(base: string, segment: string): (r: string)
    ensures StartsWith(r, base)
    ensures EndsWith(base, "/") ==> r == base + TrimStart(segment, '/')
    ensures !EndsWith(base, "/") ==> r == base + "/" + TrimStart(segment, '/')
  {
    StartsWithExtended(SegmentHead(base), TrimStart(segment, '/'), base);
    SegmentHead(base) + TrimStart(segment, '/')
  }

  /** The joined path splits back into the base (with its separator) and the trimmed segment. */
  lemma AppendPathSegmentSplits(base: string, segment: string)
    ensures var r := AppendPathSegment(base, segment);
      && |SegmentHead(base)| <= |r|
      && r[..|SegmentHead(base)|] == SegmentHead(base)
      && r[|SegmentHead(base)|..] == TrimStart(segment, '/')
  {
    var h := SegmentHead(base);
    var t := TrimStart(segment, '/');
    assert AppendPathSegment(base, segment) == h + t;
    assert (h + t)[..|h|] == h;
    assert (h + t)[|h|..] == t;
  }

  lemma TrimStartUnchanged(s: string, ch: char)
    requires |s| == 0 || s[0] != ch
    ensures TrimStart(s, ch) == s
  {
  }

  /** Under one base, segments without a leading '/' give distinct paths. */
  lemma AppendPathSegmentInjective(base: string, s1: string, s2: string)
    requires |s1| == 0 || s1[0] != '/'
    requires |s2| == 0 || s2[0] != '/'
    ensures AppendPathSegment(base, s1) == AppendPathSegment(base, s2) ==> s1 == s2
  {
    AppendPathSegmentSplits(base, s1);
    AppendPathSegmentSplits(base, s2);
    TrimStartUnchanged(s1, '/');
    TrimStartUnchanged(s2, '/');
  }
}
