/** First-match route lookup (src/core/routes/match.ts). Every pattern the
    router runs comes from `buildRoutePattern`, so the regular expression is
    modelled by an exact matcher over the route's URL segments that follows
    the backtracking order of the expression `^/seg/seg/?$`. */
module RoutesMatch {
  import opened Wrappers
  import opened Text
  import opened RoutesScan

  /** The characters `.` does not match without the `s` flag. */
  predicate IsLineTerminator(c: char) {
    c == '\n' || c == '\r' || c == '\U{2028}' || c == '\U{2029}'
  }

  /** How many characters from `k` on the class `[^/]` can take. */
  function NonSlashRun(p: string, k: nat): (n: nat)
    requires k <= |p|
    ensures k + n <= |p|
    ensures forall m :: k <= m < k + n ==> p[m] != '/'
    ensures k + n < |p| ==> p[k + n] == '/'
    decreases |p| - k
  {
    if k < |p| && p[k] != '/' then 1 + NonSlashRun(p, k + 1) else 0
  }

  /** How many characters from `k` on `.` can take. */
  function AnyRun(p: string, k: nat): (n: nat)
    requires k <= |p|
    ensures k + n <= |p|
    ensures forall m :: k <= m < k + n ==> !IsLineTerminator(p[m])
    ensures k + n < |p| ==> IsLineTerminator(p[k + n])
    decreases |p| - k
  {
    if k < |p| && !IsLineTerminator(p[k]) then 1 + AnyRun(p, k + 1) else 0
  }

  /** The number of capture groups from segment `j` on. */
  function GroupsFrom(segs: seq<Segment>, j: nat): nat
    requires j <= |segs|
    decreases |segs| - j
  {
    if j == |segs| then 0 else (if IsDynamic(segs[j]) then 1 else 0) + GroupsFrom(segs, j + 1)
  }

  lemma {:induction false} GroupsSnoc(segs: seq<Segment>, x: Segment, j: nat)
    requires j <= |segs|
    ensures GroupsFrom(segs + [x], j) == GroupsFrom(segs, j) + (if IsDynamic(x) then 1 else 0)
    decreases |segs| - j
  {
    if j < |segs| {
      assert (segs + [x])[j] == segs[j];
      GroupsSnoc(segs, x, j + 1);
    }
  }

  /** A built pattern has one capture group per parameter name, so with the
      matcher's captures no `?? ""` default is ever taken. */
  lemma {:induction false} GroupsMatchParamNames(segs: seq<Segment>)
    ensures GroupsFrom(segs, 0) == |ParamNames(segs)|
    decreases |segs|
  {
    if segs != [] {
      var n := |segs| - 1;
      GroupsMatchParamNames(segs[..n]);
      GroupsSnoc(segs[..n], segs[n], 0);
      assert segs[..n] + [segs[n]] == segs;
    }
  }

  /** The captures of the first match of segments `j..` (each but the first
      preceded by `/`) then `/?$`, at index `i` of `p`. */
  function MatchFrom(segs: seq<Segment>, j: nat, p: string, i: nat): (r: Option<seq<string>>)
    requires j <= |segs| && i <= |p|
    ensures r.Some? ==> |r.value| == GroupsFrom(segs, j)
    decreases |segs| - j, |p| - i + 2
  {
    if j == |segs| then
      if i == |p| || (i + 1 == |p| && p[i] == '/') then Some([]) else None
    else if j > 0 && !(i < |p| && p[i] == '/') then None
    else
      var k := if j > 0 then i + 1 else i;
      match segs[j]
      case Lit(t) => if IsAt(p, t, k) then MatchFrom(segs, j + 1, p, k + |t|) else None
      case Param(_) => TryLengths(segs, j, p, k, NonSlashRun(p, k), 1)
      case Rest(_) => TryLengths(segs, j, p, k, AnyRun(p, k), 0)
  }

  /** A greedy group at segment `j`: the longest length `n` (at least `min`)
      after which the rest matches. */
  function TryLengths(segs: seq<Segment>, j: nat, p: string, k: nat, n: nat, min: nat): (r: Option<seq<string>>)
    requires j < |segs| && IsDynamic(segs[j]) && k + n <= |p|
    ensures r.Some? ==> |r.value| == GroupsFrom(segs, j)
    decreases |segs| - j, n + 1
  {
    if n < min then None
    else
      match MatchFrom(segs, j + 1, p, k + n)
      case Some(caps) => Some([p[k..k + n]] + caps)
      case None => if n == 0 then None else TryLengths(segs, j, p, k, n - 1, min)
  }

  /** `pathname.match(new RegExp(pattern))` for a pattern built from `segs`:
      the captures, or none. */
  function MatchPath(segs: seq<Segment>, p: string): (r: Option<seq<string>>)
    ensures r.Some? ==> |r.value| == GroupsFrom(segs, 0)
  {
    if |p| >= 1 && p[0] == '/' then MatchFrom(segs, 0, p, 1) else None
  }

  /** The segments of a route's URL, from which its pattern was built. */
  function RouteSegments(r: RouteEntry): seq<Segment> {
    Segments(r.urlPath)
  }

  predicate RouteMatches(r: RouteEntry, p: string) {
    MatchPath(RouteSegments(r), p).Some?
  }

  // ---------------------------------------------------------------------
  // What the matcher accepts

  /** The text a literal-only route's segments spell from `j` on. */
  function SpellFrom(segs: seq<Segment>, j: nat): string
    requires j <= |segs|
    requires forall m :: 0 <= m < |segs| ==> segs[m].Lit?
    decreases |segs| - j
  {
    if j == |segs| then ""
    else (if j > 0 then "/" else "") + segs[j].text + SpellFrom(segs, j + 1)
  }

  /** The text from `i` on is `a` then `b` exactly when `a` occurs at `i`
      and `b` is what follows it. */
  lemma SliceSplit(p: string, i: nat, a: string, b: string)
    requires i <= |p|
    ensures p[i..] == a + b <==> (IsAt(p, a, i) && p[i + |a|..] == b)
  {
    if p[i..] == a + b {
      assert p[i..i + |a|] == (a + b)[..|a|];
      assert p[i + |a|..] == (a + b)[|a|..];
    }
    if IsAt(p, a, i) && p[i + |a|..] == b {
      assert p[i..] == p[i..i + |a|] + p[i + |a|..];
    }
  }

  /** The matcher at a literal segment. */
  lemma MatchAtLiteral(segs: seq<Segment>, j: nat, p: string, i: nat)
    requires j < |segs| && i <= |p| && segs[j].Lit?
    ensures var t, k := segs[j].text, if j > 0 then i + 1 else i;
      MatchFrom(segs, j, p, i) ==
        if j > 0 && !(i < |p| && p[i] == '/') then None
        else if IsAt(p, t, k) then MatchFrom(segs, j + 1, p, k + |t|)
        else None
  {
  }

  /** `StaticMatchFrom` at a literal segment `j > 0`. */
  lemma {:induction false} StaticStepInner(segs: seq<Segment>, j: nat, p: string, i: nat)
    requires 0 < j < |segs| && i <= |p|
    requires forall m :: 0 <= m < |segs| ==> segs[m].Lit?
    ensures MatchFrom(segs, j, p, i).Some? <==>
      (p[i..] == SpellFrom(segs, j) || p[i..] == SpellFrom(segs, j) + "/")
    decreases |segs| - j, 0
  {
    var t := segs[j].text;
    if IsAt(p, t, i + 1) {
      StaticMatchFrom(segs, j + 1, p, i + 1 + |t|);
    }
    SpellInner(segs, j);
    MatchAtLiteral(segs, j, p, i);
    SlashThenText(p, i, t, SpellFrom(segs, j + 1), MatchFrom(segs, j, p, i).Some?);
  }

  /** A literal segment after the first spells `/`, its text, then the
      rest. */
  lemma SpellInner(segs: seq<Segment>, j: nat)
    requires 0 < j < |segs|
    requires forall m :: 0 <= m < |segs| ==> segs[m].Lit?
    ensures var t, rest := segs[j].text, SpellFrom(segs, j + 1);
      SpellFrom(segs, j) == "/" + (t + rest) && SpellFrom(segs, j) + "/" == "/" + (t + (rest + "/"))
  {
  }

  /** The string fact behind `StaticStepInner`: the text from `i` on is `/`,
      `t`, then `rest` (and maybe a final `/`) exactly when `/` and `t`
      occur there and the rest is accepted. */
  lemma SlashThenText(p: string, i: nat, t: string, rest: string, next: bool)
    requires i <= |p|
    requires IsAt(p, t, i + 1) ==>
      ((i < |p| && p[i] == '/' && next) <==> (i < |p| && p[i] == '/' && (p[i + 1 + |t|..] == rest || p[i + 1 + |t|..] == rest + "/")))
    requires next ==> i < |p| && p[i] == '/' && IsAt(p, t, i + 1)
    ensures next <==> (p[i..] == "/" + (t + rest) || p[i..] == "/" + (t + (rest + "/")))
  {
    CharSplit(p, i, '/', t + rest);
    CharSplit(p, i, '/', t + (rest + "/"));
    if i < |p| && p[i] == '/' {
      SliceSplit(p, i + 1, t, rest);
      SliceSplit(p, i + 1, t, rest + "/");
    }
  }

  /** `p[i..]` is `c` then `x` exactly when `p[i]` is `c` and `x` follows. */
  lemma CharSplit(p: string, i: nat, c: char, x: string)
    requires i <= |p|
    ensures p[i..] == [c] + x <==> (i < |p| && p[i] == c && p[i + 1..] == x)
  {
    if i < |p| && p[i] == c && p[i + 1..] == x {
      assert p[i..] == [p[i]] + p[i + 1..];
    }
  }

  /** The same at the first segment, which has no `/` before it. */
  lemma {:induction false} StaticStepFirst(segs: seq<Segment>, p: string, i: nat)
    requires 0 < |segs| && i <= |p|
    requires forall m :: 0 <= m < |segs| ==> segs[m].Lit?
    ensures MatchFrom(segs, 0, p, i).Some? <==>
      (p[i..] == SpellFrom(segs, 0) || p[i..] == SpellFrom(segs, 0) + "/")
    decreases |segs|, 0
  {
    var t := segs[0].text;
    if IsAt(p, t, i) {
      StaticMatchFrom(segs, 1, p, i + |t|);
    }
    var rest := SpellFrom(segs, 1);
    MatchAtLiteral(segs, 0, p, i);
    assert SpellFrom(segs, 0) == t + rest;
    assert SpellFrom(segs, 0) + "/" == t + (rest + "/");
    SliceSplit(p, i, t, rest);
    SliceSplit(p, i, t, rest + "/");
  }

  /** Past the last segment only the end, or one `/` then the end, is
      accepted. */
  lemma StaticMatchEnd(segs: seq<Segment>, p: string, i: nat)
    requires i <= |p|
    ensures MatchFrom(segs, |segs|, p, i).Some? <==> (p[i..] == "" || p[i..] == "/")
  {
    if i + 1 == |p| {
      assert p[i..] == [p[i]];
    }
  }

  lemma {:induction false} StaticMatchFrom(segs: seq<Segment>, j: nat, p: string, i: nat)
    requires j <= |segs| && i <= |p|
    requires forall m :: 0 <= m < |segs| ==> segs[m].Lit?
    ensures MatchFrom(segs, j, p, i).Some? <==>
      (p[i..] == SpellFrom(segs, j) || p[i..] == SpellFrom(segs, j) + "/")
    decreases |segs| - j, 1
  {
    if j == |segs| {
      StaticMatchEnd(segs, p, i);
    } else {
      if j > 0 {
        StaticStepInner(segs, j, p, i);
      } else {
        StaticStepFirst(segs, p, i);
      }
    }
  }

  /** A route without parameters matches exactly its own path, with or
      without one trailing `/`. */
  lemma StaticRouteMatches(segs: seq<Segment>, p: string)
    requires forall m :: 0 <= m < |segs| ==> segs[m].Lit?
    ensures MatchPath(segs, p).Some? <==>
      (p == "/" + SpellFrom(segs, 0) || p == "/" + SpellFrom(segs, 0) + "/")
  {
    if |p| >= 1 {
      StaticMatchFrom(segs, 0, p, 1);
      SliceSplit(p, 0, "/", SpellFrom(segs, 0));
      SliceSplit(p, 0, "/", SpellFrom(segs, 0) + "/");
      assert p[0..] == p;
      assert "/" + SpellFrom(segs, 0) + "/" == "/" + (SpellFrom(segs, 0) + "/");
    }
  }

  /** `/:name` captures the whole non-empty, `/`-free text after the slash. */
  lemma ParamCaptures(name: string, v: string)
    requires v != "" && '/' !in v
    ensures MatchPath([Param(name)], "/" + v) == Some([v])
  {
    var p := "/" + v;
    var segs := [Param(name)];
    assert forall m :: 1 <= m < |p| ==> p[m] == v[m - 1];
    assert NonSlashRun(p, 1) == |v|;
    assert MatchFrom(segs, 1, p, 1 + |v|) == Some([]);
    assert p[1..1 + |v|] == v;
    assert [p[1..1 + |v|]] + [] == [v];
    assert TryLengths(segs, 0, p, 1, |v|, 1) == Some([v]);
    assert MatchFrom(segs, 0, p, 1) == TryLengths(segs, 0, p, 1, |v|, 1);
  }

  /** `/:name` rejects the bare root. */
  lemma ParamNeedsText(name: string)
    ensures MatchPath([Param(name)], "/") == None
  {
    var segs := [Param(name)];
    assert NonSlashRun("/", 1) == 0;
    assert TryLengths(segs, 0, "/", 1, 0, 1) == None;
    assert MatchFrom(segs, 0, "/", 1) == None;
  }

  /** A rest segment `*name` as the whole route also matches the bare root,
      capturing the empty text. */
  lemma RestMatchesRoot(name: string)
    ensures MatchPath([Rest(name)], "/") == Some([""])
  {
    var segs, p := [Rest(name)], "/";
    assert AnyRun(p, 1) == 0;
    assert MatchFrom(segs, 1, p, 1) == Some([]);
    assert TryLengths(segs, 0, p, 1, 0, 0) == Some([p[1..1]] + []);
    var cap: string := p[1..1];
    assert |cap| == 0;
    assert cap == "";
    assert [cap] + [] == [""];
    assert MatchPath(segs, p) == MatchFrom(segs, 0, p, 1);
    assert MatchFrom(segs, 0, p, 1) == TryLengths(segs, 0, p, 1, 0, 0);
  }

  /** A rest segment `*name` as the whole route captures all the text
      after the root slash, slashes included, as long as it holds no line
      terminator: `(.*)` is greedy and the optional `/` then matches
      nothing. */
  lemma RestCaptures(name: string, v: string)
    requires forall m :: 0 <= m < |v| ==> !IsLineTerminator(v[m])
    ensures MatchPath([Rest(name)], "/" + v) == Some([v])
  {
    var p := "/" + v;
    var segs := [Rest(name)];
    assert forall m :: 1 <= m < |p| ==> p[m] == v[m - 1];
    assert AnyRun(p, 1) == |v|;
    assert MatchFrom(segs, 1, p, 1 + |v|) == Some([]);
    assert p[1..1 + |v|] == v;
    assert [p[1..1 + |v|]] + [] == [v];
    assert TryLengths(segs, 0, p, 1, |v|, 0) == Some([v]);
    assert MatchFrom(segs, 0, p, 1) == TryLengths(segs, 0, p, 1, |v|, 0);
  }

  /** The rest parameter `*r` against `/a/b` captures `a/b`. */
  lemma RestExample()
    ensures MatchPath([Rest("r")], "/a/b") == Some(["a/b"])
  {
    RestCaptures("r", "a/b");
    assert "/" + "a/b" == "/a/b";
  }

  // ---------------------------------------------------------------------
  // Parameters

  /** Capture `i`, or `""` for a group that took no part in the match. */
  function CaptureOr(caps: seq<string>, i: nat): string {
    if i < |caps| then caps[i] else ""
  }

  /** The params object after the first `|names|` iterations of the index
      loop: each name bound to its decoded capture, later names overwriting
      earlier ones; a capture that fails to decode is a thrown error. */
  function BuildParams(names: seq<string>, caps: seq<string>, decode: string -> Option<string>): Result<map<string, string>>
    decreases |names|
  {
    if names == [] then Ok(map[])
    else
      var n := |names| - 1;
      match BuildParams(names[..n], caps, decode)
      case Err(e) => Err(e)
      case Ok(m) =>
        match decode(CaptureOr(caps, n))
        case None => Err("URIError: URI malformed")
        case Some(v) => Ok(m[names[n] := v])
  }

  /** The params object has exactly the listed names as keys. */
  lemma {:induction false} ParamsKeys(names: seq<string>, caps: seq<string>, decode: string -> Option<string>)
    requires BuildParams(names, caps, decode).Ok?
    ensures forall n :: n in BuildParams(names, caps, decode).value <==> n in names
    decreases |names|
  {
    if names != [] {
      var n := |names| - 1;
      ParamsKeys(names[..n], caps, decode);
      assert names == names[..n] + [names[n]];
    }
  }

  /** A name's value is the decoded capture at its last position. */
  lemma {:induction false} ParamsLastWins(names: seq<string>, caps: seq<string>, decode: string -> Option<string>, i: nat)
    requires BuildParams(names, caps, decode).Ok?
    requires i < |names| && forall m :: i < m < |names| ==> names[m] != names[i]
    ensures names[i] in BuildParams(names, caps, decode).value
    ensures decode(CaptureOr(caps, i)) == Some(BuildParams(names, caps, decode).value[names[i]])
    decreases |names|
  {
    var n := |names| - 1;
    if i < n {
      assert names[..n][i] == names[i];
      ParamsLastWins(names[..n], caps, decode, i);
    }
  }

  /** The build fails exactly when some capture fails to decode. */
  lemma {:induction false} ParamsFail(names: seq<string>, caps: seq<string>, decode: string -> Option<string>)
    ensures BuildParams(names, caps, decode).Err? <==> exists i :: 0 <= i < |names| && decode(CaptureOr(caps, i)).None?
    decreases |names|
  {
    if names != [] {
      var n := |names| - 1;
      ParamsFail(names[..n], caps, decode);
      if exists i :: 0 <= i < n && decode(CaptureOr(caps, i)).None? {
        var i :| 0 <= i < n && decode(CaptureOr(caps, i)).None?;
        assert 0 <= i < |names|;
      }
    }
  }

  /** `decodeURIComponent(m[i + 1] ?? "")` for each parameter in turn. */
  method DecodeParams(names: seq<string>, caps: seq<string>, decode: string -> Option<string>)
    returns (r: Result<map<string, string>>)
    ensures r == BuildParams(names, caps, decode)
  {
    var params: map<string, string> := map[];
    for i := 0 to |names|
      invariant BuildParams(names[..i], caps, decode) == Ok(params)
    {
      assert names[..i + 1][..i] == names[..i];
      var v := decode(CaptureOr(caps, i));
      if v.None? {
        ParamErrorStops(names, i + 1, caps, decode);
        return Err("URIError: URI malformed");
      }
      params := params[names[i] := v.value];
    }
    assert names[..|names|] == names;
    return Ok(params);
  }

  datatype MatchResult = MatchResult(route: RouteEntry, params: map<string, string>)

  /** The index of the first route whose pattern matches. */
  function FirstMatch(routes: seq<RouteEntry>, p: string): (r: Option<nat>)
    ensures r.Some? ==> r.value < |routes| && RouteMatches(routes[r.value], p)
    ensures r.Some? ==> forall k :: 0 <= k < r.value ==> !RouteMatches(routes[k], p)
    ensures r.None? <==> forall k :: 0 <= k < |routes| ==> !RouteMatches(routes[k], p)
    decreases |routes|
  {
    if routes == [] then None
    else if RouteMatches(routes[0], p) then Some(0)
    else
      match FirstMatch(routes[1..], p)
      case None => None
      case Some(k) => Some(k + 1)
  }

  /** What `matchRoute` returns: the first matching route with its decoded
      parameters, null when no route matches, or the error a malformed
      escape throws. */
  function MatchResultOf(routes: seq<RouteEntry>, p: string, decode: string -> Option<string>): Result<Option<MatchResult>> {
    match FirstMatch(routes, p)
    case None => Ok(None)
    case Some(k) =>
      var caps := MatchPath(RouteSegments(routes[k]), p).value;
      match BuildParams(routes[k].paramNames, caps, decode)
      case Err(e) => Err(e)
      case Ok(ps) => Ok(Some(MatchResult(routes[k], ps)))
  }

  /** `matchRoute`. */
  method MatchRoute(routes: seq<RouteEntry>, pathname: string, decode: string -> Option<string>)
    returns (r: Result<Option<MatchResult>>)
    ensures r == MatchResultOf(routes, pathname, decode)
  {
    for k := 0 to |routes|
      invariant forall m :: 0 <= m < k ==> !RouteMatches(routes[m], pathname)
    {
      var m := MatchPath(RouteSegments(routes[k]), pathname);
      if m.Some? {
        FirstMatchIs(routes, pathname, k);
        var params :- DecodeParams(routes[k].paramNames, m.value, decode);
        return Ok(Some(MatchResult(routes[k], params)));
      }
    }
    return Ok(None);
  }

  lemma FirstMatchIs(routes: seq<RouteEntry>, p: string, k: nat)
    requires k < |routes| && RouteMatches(routes[k], p)
    requires forall m :: 0 <= m < k ==> !RouteMatches(routes[m], p)
    ensures FirstMatch(routes, p) == Some(k)
  {
    var f := FirstMatch(routes, p);
    assert f.Some?;
    if f.value < k { } else if f.value > k { }
  }

  /** A failed decode fails the whole parameter build, with the same error. */
  lemma {:induction false} ParamErrorStops(names: seq<string>, k: nat, caps: seq<string>, decode: string -> Option<string>)
    requires k <= |names|
    requires BuildParams(names[..k], caps, decode) == Err("URIError: URI malformed")
    ensures BuildParams(names, caps, decode) == Err("URIError: URI malformed")
    decreases |names| - k
  {
    if k < |names| {
      assert names[..k + 1][..k] == names[..k];
      ParamErrorStops(names, k + 1, caps, decode);
    } else {
      assert names[..k] == names;
    }
  }
}
