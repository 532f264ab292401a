/** Route discovery from the site directory's file names
    (src/core/routes/scan.ts): the URL a route file names, the pattern
    source and parameter names derived from that URL, and the order in
    which routes are tried. */
module RoutesScan {
  import opened Wrappers
  import opened Text
  import opened JsValues

  // ---------------------------------------------------------------------
  // Regular-expression escaping

  /** The characters `escapeRegex` protects: `.*+?^${}()|[]\`. */
  predicate RegexSpecial(c: char) {
    c in ".*+?^${}()|[]\\"
  }

  /** `escapeRegex`: every special character gets a backslash before it. */
  function EscapeRegex(s: string): (r: string)
    ensures |r| >= |s|
    ensures (forall i :: 0 <= i < |s| ==> !RegexSpecial(s[i])) ==> r == s
  {
    if s == [] then []
    else (if RegexSpecial(s[0]) then ['\\', s[0]] else [s[0]]) + EscapeRegex(s[1..])
  }

  /** Reading an escaped literal back: a backslash stands for the character
      after it. */
  function Unescape(t: string): string
    decreases |t|
  {
    if t == [] then []
    else if |t| >= 2 && t[0] == '\\' then [t[1]] + Unescape(t[2..])
    else [t[0]] + Unescape(t[1..])
  }

  /** Escaping loses nothing: the escaped text reads back as the input. */
  lemma {:induction false} UnescapeEscape(s: string)
    ensures Unescape(EscapeRegex(s)) == s
    decreases |s|
  {
    if s != [] {
      UnescapeEscape(s[1..]);
      var head := if RegexSpecial(s[0]) then ['\\', s[0]] else [s[0]];
      assert EscapeRegex(s) == head + EscapeRegex(s[1..]);
      if RegexSpecial(s[0]) {
        assert (head + EscapeRegex(s[1..]))[2..] == EscapeRegex(s[1..]);
      } else {
        assert s[0] != '\\';
        assert (head + EscapeRegex(s[1..]))[1..] == EscapeRegex(s[1..]);
      }
      assert s == [s[0]] + s[1..];
    }
  }

  /** In the escaped text no special character stands unprotected: each one
      is either preceded by the backslash that escapes it or is that
      backslash itself. Stated as: the escaped text is a sequence of
      one-character or backslash-pair tokens whose first characters are
      never bare specials. */
  lemma EscapeExamples()
    ensures EscapeRegex("a.b") == "a\\.b"
    ensures EscapeRegex("ab") == "ab"
  {
    assert RegexSpecial('.');
    assert EscapeRegex("b") == "b";
    assert EscapeRegex(".b") == "\\." + EscapeRegex("b");
    assert EscapeRegex("a.b") == "a" + EscapeRegex(".b");
  }

  // ---------------------------------------------------------------------
  // URL patterns

  /** One non-empty `/`-segment of a URL path: a literal, a `:name`
      parameter or a `*name` rest parameter. */
  datatype Segment = Lit(text: string) | Param(name: string) | Rest(name: string)

  predicate IsDynamic(s: Segment) { s.Param? || s.Rest? }

  function Classify(p: string): (s: Segment)
    ensures s.Param? <==> StartsWith(p, ":")
    ensures s.Rest? <==> !StartsWith(p, ":") && StartsWith(p, "*")
  {
    if StartsWith(p, ":") then Param(p[1..])
    else if StartsWith(p, "*") then Rest(p[1..])
    else Lit(p)
  }

  /** The non-empty `/`-separated parts of a URL path. */
  function Parts(url: string): (r: seq<string>)
    ensures forall i :: 0 <= i < |r| ==> r[i] != "" && '/' !in r[i]
  {
    var r := NonEmpty(Split(url, '/'));
    assert forall i :: 0 <= i < |r| ==> r[i] in Split(url, '/');
    r
  }

  function Segments(url: string): (r: seq<Segment>)
    ensures |r| == |Parts(url)|
    ensures forall i :: 0 <= i < |r| ==> r[i] == Classify(Parts(url)[i])
  {
    var ps := Parts(url);
    seq(|ps|, i requires 0 <= i < |ps| => Classify(ps[i]))
  }

  /** The regular expression a segment becomes. */
  function SegmentRegex(s: Segment): string {
    match s
    case Lit(t) => EscapeRegex(t)
    case Param(_) => "([^/]+)"
    case Rest(_) => "(.*)"
  }

  function RegexParts(segs: seq<Segment>): (r: seq<string>)
    ensures |r| == |segs|
    ensures forall i :: 0 <= i < |segs| ==> r[i] == SegmentRegex(segs[i])
  {
    if segs == [] then [] else RegexParts(segs[..|segs| - 1]) + [SegmentRegex(segs[|segs| - 1])]
  }

  /** The pattern source: `^/`, the segment regexes joined by `/`, `/?$`. */
  function PatternSource(segs: seq<Segment>): string {
    "^/" + Join(RegexParts(segs), "/") + "/?$"
  }

  /** One name per dynamic segment, left to right. */
  function ParamNames(segs: seq<Segment>): seq<string> {
    if segs == [] then []
    else
      var last := segs[|segs| - 1];
      ParamNames(segs[..|segs| - 1]) + (if IsDynamic(last) then [last.name] else [])
  }

  /** The number of dynamic segments. */
  function DynamicCount(segs: seq<Segment>): nat {
    if segs == [] then 0 else DynamicCount(segs[..|segs| - 1]) + (if IsDynamic(segs[|segs| - 1]) then 1 else 0)
  }

  lemma {:induction false} ParamNamesCount(segs: seq<Segment>)
    ensures |ParamNames(segs)| == DynamicCount(segs)
    decreases |segs|
  {
    if segs != [] {
      ParamNamesCount(segs[..|segs| - 1]);
    }
  }

  /** A purely literal path has no parameters. */
  lemma {:induction false} StaticHasNoParams(segs: seq<Segment>)
    requires forall i :: 0 <= i < |segs| ==> segs[i].Lit?
    ensures ParamNames(segs) == []
    decreases |segs|
  {
    if segs != [] {
      StaticHasNoParams(segs[..|segs| - 1]);
    }
  }

  /** `buildRoutePattern`. */
  method BuildRoutePattern(url: string) returns (src: string, paramNames: seq<string>)
    ensures src == PatternSource(Segments(url))
    ensures paramNames == ParamNames(Segments(url))
  {
    var parts := Parts(url);
    ghost var segs := Segments(url);
    var regexParts: seq<string> := [];
    paramNames := [];
    for i := 0 to |parts|
      invariant regexParts == RegexParts(segs[..i])
      invariant paramNames == ParamNames(segs[..i])
    {
      var p := parts[i];
      var re: string;
      if StartsWith(p, ":") {
        paramNames := paramNames + [p[1..]];
        re := "([^/]+)";
      } else if StartsWith(p, "*") {
        paramNames := paramNames + [p[1..]];
        re := "(.*)";
      } else {
        re := EscapeRegex(p);
      }
      assert segs[..i + 1][..i] == segs[..i];
      regexParts := regexParts + [re];
    }
    assert segs[..|parts|] == segs;
    src := "^/" + Join(regexParts, "/") + "/?$";
  }

  lemma PatternExamples()
    ensures PatternSource([Param("id")]) == "^/([^/]+)/?$"
    ensures PatternSource([]) == "^//?$"
    ensures ParamNames([Param("id"), Rest("rest")]) == ["id", "rest"]
  {
    assert RegexParts([Param("id")]) == ["([^/]+)"];
    var c := [Param("id"), Rest("rest")];
    assert c[..1] == [Param("id")];
  }

  // ---------------------------------------------------------------------
  // File name to URL

  /** `url.replaceAll("//", "/")`: each non-overlapping `//`, left to right,
      becomes `/`. */
  function CollapseSlashes(s: string): (r: string)
    ensures |r| <= |s|
    decreases |s|
  {
    if |s| >= 2 && s[0] == '/' && s[1] == '/' then "/" + CollapseSlashes(s[2..])
    else if s == [] then []
    else [s[0]] + CollapseSlashes(s[1..])
  }

  predicate HasDoubleSlash(s: string) {
    exists i :: 0 <= i < |s| - 1 && s[i] == '/' && s[i + 1] == '/'
  }

  /** Text without `//` is left as it is. */
  lemma {:induction false} CollapseWithoutDoubleSlash(s: string)
    requires !HasDoubleSlash(s)
    ensures CollapseSlashes(s) == s
    decreases |s|
  {
    if s != [] {
      assert !(|s| >= 2 && s[0] == '/' && s[1] == '/');
      assert !HasDoubleSlash(s[1..]) by {
        forall i | 0 <= i < |s[1..]| - 1 ensures !(s[1..][i] == '/' && s[1..][i + 1] == '/') {
          assert s[1..][i] == s[i + 1] && s[1..][i + 1] == s[i + 2];
        }
      }
      CollapseWithoutDoubleSlash(s[1..]);
    }
  }

  function DirPrefix(relDir: string): string {
    "/" + (if relDir != "" then relDir + "/" else "")
  }

  /** The URL a route file's name (the text inside its parentheses) names in
      directory `relDir`: `($p)` a `:p` parameter, `(...r)` a `*r` rest
      parameter, `(home)` the directory itself, anything else a literal
      segment. A parameter name that is not an identifier is an error. */
  function RouteUrl(relDir: string, name: string, rel: string): (r: Result<string>)
    ensures r.Err? <==>
      (StartsWith(name, "$") && !IsIdentifier(name[1..])) ||
      (StartsWith(name, "...") && !IsIdentifier(name[3..]))
    ensures name == "home" ==> r == Ok(if relDir == "" then "/" else "/" + relDir)
    ensures StartsWith(name, "$") && IsIdentifier(name[1..]) ==>
      r == Ok(CollapseSlashes(DirPrefix(relDir) + ":" + name[1..]))
    ensures StartsWith(name, "...") && IsIdentifier(name[3..]) ==>
      r == Ok(CollapseSlashes(DirPrefix(relDir) + "*" + name[3..]))
    ensures name != "home" && !StartsWith(name, "$") && !StartsWith(name, "...") ==>
      r == Ok(CollapseSlashes(DirPrefix(relDir) + name))
  {
    if StartsWith(name, "$") then
      assert name[0] == '$' && name != "home" && !StartsWith(name, "...");
      var param := name[1..];
      if !IsIdentifier(param) then Err("Invalid parameter name: " + param + " in route file " + rel)
      else Ok(CollapseSlashes(DirPrefix(relDir) + ":" + param))
    else if StartsWith(name, "...") then
      assert name[0] == '.' && name != "home";
      var restName := name[3..];
      if !IsIdentifier(restName) then Err("Invalid rest parameter name: " + restName + " in route file " + rel)
      else Ok(CollapseSlashes(DirPrefix(relDir) + "*" + restName))
    else if name == "home" then
      Ok(if relDir == "" then "/" else "/" + relDir)
    else
      Ok(CollapseSlashes(DirPrefix(relDir) + name))
  }

  /** At the site root `(home)` names `/`; in `blog` it names `/blog`; a
      parameter name starting with a digit is refused. */
  lemma RouteUrlExamples()
    ensures RouteUrl("blog", "home", "blog/(home).tsx") == Ok("/blog")
    ensures RouteUrl("", "home", "(home).tsx") == Ok("/")
    ensures RouteUrl("", "$1x", "($1x).tsx").Err?
  {
    assert "home"[..1] == "h" && "home"[..3] == "hom";
    assert "/" + "blog" == "/blog";
    assert StartsWith("$1x", "$");
    assert "$1x"[1..] == "1x" && !IsIdentifier("1x");
  }

  // ---------------------------------------------------------------------
  // Route entries

  datatype RouteEntry = RouteEntry(id: string, filePath: string, urlPath: string, pattern: string, paramNames: seq<string>)

  /** An entry whose pattern and parameter names are those
      `buildRoutePattern` derives from its URL. */
  predicate Built(e: RouteEntry) {
    e.pattern == PatternSource(Segments(e.urlPath)) && e.paramNames == ParamNames(Segments(e.urlPath))
  }

  /** A file found under the site directory: its absolute path and its path
      relative to the site directory, with `/` separators. */
  datatype SiteFile = SiteFile(abs: string, rel: string)

  /** The route-file settings: the accepted extensions and the first capture
      group of `routeFilePattern` applied to a base name (none when it does
      not match). */
  datatype RouteConfig = RouteConfig(fileExtensions: seq<string>, routeName: string -> Option<string>)

  predicate HasRouteExtension(rel: string, exts: seq<string>) {
    exists i :: 0 <= i < |exts| && EndsWith(rel, exts[i])
  }

  function Last(xs: seq<string>): string requires |xs| >= 1 { xs[|xs| - 1] }

  /** The directory part of a relative path: all its pieces but the last. */
  function RelDir(rel: string): string {
    var pieces := Split(rel, '/');
    Join(pieces[..|pieces| - 1], "/")
  }

  /** The route one file yields: none without a configured extension or a
      route-file name, an error for a bad parameter name. */
  function RouteOfFile(f: SiteFile, cfg: RouteConfig): (r: Result<Option<RouteEntry>>)
    ensures !HasRouteExtension(f.rel, cfg.fileExtensions) ==> r == Ok(None)
    ensures cfg.routeName(Last(Split(f.rel, '/'))).None? ==> r == Ok(None)
    ensures r.Ok? && r.value.Some? ==>
      && Built(r.value.value)
      && r.value.value.id == ReplaceChar(f.rel, '/', '_')
      && r.value.value.filePath == f.abs
    ensures HasRouteExtension(f.rel, cfg.fileExtensions) && cfg.routeName(Last(Split(f.rel, '/'))).Some? ==>
      var url := RouteUrl(RelDir(f.rel), cfg.routeName(Last(Split(f.rel, '/'))).value, f.rel);
      && (r.Err? <==> url.Err?)
      && (r.Err? ==> r.msg == url.msg)
      && (r.Ok? ==> r.value.Some? && r.value.value.urlPath == url.value)
  {
    if !HasRouteExtension(f.rel, cfg.fileExtensions) then Ok(None)
    else
      match cfg.routeName(Last(Split(f.rel, '/')))
      case None => Ok(None)
      case Some(name) =>
        match RouteUrl(RelDir(f.rel), name, f.rel)
        case Err(e) => Err(e)
        case Ok(url) =>
          var segs := Segments(url);
          Ok(Some(RouteEntry(ReplaceChar(f.rel, '/', '_'), f.abs, url, PatternSource(segs), ParamNames(segs))))
  }

  /** Whether the outcome for a file is a route. */
  predicate IsRoute(o: Result<Option<RouteEntry>>) {
    o.Ok? && o.value.Some?
  }

  /** The outcome for each file, in file order. */
  function Outcomes(files: seq<SiteFile>, cfg: RouteConfig): (os: seq<Result<Option<RouteEntry>>>)
    ensures |os| == |files|
    ensures forall i :: 0 <= i < |files| ==> os[i] == RouteOfFile(files[i], cfg)
  {
    seq(|files|, i requires 0 <= i < |files| => RouteOfFile(files[i], cfg))
  }

  /** The positions of the outcomes that are routes, in increasing order. */
  function RoutePositions(os: seq<Result<Option<RouteEntry>>>): (ks: seq<nat>)
    ensures forall j :: 0 <= j < |ks| ==> ks[j] < |os| && IsRoute(os[ks[j]])
    ensures forall j, k :: 0 <= j < k < |ks| ==> ks[j] < ks[k]
    ensures forall i :: 0 <= i < |os| && IsRoute(os[i]) ==> i in ks
  {
    if os == [] then []
    else
      var n := |os| - 1;
      RoutePositions(os[..n]) + (if IsRoute(os[n]) then [n] else [])
  }

  /** The routes of a list of files in file order, or the first error. */
  function CollectRoutes(files: seq<SiteFile>, cfg: RouteConfig): (r: Result<seq<RouteEntry>>)
    ensures r.Ok? ==> forall i :: 0 <= i < |r.value| ==> Built(r.value[i])
    ensures r.Ok? ==> |r.value| <= |files|
  {
    if files == [] then Ok([])
    else
      match CollectRoutes(files[..|files| - 1], cfg)
      case Err(e) => Err(e)
      case Ok(rs) =>
        match RouteOfFile(files[|files| - 1], cfg)
        case Err(e) => Err(e)
        case Ok(None) => Ok(rs)
        case Ok(Some(e)) => Ok(rs + [e])
  }

  /** The same fold over the files' outcomes: an error exactly when some
      outcome is one, and otherwise the `j`-th route is the `j`-th outcome
      that is a route. */
  function Collected(os: seq<Result<Option<RouteEntry>>>): (r: Result<seq<RouteEntry>>)
    ensures r.Err? <==> exists i :: 0 <= i < |os| && os[i].Err?
    ensures r.Ok? ==>
      var ks := RoutePositions(os);
      && |ks| == |r.value|
      && forall j :: 0 <= j < |ks| ==> os[ks[j]] == Ok(Some(r.value[j]))
  {
    if os == [] then Ok([])
    else
      var n := |os| - 1;
      assert forall i :: 0 <= i < n ==> os[..n][i] == os[i];
      match Collected(os[..n])
      case Err(e) => Err(e)
      case Ok(rs) =>
        match os[n]
        case Err(e) => Err(e)
        case Ok(None) => Ok(rs)
        case Ok(Some(e)) => Ok(rs + [e])
  }

  /** `CollectRoutes` is that fold over the outcomes of the files. */
  lemma {:induction false} CollectRoutesOutcomes(files: seq<SiteFile>, cfg: RouteConfig)
    ensures CollectRoutes(files, cfg) == Collected(Outcomes(files, cfg))
  {
    if files != [] {
      var n := |files| - 1;
      CollectRoutesOutcomes(files[..n], cfg);
      assert Outcomes(files, cfg)[..n] == Outcomes(files[..n], cfg);
    }
  }

  /** The routes come in file order: the `j`-th route is the route of the
      `j`-th file that yields one, and the scan fails exactly when some
      file gives an error. */
  lemma CollectRoutesInOrder(files: seq<SiteFile>, cfg: RouteConfig)
    ensures CollectRoutes(files, cfg).Err? <==> exists i :: 0 <= i < |files| && RouteOfFile(files[i], cfg).Err?
    ensures CollectRoutes(files, cfg).Ok? ==>
      var ks := RoutePositions(Outcomes(files, cfg));
      && |ks| == |CollectRoutes(files, cfg).value|
      && forall j :: 0 <= j < |ks| ==> ks[j] < |files| && RouteOfFile(files[ks[j]], cfg) == Ok(Some(CollectRoutes(files, cfg).value[j]))
  {
    CollectRoutesOutcomes(files, cfg);
  }

  // ---------------------------------------------------------------------
  // Ordering

  /** A route whose URL has a `:` or `*` is dynamic. */
  predicate Dynamic(e: RouteEntry) {
    ':' in e.urlPath || '*' in e.urlPath
  }

  /** The comparator: static routes first, then by URL (code-unit order in
      place of `localeCompare`). */
  predicate Before(a: RouteEntry, b: RouteEntry) {
    if Dynamic(a) != Dynamic(b) then !Dynamic(a)
    else StrLess(a.urlPath, b.urlPath)
  }

  lemma BeforeAsymmetric(a: RouteEntry, b: RouteEntry)
    ensures Before(a, b) ==> !Before(b, a)
  {
    StrLessAsymmetric(a.urlPath, b.urlPath);
  }

  /** No route is followed by one that should come before it. */
  predicate SortedRoutes(rs: seq<RouteEntry>) {
    forall i :: 0 <= i < |rs| - 1 ==> !Before(rs[i + 1], rs[i])
  }

  /** `x` placed before the first route it precedes: after every route it
      does not precede, so equal routes keep their order. */
  function InsertRoute(x: RouteEntry, rs: seq<RouteEntry>): (r: seq<RouteEntry>)
    requires SortedRoutes(rs)
    ensures SortedRoutes(r)
    ensures multiset(r) == multiset(rs) + multiset{x}
    ensures |r| == |rs| + 1
    ensures rs != [] ==> r[0] == x || r[0] == rs[0]
  {
    if rs == [] then [x]
    else if Before(x, rs[0]) then
      BeforeAsymmetric(x, rs[0]);
      [x] + rs
    else
      var tail := InsertRoute(x, rs[1..]);
      assert rs == [rs[0]] + rs[1..];
      [rs[0]] + tail
  }

  /** The stable sort of `routes.sort(...)`. */
  function SortRoutes(rs: seq<RouteEntry>): (r: seq<RouteEntry>)
    ensures SortedRoutes(r)
    ensures multiset(r) == multiset(rs)
  {
    if rs == [] then []
    else
      assert rs == rs[..|rs| - 1] + [rs[|rs| - 1]];
      InsertRoute(rs[|rs| - 1], SortRoutes(rs[..|rs| - 1]))
  }

  /** After sorting, every static route precedes every dynamic one. */
  lemma {:induction false} StaticBeforeDynamic(rs: seq<RouteEntry>, i: nat, j: nat)
    requires SortedRoutes(rs)
    requires i < j < |rs|
    requires Dynamic(rs[i])
    ensures Dynamic(rs[j])
    decreases j - i
  {
    assert !Before(rs[i + 1], rs[i]);
    if i + 1 < j {
      StaticBeforeDynamic(rs, i + 1, j);
    }
  }

  /** Neighbours of the same kind are in URL order. */
  lemma SameKindInUrlOrder(rs: seq<RouteEntry>, i: nat)
    requires SortedRoutes(rs)
    requires i + 1 < |rs| && Dynamic(rs[i]) == Dynamic(rs[i + 1])
    ensures !StrLess(rs[i + 1].urlPath, rs[i].urlPath)
  {
    assert !Before(rs[i + 1], rs[i]);
  }

  /** The per-file step of `scanRoutes`. */
  method RouteFor(f: SiteFile, cfg: RouteConfig) returns (r: Result<Option<RouteEntry>>)
    ensures r == RouteOfFile(f, cfg)
  {
    if !HasRouteExtension(f.rel, cfg.fileExtensions) {
      return Ok(None);
    }
    var pieces := Split(f.rel, '/');
    var m := cfg.routeName(pieces[|pieces| - 1]);
    if m.None? {
      return Ok(None);
    }
    var u := RouteUrl(RelDir(f.rel), m.value, f.rel);
    if u.Err? {
      return Err(u.msg);
    }
    var src, paramNames := BuildRoutePattern(u.value);
    r := Ok(Some(RouteEntry(ReplaceChar(f.rel, '/', '_'), f.abs, u.value, src, paramNames)));
  }

  lemma CollectStep(files: seq<SiteFile>, k: nat, cfg: RouteConfig, rs: seq<RouteEntry>)
    requires k < |files|
    requires CollectRoutes(files[..k], cfg) == Ok(rs)
    ensures CollectRoutes(files[..k + 1], cfg) ==
      match RouteOfFile(files[k], cfg)
      case Err(e) => Err(e)
      case Ok(None) => Ok(rs)
      case Ok(Some(e)) => Ok(rs + [e])
  {
    assert files[..k + 1][..k] == files[..k];
  }

  /** Once a prefix of the files fails, the whole list fails. */
  lemma {:induction false} ErrorStops(files: seq<SiteFile>, k: nat, cfg: RouteConfig)
    requires k <= |files|
    requires CollectRoutes(files[..k], cfg).Err?
    ensures CollectRoutes(files, cfg).Err?
    decreases |files| - k
  {
    if k < |files| {
      assert files[..k + 1][..k] == files[..k];
      ErrorStops(files, k + 1, cfg);
    } else {
      assert files[..k] == files;
    }
  }

  /** `scanRoutes` over the files the directory walk found. */
  method ScanRoutes(files: seq<SiteFile>, cfg: RouteConfig) returns (r: Result<seq<RouteEntry>>)
    ensures CollectRoutes(files, cfg).Err? <==> r.Err?
    ensures r.Ok? ==> r.value == SortRoutes(CollectRoutes(files, cfg).value)
  {
    var routes: seq<RouteEntry> := [];
    for k := 0 to |files|
      invariant CollectRoutes(files[..k], cfg) == Ok(routes)
    {
      var one := RouteFor(files[k], cfg);
      CollectStep(files, k, cfg, routes);
      if one.Err? {
        ErrorStops(files, k + 1, cfg);
        return Err(one.msg);
      }
      if one.value.Some? {
        routes := routes + [one.value.value];
      }
    }
    assert files[..|files|] == files;
    r := Ok(SortRoutes(routes));
  }

  /** Sorting keeps every route built from its URL. */
  lemma SortedStillBuilt(rs: seq<RouteEntry>)
    requires forall i :: 0 <= i < |rs| ==> Built(rs[i])
    ensures forall i :: 0 <= i < |SortRoutes(rs)| ==> Built(SortRoutes(rs)[i])
  {
    var s := SortRoutes(rs);
    forall i | 0 <= i < |s| ensures Built(s[i]) {
      assert s[i] in multiset(s);
      assert s[i] in multiset(rs);
      var k :| 0 <= k < |rs| && rs[k] == s[i];
    }
  }
}
