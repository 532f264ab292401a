/** Island markers and hydration (src/build/island-hydration.ts): the
    marker `markIsland` writes into a page, the scan that reads markers
    back out of a page, and the hydration script put before `</body>`.
    `JSON.stringify` and `JSON.parse` are parameters (`parse` fails as the
    JavaScript one throws), and so is the random part of a marker's id. */
module Islands {
  import opened Wrappers
  import opened Text
  import HtmlInline

  datatype Island<P> = Island(id: string, component: string, props: P)

  datatype IslandRegistry<P> = IslandRegistry(islands: seq<Island<P>>)

  /** `createIslandRegistry`: no islands yet. */
  function CreateIslandRegistry<P>(): (r: IslandRegistry<P>)
    ensures |r.islands| == 0
  {
    IslandRegistry([])
  }

  // ---------------------------------------------------------------------
  // The marker and the pattern that reads it
  // `data-island="([^"]+)" data-props='([^']+)' id="([^"]+)"`

  const IslandAttr := "data-island=\""
  const PropsAttr := "\" data-props='"
  const IdAttr := "' id=\""
  const DivOpen := "<div "
  const DivClose := "\"></div>"

  /** `markIsland`: the component name, the props as JSON and the id, in
      that order, on an empty `div`. `suffix` is the base-36 text taken from
      `Math.random()`. */
  function MarkIsland(name: string, json: string, suffix: string): string {
    DivOpen + Attributes(name, json, "island-" + suffix)
  }

  /** The marker's attributes and the end of its tag. */
  function Attributes(name: string, json: string, id: string): string {
    IslandAttr + (name + (PropsAttr + (json + (IdAttr + (id + DivClose)))))
  }

  /** The index of the first `c` in `t`, or `|t|`. */
  function RunEnd(t: string, c: char): (e: nat)
    ensures e <= |t| && c !in t[..e]
    ensures e < |t| ==> t[e] == c
  {
    if |t| == 0 then 0
    else if t[0] == c then 0
    else
      var e := RunEnd(t[1..], c) + 1;
      assert t[..e] == [t[0]] + t[1..][..e - 1];
      e
  }

  /** A run of non-`c` characters ends at the `c` that follows it. */
  lemma {:induction false} RunEndAt(y: string, z: string, c: char)
    requires c !in y && |z| > 0 && z[0] == c
    ensures RunEnd(y + z, c) == |y|
  {
    if |y| > 0 {
      assert (y + z)[1..] == y[1..] + z;
      RunEndAt(y[1..], z, c);
    }
  }

  /** Literal text `p` at the start of `t`, compared one character at a
      time. */
  predicate Literal(t: string, p: string)
    decreases |p|
  {
    |p| == 0 || (|t| > 0 && t[0] == p[0] && Literal(t[1..], p[1..]))
  }

  lemma {:induction false} LiteralPrefix(p: string, x: string)
    ensures Literal(p + x, p)
    decreases |p|
  {
    if |p| > 0 {
      assert (p + x)[1..] == p[1..] + x;
      LiteralPrefix(p[1..], x);
    }
  }

  lemma {:induction false} LiteralLength(t: string, p: string)
    requires Literal(t, p)
    ensures |p| <= |t|
    decreases |p|
  {
    if |p| > 0 {
      LiteralLength(t[1..], p[1..]);
    }
  }

  /** A piece of the pattern: literal text, or a group `([^c]+)`. In this
      pattern the piece after a group always begins with its `c`, so the
      greedy group runs exactly to the first `c` and backtracking never
      helps. */
  datatype Part = Text(text: string) | Group(stop: char)

  /** `data-island="([^"]+)" data-props='([^']+)' id="([^"]+)"` */
  const Pattern: seq<Part> :=
    [Text(IslandAttr), Group('"'), Text(PropsAttr), Group('\''), Text(IdAttr), Group('"'), Text("\"")]

  function GroupCount(parts: seq<Part>): nat {
    if |parts| == 0 then 0 else (if parts[0].Group? then 1 else 0) + GroupCount(parts[1..])
  }

  /** The fewest characters the parts can match. */
  function MinWidth(parts: seq<Part>): nat {
    if |parts| == 0 then 0 else (if parts[0].Group? then 1 else |parts[0].text|) + MinWidth(parts[1..])
  }

  lemma PatternShape()
    ensures GroupCount(Pattern) == 3 && MinWidth(Pattern) == 37
  {
    assert Pattern[7..] == [];
    assert Pattern[6..][1..] == Pattern[7..] && GroupCount(Pattern[6..]) == 0 && MinWidth(Pattern[6..]) == 1;
    assert Pattern[5..][1..] == Pattern[6..] && GroupCount(Pattern[5..]) == 1 && MinWidth(Pattern[5..]) == 2;
    assert Pattern[4..][1..] == Pattern[5..] && GroupCount(Pattern[4..]) == 1 && MinWidth(Pattern[4..]) == 8;
    assert Pattern[3..][1..] == Pattern[4..] && GroupCount(Pattern[3..]) == 2 && MinWidth(Pattern[3..]) == 9;
    assert Pattern[2..][1..] == Pattern[3..] && GroupCount(Pattern[2..]) == 2 && MinWidth(Pattern[2..]) == 23;
    assert Pattern[1..][1..] == Pattern[2..] && GroupCount(Pattern[1..]) == 3 && MinWidth(Pattern[1..]) == 24;
    assert Pattern[0..][1..] == Pattern[1..] && Pattern[0..] == Pattern;
  }

  /** A group's text in front of the groups matched after it. */
  function WithGroup(g: string, r: Option<(seq<string>, nat)>): Option<(seq<string>, nat)> {
    match r
    case None => None
    case Some((gs, left)) => Some(([g] + gs, left))
  }

  /** The parts at the start of `t`: the texts of the groups, and how many
      characters of `t` follow the match. */
  function MatchParts(t: string, parts: seq<Part>): (r: Option<(seq<string>, nat)>)
    ensures r.Some? ==> |r.value.0| == GroupCount(parts) && r.value.1 + MinWidth(parts) <= |t|
    decreases |parts|
  {
    if |parts| == 0 then Some(([], |t|))
    else
      match parts[0]
      case Text(p) =>
        if Literal(t, p) then
          LiteralLength(t, p);
          MatchParts(t[|p|..], parts[1..])
        else None
      case Group(c) =>
        var e := RunEnd(t, c);
        if e == 0 then None else WithGroup(t[..e], MatchParts(t[e..], parts[1..]))
  }

  /** What the pattern captures: component, props text, id, and the index
      just past the match. */
  datatype Match = Match(component: string, props: string, id: string, end: nat)

  /** The three groups of a pattern match in a text of length `n`, as a
      `Match`. */
  function ToMatch(n: nat, r: Option<(seq<string>, nat)>): Option<Match> {
    match r
    case None => None
    case Some((gs, left)) => if |gs| == 3 && left <= n then Some(Match(gs[0], gs[1], gs[2], n - left)) else None
  }

  /** The pattern `pat` at index `k`. */
  function MatchAt(s: string, k: nat, pat: seq<Part>): (r: Option<Match>)
    ensures r.Some? ==> k + MinWidth(pat) <= r.value.end <= |s|
  {
    if k > |s| then None else ToMatch(|s|, MatchParts(s[k..], pat))
  }

  /** Literal text at the head of the parts is passed over. */
  lemma TextStep(p: string, x: string, parts: seq<Part>)
    requires |parts| > 0 && parts[0] == Text(p)
    ensures MatchParts(p + x, parts) == MatchParts(x, parts[1..])
  {
    LiteralPrefix(p, x);
    assert (p + x)[|p|..] == x;
  }

  /** A group at the head of the parts takes the text up to its stop
      character. */
  lemma GroupStep(g: string, x: string, c: char, parts: seq<Part>)
    requires |parts| > 0 && parts[0] == Group(c)
    requires g != "" && c !in g && |x| > 0 && x[0] == c
    ensures MatchParts(g + x, parts) == WithGroup(g, MatchParts(x, parts[1..]))
  {
    RunEndAt(g, x, c);
    assert (g + x)[|g|..] == x && (g + x)[..|g|] == g;
  }

  /** The island pattern's shape, its literal texts left open: each group
      is followed by text that starts with the group's stop character. */
  predicate Shaped(pat: seq<Part>, a1: string, a2: string, a3: string, a4: string) {
    && pat == [Text(a1), Group('"'), Text(a2), Group('\''), Text(a3), Group('"'), Text(a4)]
    && |a2| > 0 && a2[0] == '"' && |a3| > 0 && a3[0] == '\'' && |a4| > 0 && a4[0] == '"'
  }

  lemma PatternShaped()
    ensures Shaped(Pattern, IslandAttr, PropsAttr, IdAttr, "\"")
  {
  }

  lemma ReadId(pat: seq<Part>, a1: string, a2: string, a3: string, a4: string, id: string, rest: string)
    requires Shaped(pat, a1, a2, a3, a4) && id != "" && '"' !in id
    ensures MatchParts(a3 + (id + (a4 + rest)), pat[4..]) == Some(([id], |rest|))
  {
    assert pat[6..][1..] == [];
    TextStep(a4, rest, pat[6..]);
    assert pat[5..][1..] == pat[6..];
    GroupStep(id, a4 + rest, '"', pat[5..]);
    assert [id] + [] == [id];
    assert pat[4..][1..] == pat[5..];
    TextStep(a3, id + (a4 + rest), pat[4..]);
  }

  lemma ReadProps(pat: seq<Part>, a1: string, a2: string, a3: string, a4: string, json: string, id: string, rest: string)
    requires Shaped(pat, a1, a2, a3, a4) && json != "" && '\'' !in json && id != "" && '"' !in id
    ensures MatchParts(a2 + (json + (a3 + (id + (a4 + rest)))), pat[2..]) == Some(([json, id], |rest|))
  {
    ReadId(pat, a1, a2, a3, a4, id, rest);
    assert pat[3..][1..] == pat[4..];
    GroupStep(json, a3 + (id + (a4 + rest)), '\'', pat[3..]);
    assert [json] + [id] == [json, id];
    assert pat[2..][1..] == pat[3..];
    TextStep(a2, json + (a3 + (id + (a4 + rest))), pat[2..]);
  }

  /** A pattern of this shape reads back the three texts it is wrapped
      around. */
  lemma ReadMarker(pat: seq<Part>, a1: string, a2: string, a3: string, a4: string,
                   name: string, json: string, id: string, rest: string)
    requires Shaped(pat, a1, a2, a3, a4)
    requires name != "" && '"' !in name && json != "" && '\'' !in json && id != "" && '"' !in id
    ensures MatchParts(a1 + (name + (a2 + (json + (a3 + (id + (a4 + rest)))))), pat) == Some(([name, json, id], |rest|))
  {
    ReadProps(pat, a1, a2, a3, a4, json, id, rest);
    assert pat[1..][1..] == pat[2..];
    GroupStep(name, a2 + (json + (a3 + (id + (a4 + rest)))), '"', pat[1..]);
    assert [name] + [json, id] == [name, json, id];
    TextStep(a1, name + (a2 + (json + (a3 + (id + (a4 + rest))))), pat);
  }

  /** The pattern reads the marker's attributes back. */
  lemma AttributesMatch(name: string, json: string, id: string)
    requires name != "" && '"' !in name && json != "" && '\'' !in json && id != "" && '"' !in id
    ensures MatchParts(Attributes(name, json, id), Pattern) == Some(([name, json, id], 7))
  {
    PatternShaped();
    assert DivClose == "\"" + "></div>";
    ReadMarker(Pattern, IslandAttr, PropsAttr, IdAttr, "\"", name, json, id, "></div>");
  }

  /** What the pattern finds at the start of `t` it finds after `pre`. */
  lemma MatchAfter(pre: string, t: string, pat: seq<Part>)
    ensures MatchAt(pre + t, |pre|, pat) == ToMatch(|pre + t|, MatchParts(t, pat))
  {
    assert (pre + t)[|pre|..] == t;
  }

  /** A match of `t` is a match after `pre`, ending as far from the end. */
  lemma MatchFound(pre: string, t: string, pat: seq<Part>, gs: seq<string>, left: nat)
    requires MatchParts(t, pat) == Some((gs, left)) && |gs| == 3
    ensures MatchAt(pre + t, |pre|, pat) == Some(Match(gs[0], gs[1], gs[2], |pre + t| - left))
  {
    MatchAfter(pre, t, pat);
  }

  /** A match starts with the first two characters of the pattern's
      leading text. */
  lemma MatchHead(s: string, k: nat, pat: seq<Part>)
    requires |pat| > 0 && pat[0].Text? && |pat[0].text| >= 2 && MatchAt(s, k, pat).Some?
    ensures k + 1 < |s| && s[k] == pat[0].text[0] && s[k + 1] == pat[0].text[1]
  {
    var t, p := s[k..], pat[0].text;
    assert Literal(t, p);
    assert Literal(t[1..], p[1..]);
    assert t[1..][0] == p[1..][0];
  }

  /** No match starts where the text differs from the first two characters
      of the pattern's leading text. */
  lemma NoMatchAt(s: string, k: nat, pat: seq<Part>)
    requires |pat| > 0 && pat[0].Text? && |pat[0].text| >= 2 && k + 1 < |s|
    requires s[k] != pat[0].text[0] || s[k + 1] != pat[0].text[1]
    ensures MatchAt(s, k, pat).None?
  {
    if MatchAt(s, k, pat).Some? {
      MatchHead(s, k, pat);
    }
  }

  /** No match starts inside `<div `. */
  lemma NoMatchInOpen(t: string, pat: seq<Part>)
    requires |t| > 0 && |pat| > 0 && pat[0].Text? && |pat[0].text| >= 2
    requires pat[0].text[0] == 'd' && pat[0].text[1] == 'a'
    ensures forall j :: 0 <= j < |DivOpen| ==> MatchAt(DivOpen + t, j, pat).None?
  {
    var s := DivOpen + t;
    assert s[0] == '<' && s[1] == 'd' && s[2] == 'i' && s[3] == 'v' && s[4] == ' ';
    NoMatchAt(s, 0, pat);
    NoMatchAt(s, 1, pat);
    NoMatchAt(s, 2, pat);
    NoMatchAt(s, 3, pat);
    NoMatchAt(s, 4, pat);
  }

  /** No match starts in the last characters of a text. */
  lemma NoMatchNearEnd(s: string, e: nat, pat: seq<Part>)
    requires |s| < e + MinWidth(pat)
    ensures forall j :: e <= j ==> MatchAt(s, j, pat).None?
  {
  }

  /** The leftmost match from `pos` is at `k` when there is one at `k`
      and none before it. */
  lemma NextMatchIs(s: string, pos: nat, k: nat, pat: seq<Part>)
    requires pos <= k && MatchAt(s, k, pat).Some? && forall j :: pos <= j < k ==> MatchAt(s, j, pat).None?
    ensures NextMatch(s, pos, pat) == Some(k)
  {
  }

  lemma IdNoQuote(suffix: string)
    requires '"' !in suffix
    ensures '"' !in "island-" + suffix
  {
    var id := "island-" + suffix;
    assert forall i :: 0 <= i < |suffix| ==> id[7 + i] == suffix[i];
  }

  /** A text with a match right after a prefix that holds none: the scan
      finds that match first and nothing after it. */
  lemma OneMatch(pre: string, t: string, pat: seq<Part>, gs: seq<string>, left: nat)
    requires MatchParts(t, pat) == Some((gs, left)) && |gs| == 3 && left < MinWidth(pat)
    requires forall j :: 0 <= j < |pre| ==> MatchAt(pre + t, j, pat).None?
    ensures var s := pre + t; var e := |s| - left;
      && NextMatch(s, 0, pat) == Some(|pre|) && MatchAt(s, |pre|, pat) == Some(Match(gs[0], gs[1], gs[2], e))
      && NextMatch(s, e, pat) == None
  {
    MatchFound(pre, t, pat, gs, left);
    NextMatchIs(pre + t, 0, |pre|, pat);
    NoMatchNearEnd(pre + t, |pre + t| - left, pat);
  }

  /** A marker holds exactly one match, at the end of `<div `. */
  lemma MarkerMatches(name: string, json: string, id: string)
    requires name != "" && '"' !in name && json != "" && '\'' !in json && id != "" && '"' !in id
    ensures var s := DivOpen + Attributes(name, json, id);
      && NextMatch(s, 0, Pattern) == Some(|DivOpen|)
      && MatchAt(s, |DivOpen|, Pattern) == Some(Match(name, json, id, |s| - 7))
      && NextMatch(s, |s| - 7, Pattern) == None
  {
    var t := Attributes(name, json, id);
    AttributesMatch(name, json, id);
    assert Pattern[0].text[0] == 'd' && Pattern[0].text[1] == 'a';
    NoMatchInOpen(t, Pattern);
    PatternShape();
    OneMatch(DivOpen, t, Pattern, [name, json, id], 7);
  }

  /** A scan that finds one match and nothing after it. */
  lemma ExtractSingle<P>(s: string, pat: seq<Part>, parse: string -> Result<P>, k: nat, m: Match, p: P)
    requires MinWidth(pat) > 0 && NextMatch(s, 0, pat) == Some(k) && MatchAt(s, k, pat) == Some(m)
    requires parse(m.props) == Ok(p) && NextMatch(s, m.end, pat) == None
    ensures Extracted(s, 0, pat, parse) == Ok([Island(m.id, m.component, p)])
  {
    assert Extracted(s, m.end, pat, parse) == Ok([]);
    assert [Island(m.id, m.component, p)] + [] == [Island(m.id, m.component, p)];
  }

  /** `regex.exec` from `lastIndex == pos`: the leftmost match at or after
      `pos`. */
  function NextMatch(s: string, pos: nat, pat: seq<Part>): (r: Option<nat>)
    ensures r.Some? ==> pos <= r.value && MatchAt(s, r.value, pat).Some?
    ensures r.Some? ==> forall j :: pos <= j < r.value ==> MatchAt(s, j, pat).None?
    ensures r.None? ==> forall j :: pos <= j ==> MatchAt(s, j, pat).None?
    decreases |s| + 1 - pos
  {
    if pos > |s| then None
    else if MatchAt(s, pos, pat).Some? then Some(pos)
    else NextMatch(s, pos + 1, pat)
  }

  /** `islands` in front of the islands of a scan, unless it failed. */
  function Prepend<P>(islands: seq<Island<P>>, r: Result<seq<Island<P>>>): Result<seq<Island<P>>> {
    match r
    case Err(e) => Err(e)
    case Ok(rest) => Ok(islands + rest)
  }

  /** The islands of the markers from `pos` on, in document order; a props
      text that does not parse fails the whole scan, as the JavaScript
      `JSON.parse` throws. */
  function Extracted<P>(html: string, pos: nat, pat: seq<Part>, parse: string -> Result<P>): Result<seq<Island<P>>>
    requires MinWidth(pat) > 0
    decreases |html| + 1 - pos
  {
    match NextMatch(html, pos, pat)
    case None => Ok([])
    case Some(k) =>
      var m := MatchAt(html, k, pat).value;
      match parse(m.props)
      case Err(e) => Err(e)
      case Ok(p) => Prepend([Island(m.id, m.component, p)], Extracted(html, m.end, pat, parse))
  }

  lemma PrependAssoc<P>(a: seq<Island<P>>, b: seq<Island<P>>, r: Result<seq<Island<P>>>)
    ensures Prepend(a, Prepend(b, r)) == Prepend(a + b, r)
  {
    if r.Ok? {
      assert a + (b + r.value) == a + b + r.value;
    }
  }

  /** `extractIslandsFromHtml`: the `exec` loop pushing one island per
      match. */
  method ExtractIslandsFromHtml<P>(html: string, parse: string -> Result<P>) returns (r: Result<seq<Island<P>>>)
    ensures r == Extracted(html, 0, Pattern, parse)
  {
    PatternShape();
    var islands: seq<Island<P>> := [];
    var lastIndex := 0;
    assert Prepend(islands, Extracted(html, 0, Pattern, parse)) == Extracted(html, 0, Pattern, parse) by {
      if Extracted(html, 0, Pattern, parse).Ok? {
        assert [] + Extracted(html, 0, Pattern, parse).value == Extracted(html, 0, Pattern, parse).value;
      }
    }
    while true
      invariant lastIndex <= |html| + 1
      invariant Extracted(html, 0, Pattern, parse) == Prepend(islands, Extracted(html, lastIndex, Pattern, parse))
      decreases |html| + 1 - lastIndex
    {
      var found := NextMatch(html, lastIndex, Pattern);
      if found.None? {
        assert islands + [] == islands;
        return Ok(islands);
      }
      var m := MatchAt(html, found.value, Pattern).value;
      var props := parse(m.props);
      if props.Err? {
        return Err(props.msg);
      }
      var island := Island(m.id, m.component, props.value);
      PrependAssoc(islands, [island], Extracted(html, m.end, Pattern, parse));
      islands := islands + [island];
      lastIndex := m.end;
    }
  }

  /** Reading back a single marker gives one island with the component
      name and props it was written with, provided the name has no `"`, the
      JSON is non-empty with no `'`, and `parse` undoes `stringify` on it. */
  lemma RoundTrip<P>(name: string, props: P, stringify: P -> string, parse: string -> Result<P>, suffix: string)
    requires name != "" && '"' !in name
    requires stringify(props) != "" && '\'' !in stringify(props)
    requires '"' !in suffix
    requires parse(stringify(props)) == Ok(props)
    ensures Extracted(MarkIsland(name, stringify(props), suffix), 0, Pattern, parse)
      == Ok([Island("island-" + suffix, name, props)])
  {
    var s := MarkIsland(name, stringify(props), suffix);
    var id := "island-" + suffix;
    IdNoQuote(suffix);
    MarkerMatches(name, stringify(props), id);
    PatternShape();
    ExtractSingle(s, Pattern, parse, |DivOpen|, Match(name, stringify(props), id, |s| - 7), props);
  }

  // ---------------------------------------------------------------------
  // Pages with several markers

  /** A marker to write: the component name, its props and the random
      suffix of its id. */
  datatype Marked<P> = Marked(name: string, props: P, suffix: string)

  /** A page made of the texts `gaps` with one marker between each two. */
  function Page<P>(gaps: seq<string>, ms: seq<Marked<P>>, stringify: P -> string): string
    requires |gaps| == |ms| + 1
    decreases |ms|
  {
    if |ms| == 0 then gaps[0]
    else gaps[0] + (MarkIsland(ms[0].name, stringify(ms[0].props), ms[0].suffix) + Page(gaps[1..], ms[1..], stringify))
  }

  /** The islands the markers `ms` stand for, in order. */
  function IslandsOf<P>(ms: seq<Marked<P>>): (r: seq<Island<P>>)
    ensures |r| == |ms|
    ensures forall k :: 0 <= k < |ms| ==> r[k] == Island("island-" + ms[k].suffix, ms[k].name, ms[k].props)
  {
    seq(|ms|, k requires 0 <= k < |ms| => Island("island-" + ms[k].suffix, ms[k].name, ms[k].props))
  }

  /** A marker the pattern can read back: a name without `"`, non-empty
      JSON without `'` that `parse` undoes, and a suffix without `"`. */
  ghost predicate Readable<P>(m: Marked<P>, stringify: P -> string, parse: string -> Result<P>) {
    && m.name != "" && '"' !in m.name
    && stringify(m.props) != "" && '\'' !in stringify(m.props)
    && '"' !in m.suffix
    && parse(stringify(m.props)) == Ok(m.props)
  }

  /** Text in which no match can start: it never has `d` right before
      `a`, the first two characters of `data-island`. */
  predicate MarkerFree(g: string) {
    forall j :: 0 <= j < |g| - 1 ==> !(g[j] == 'd' && g[j + 1] == 'a')
  }

  lemma {:induction false} NoMatchFrom(s: string, pos: nat, pat: seq<Part>)
    requires forall j :: pos <= j ==> MatchAt(s, j, pat).None?
    ensures NextMatch(s, pos, pat) == None
    decreases |s| + 1 - pos
  {
    if pos <= |s| {
      NoMatchFrom(s, pos + 1, pat);
    }
  }

  /** A pattern whose leading text starts with `da`, as `data-island`
      does. */
  predicate DaHead(pat: seq<Part>) {
    && |pat| > 0 && pat[0].Text? && |pat[0].text| >= 2
    && pat[0].text[0] == 'd' && pat[0].text[1] == 'a' && MinWidth(pat) > 0
  }

  /** No match starts in marker-free text `g` after `pre` when no `a`
      follows it. */
  lemma GapNoMatchAt(pre: string, g: string, t: string, pat: seq<Part>)
    requires DaHead(pat) && MarkerFree(g) && (|t| > 0 ==> t[0] != 'a')
    ensures forall j :: |pre| <= j < |pre| + |g| ==> MatchAt(pre + g + t, j, pat).None?
  {
    var s := pre + g + t;
    forall j | |pre| <= j < |pre| + |g| ensures MatchAt(s, j, pat).None? {
      if j + 1 < |s| {
        assert s[j] == g[j - |pre|];
        if j + 1 < |pre| + |g| {
          assert s[j + 1] == g[j + 1 - |pre|];
        } else {
          assert s[j + 1] == t[0];
        }
        NoMatchAt(s, j, pat);
      }
    }
  }

  /** `<div ` after marker-free text keeps it marker-free. */
  lemma OpenFree(g: string)
    requires MarkerFree(g)
    ensures MarkerFree(g + DivOpen)
  {
    var s := g + DivOpen;
    forall j | 0 <= j < |s| - 1 ensures !(s[j] == 'd' && s[j + 1] == 'a') {
      if j + 1 < |g| {
        assert s[j] == g[j] && s[j + 1] == g[j + 1];
      } else if j + 1 == |g| {
        assert s[j + 1] == '<';
      } else {
        assert s[j] == DivOpen[j - |g|] && s[j + 1] == DivOpen[j + 1 - |g|];
      }
    }
  }

  /** The end of a marker's tag keeps the text after it marker-free. */
  lemma TailFree(g: string)
    requires MarkerFree(g)
    ensures MarkerFree("></div>" + g)
  {
    var x := "></div>";
    var s := x + g;
    forall j | 0 <= j < |s| - 1 ensures !(s[j] == 'd' && s[j + 1] == 'a') {
      if j >= 7 {
        assert s[j] == g[j - 7] && s[j + 1] == g[j - 6];
      } else {
        assert s[j] == x[j];
        if j < 6 {
          assert s[j + 1] == x[j + 1];
        }
      }
    }
  }

  /** A marker's attributes followed by `r`, regrouped. */
  lemma AttributesThen(name: string, json: string, id: string, r: string)
    ensures var w := IslandAttr + (name + (PropsAttr + (json + (IdAttr + (id + "\"")))));
      && Attributes(name, json, id) + r == w + ("></div>" + r)
      && Attributes(name, json, id) + r
         == IslandAttr + (name + (PropsAttr + (json + (IdAttr + (id + ("\"" + ("></div>" + r)))))))
  {
    assert DivClose == "\"" + "></div>";
  }

  /** The pattern reads back every marker whose texts it can match. */
  ghost predicate ReadsMarkers(pat: seq<Part>) {
    forall name: string, json: string, id: string, r: string ::
      name != "" && '"' !in name && json != "" && '\'' !in json && id != "" && '"' !in id ==>
      MatchParts(Attributes(name, json, id) + r, pat) == Some(([name, json, id], |"></div>" + r|))
  }

  lemma PatternReadsMarkers()
    ensures ReadsMarkers(Pattern)
  {
    forall name: string, json: string, id: string, r: string
      | name != "" && '"' !in name && json != "" && '\'' !in json && id != "" && '"' !in id
      ensures MatchParts(Attributes(name, json, id) + r, Pattern) == Some(([name, json, id], |"></div>" + r|))
    {
      PatternShaped();
      AttributesThen(name, json, id, r);
      ReadMarker(Pattern, IslandAttr, PropsAttr, IdAttr, "\"", name, json, id, "></div>" + r);
    }
  }

  /** After `pre` and marker-free text `g`, a text `t` that the pattern
      matches (and that starts with `d`, not `a`) holds the next match. */
  lemma MatchAfterGap(pre: string, g: string, t: string, gs: seq<string>, left: nat, pat: seq<Part>)
    requires DaHead(pat) && MarkerFree(g) && |t| > 0 && t[0] == 'd'
    requires MatchParts(t, pat) == Some((gs, left)) && |gs| == 3
    ensures NextMatch(pre + g + t, |pre|, pat) == Some(|pre + g|)
    ensures MatchAt(pre + g + t, |pre + g|, pat) == Some(Match(gs[0], gs[1], gs[2], |pre + g + t| - left))
  {
    MatchFound(pre + g, t, pat, gs, left);
    GapNoMatchAt(pre, g, t, pat);
    NextMatchIs(pre + g + t, |pre|, |pre + g|, pat);
  }

  /** One marker of a page, its texts regrouped: the page goes on from
      `pre` with marker-free `g0 + <div `, then the attributes `a` and the
      rest `r`, and `a + r` is the matched part `w` and `></div>` + `r`. */
  lemma MarkerLayout(pre: string, g0: string, name: string, json: string, id: string, r: string)
    ensures var a, w := Attributes(name, json, id), IslandAttr + (name + (PropsAttr + (json + (IdAttr + (id + "\"")))));
      && pre + (g0 + (DivOpen + a + r)) == pre + (g0 + DivOpen) + (a + r)
      && pre + (g0 + DivOpen) + (a + r) == (pre + (g0 + DivOpen) + w) + ("></div>" + r)
      && (a + r)[0] == 'd'
  {
    var a := Attributes(name, json, id);
    AttributesThen(name, json, id, r);
    Regroup(pre, g0, DivOpen, a, r);
    RegroupAround(pre, g0, DivOpen, a, r, IslandAttr + (name + (PropsAttr + (json + (IdAttr + (id + "\""))))), "></div>" + r);
  }

  /** Concatenation regrouped, for texts the prover need not look into. */
  lemma Regroup(p: string, g: string, d: string, a: string, r: string)
    ensures p + (g + (d + a + r)) == p + (g + d) + (a + r)
    ensures p + (g + d) + (a + r) == p + g + d + a + r
    ensures p + g + d + a + r == (p + g + d + a) + r
  {
  }

  lemma RegroupAround(p: string, g: string, d: string, a: string, r: string, w: string, rest: string)
    requires a + r == w + rest
    ensures p + (g + d) + (a + r) == (p + (g + d) + w) + rest
  {
  }

  lemma PageCons<P>(x: string, g: string, gs: seq<string>, ms: seq<Marked<P>>, stringify: P -> string)
    requires |gs| == |ms|
    ensures Page([x + g] + gs, ms, stringify) == x + Page([g] + gs, ms, stringify)
  {
    assert ([x + g] + gs)[1..] == gs == ([g] + gs)[1..];
  }

  /** Where the scan goes on after the marker that follows `pre` and
      marker-free `g0`: just before the `></div>` closing its tag. */
  function AfterMarker(pre: string, g0: string, name: string, json: string, suffix: string): string {
    pre + (g0 + DivOpen) + (IslandAttr + (name + (PropsAttr + (json + (IdAttr + ("island-" + suffix + "\""))))))
  }

  /** One step of the scan: the marker after `pre` and marker-free `g0`
      gives its island, and the scan goes on at `AfterMarker`. */
  lemma MarkerStep<P>(pre: string, g0: string, name: string, json: string, suffix: string, props: P, r: string,
                      parse: string -> Result<P>, pat: seq<Part>)
    requires DaHead(pat) && ReadsMarkers(pat) && MarkerFree(g0)
    requires name != "" && '"' !in name && json != "" && '\'' !in json && '"' !in suffix
    requires parse(json) == Ok(props)
    ensures var s := pre + (g0 + (MarkIsland(name, json, suffix) + r));
      && s == AfterMarker(pre, g0, name, json, suffix) + ("></div>" + r)
      && Extracted(s, |pre|, pat, parse)
         == Prepend([Island("island-" + suffix, name, props)], Extracted(s, |AfterMarker(pre, g0, name, json, suffix)|, pat, parse))
  {
    var id := "island-" + suffix;
    IdNoQuote(suffix);
    var a := Attributes(name, json, id);
    var s := pre + (g0 + (DivOpen + a + r));
    MarkerLayout(pre, g0, name, json, id, r);
    OpenFree(g0);
    assert MatchParts(a + r, pat) == Some(([name, json, id], |"></div>" + r|));
    MatchAfterGap(pre, g0 + DivOpen, a + r, [name, json, id], |"></div>" + r|, pat);
  }

  lemma IslandsCons<P>(ms: seq<Marked<P>>)
    requires |ms| > 0
    ensures IslandsOf(ms) == [Island("island-" + ms[0].suffix, ms[0].name, ms[0].props)] + IslandsOf(ms[1..])
  {
  }

  /** Marker-free text after `pre` gives no island. */
  lemma GapOnly<P>(pre: string, g: string, parse: string -> Result<P>, pat: seq<Part>)
    requires DaHead(pat) && MarkerFree(g)
    ensures Extracted(pre + g, |pre|, pat, parse) == Ok([])
  {
    GapNoMatchAt(pre, g, "", pat);
    assert pre + g + "" == pre + g;
    NoMatchFrom(pre + g, |pre|, pat);
  }

  /** The gaps of the rest of a page once the scan has passed its first
      marker: the first one now starts with the tag's `></div>`. */
  function RestGaps(gaps: seq<string>): seq<string>
    requires |gaps| >= 2
  {
    ["></div>" + gaps[1]] + gaps[2..]
  }

  lemma RestOfPage<P>(gaps: seq<string>, ms: seq<Marked<P>>, stringify: P -> string)
    requires |gaps| == |ms| + 1 && |ms| > 0
    requires forall k :: 0 <= k < |gaps| ==> MarkerFree(gaps[k])
    ensures |RestGaps(gaps)| == |ms[1..]| + 1
    ensures forall k :: 0 <= k < |RestGaps(gaps)| ==> MarkerFree(RestGaps(gaps)[k])
    ensures "></div>" + Page(gaps[1..], ms[1..], stringify) == Page(RestGaps(gaps), ms[1..], stringify)
  {
    assert gaps[1..] == [gaps[1]] + gaps[2..];
    PageCons("></div>", gaps[1], gaps[2..], ms[1..], stringify);
    TailFree(gaps[1]);
    assert forall k :: 1 <= k < |RestGaps(gaps)| ==> RestGaps(gaps)[k] == gaps[k + 1];
  }

  /** The scan from the end of `pre`, followed by a page of readable
      markers and marker-free text, gives one island per marker, in
      order. */
  lemma {:induction false} ExtractFrom<P>(pre: string, gaps: seq<string>, ms: seq<Marked<P>>,
                                          stringify: P -> string, parse: string -> Result<P>, pat: seq<Part>)
    requires DaHead(pat) && ReadsMarkers(pat)
    requires |gaps| == |ms| + 1
    requires forall k :: 0 <= k < |gaps| ==> MarkerFree(gaps[k])
    requires forall k :: 0 <= k < |ms| ==> Readable(ms[k], stringify, parse)
    ensures Extracted(pre + Page(gaps, ms, stringify), |pre|, pat, parse) == Ok(IslandsOf(ms))
    decreases |ms|
  {
    var s := pre + Page(gaps, ms, stringify);
    if |ms| == 0 {
      GapOnly(pre, gaps[0], parse, pat);
    } else {
      var m := ms[0];
      var r := Page(gaps[1..], ms[1..], stringify);
      assert Readable(m, stringify, parse);
      MarkerStep(pre, gaps[0], m.name, stringify(m.props), m.suffix, m.props, r, parse, pat);
      var pre' := AfterMarker(pre, gaps[0], m.name, stringify(m.props), m.suffix);
      assert s == pre + (gaps[0] + (MarkIsland(m.name, stringify(m.props), m.suffix) + r));
      RestOfPage(gaps, ms, stringify);
      assert s == pre' + Page(RestGaps(gaps), ms[1..], stringify);
      ExtractFrom(pre', RestGaps(gaps), ms[1..], stringify, parse, pat);
      IslandsCons(ms);
      assert IslandsOf(ms) == [Island("island-" + m.suffix, m.name, m.props)] + IslandsOf(ms[1..]);
    }
  }

  /** A page whose markers are all readable and whose other text is
      marker-free gives one island per marker, in document order. */
  lemma ExtractPage<P>(gaps: seq<string>, ms: seq<Marked<P>>, stringify: P -> string, parse: string -> Result<P>)
    requires |gaps| == |ms| + 1
    requires forall k :: 0 <= k < |gaps| ==> MarkerFree(gaps[k])
    requires forall k :: 0 <= k < |ms| ==> Readable(ms[k], stringify, parse)
    ensures Extracted(Page(gaps, ms, stringify), 0, Pattern, parse) == Ok(IslandsOf(ms))
  {
    PatternShape();
    PatternReadsMarkers();
    assert "" + Page(gaps, ms, stringify) == Page(gaps, ms, stringify);
    ExtractFrom("", gaps, ms, stringify, parse, Pattern);
  }

  /** Two markers between marker-free texts give their two islands, in
      order. */
  lemma TwoMarkers<P>(p0: string, p1: string, p2: string, m1: Marked<P>, m2: Marked<P>,
                      stringify: P -> string, parse: string -> Result<P>)
    requires MarkerFree(p0) && MarkerFree(p1) && MarkerFree(p2)
    requires Readable(m1, stringify, parse) && Readable(m2, stringify, parse)
    ensures var page := p0 + MarkIsland(m1.name, stringify(m1.props), m1.suffix)
                      + p1 + MarkIsland(m2.name, stringify(m2.props), m2.suffix) + p2;
      Extracted(page, 0, Pattern, parse)
        == Ok([Island("island-" + m1.suffix, m1.name, m1.props), Island("island-" + m2.suffix, m2.name, m2.props)])
  {
    var gaps, ms := [p0, p1, p2], [m1, m2];
    ExtractPage(gaps, ms, stringify, parse);
    var x1 := MarkIsland(m1.name, stringify(m1.props), m1.suffix);
    var x2 := MarkIsland(m2.name, stringify(m2.props), m2.suffix);
    PageTwo(p0, p1, p2, x1, x2, m1, m2, stringify);
    assert IslandsOf(ms) == [Island("island-" + m1.suffix, m1.name, m1.props), Island("island-" + m2.suffix, m2.name, m2.props)];
  }

  lemma PageTwo<P>(p0: string, p1: string, p2: string, x1: string, x2: string, m1: Marked<P>, m2: Marked<P>, stringify: P -> string)
    requires x1 == MarkIsland(m1.name, stringify(m1.props), m1.suffix)
    requires x2 == MarkIsland(m2.name, stringify(m2.props), m2.suffix)
    ensures Page([p0, p1, p2], [m1, m2], stringify) == p0 + x1 + p1 + x2 + p2
  {
    var gaps, ms := [p0, p1, p2], [m1, m2];
    assert gaps[1..] == [p1, p2] && ms[1..] == [m2];
    assert [p1, p2][1..] == [p2] && [m2][1..] == [];
    assert Page([p2], [], stringify) == p2;
    assert Page([p1, p2], [m2], stringify) == p1 + (x2 + p2);
    assert p0 + x1 + p1 + x2 + p2 == p0 + (x1 + (p1 + (x2 + p2)));
  }

  // ---------------------------------------------------------------------
  // The hydration script

  // The template of `injectIslandScript`, cut into short pieces.
  const Head1 := "\n    <script type=\"module\">\n"
  const Head2 := "      import { hydrate } "
  const Head3 := "from '/__runtime/hydrate.js';\n"
  const Head4 := "      const islands = "
  const Tail1 := ";\n      islands.forEach(i => "
  const Tail2 := "hydrate(i.component, i.id, "
  const Tail3 := "i.props));\n    </script>\n  "
  const ScriptHead := Head1 + Head2 + Head3 + Head4
  const ScriptTail := Tail1 + Tail2 + Tail3

  /** The script `injectIslandScript` writes, with the islands' JSON. */
  function ScriptFor(json: string): string {
    ScriptHead + json + ScriptTail
  }

  lemma Head12Plain()
    ensures '$' !in Head1 + Head2
  {
    assert '$' !in Head1;
    assert '$' !in Head2;
  }

  lemma Head34Plain()
    ensures '$' !in Head3 + Head4
  {
    assert '$' !in Head3;
    assert '$' !in Head4;
  }

  lemma Tail12Plain()
    ensures '$' !in Tail1 + Tail2
  {
    assert '$' !in Tail1;
    assert '$' !in Tail2;
  }

  lemma Tail3Plain()
    ensures '$' !in Tail3 + "</body>"
  {
    assert '$' !in Tail3;
  }

  /** The template has no `$` of its own. */
  lemma TemplatePlain()
    ensures '$' !in ScriptHead && '$' !in ScriptTail + "</body>"
  {
    Head12Plain();
    Head34Plain();
    assert ScriptHead == (Head1 + Head2) + (Head3 + Head4);
    Tail12Plain();
    Tail3Plain();
    assert ScriptTail + "</body>" == (Tail1 + Tail2) + (Tail3 + "</body>");
  }

  /** The replacement patterns `String.prototype.replace` expands in a
      replacement string when the pattern is a string: `$$`, `$&`, `` $` ``
      and `$'`; any other `$` stands for itself. */
  function Expand(rep: string, matched: string, before: string, after: string): string
    decreases |rep|
  {
    if |rep| >= 2 && rep[0] == '$' && rep[1] == '$' then "$" + Expand(rep[2..], matched, before, after)
    else if |rep| >= 2 && rep[0] == '$' && rep[1] == '&' then matched + Expand(rep[2..], matched, before, after)
    else if |rep| >= 2 && rep[0] == '$' && rep[1] == '`' then before + Expand(rep[2..], matched, before, after)
    else if |rep| >= 2 && rep[0] == '$' && rep[1] == '\'' then after + Expand(rep[2..], matched, before, after)
    else if |rep| == 0 then ""
    else [rep[0]] + Expand(rep[1..], matched, before, after)
  }

  /** Text with no `$` is inserted as it is. */
  lemma {:induction false} ExpandPlain(a: string, rest: string, matched: string, before: string, after: string)
    requires '$' !in a
    ensures Expand(a + rest, matched, before, after) == a + Expand(rest, matched, before, after)
    decreases |a|
  {
    if |a| > 0 {
      assert (a + rest)[0] == a[0];
      assert (a + rest)[1..] == a[1..] + rest;
      ExpandPlain(a[1..], rest, matched, before, after);
    } else {
      assert a + rest == rest;
    }
  }

  /** `s.replace(pat, rep)` with a string pattern: the first occurrence
      replaced by `rep` with its patterns expanded. */
  function JsReplace(s: string, pat: string, rep: string): string {
    match Find(s, pat)
    case None => s
    case Some(k) => s[..k] + Expand(rep, pat, s[..k], s[k + |pat|..]) + s[k + |pat|..]
  }

  /** `injectIslandScript` as written: `html.replace('</body>', script +
      '</body>')`, with `json` the `JSON.stringify` of the islands. */
  function InjectIslandScript<P>(html: string, islands: seq<Island<P>>, json: string): string {
    if |islands| == 0 then html
    else JsReplace(html, "</body>", ScriptFor(json) + "</body>")
  }

  /** With no islands, or no `</body>`, the page is returned unchanged. */
  lemma InjectLeavesPage<P>(html: string, islands: seq<Island<P>>, json: string)
    requires |islands| == 0 || Find(html, "</body>").None?
    ensures InjectIslandScript(html, islands, json) == html
  {
  }

  /** Text with no `$` expands to itself. */
  lemma ExpandNone(x: string, matched: string, before: string, after: string)
    requires '$' !in x
    ensures Expand(x, matched, before, after) == x
  {
    ExpandPlain(x, "", matched, before, after);
    assert x + "" == x;
  }

  /** A template around text with no `$` is inserted as it is. */
  lemma ExpandTemplate(head: string, json: string, tail: string, matched: string, before: string, after: string)
    requires '$' !in head && '$' !in json && '$' !in tail
    ensures Expand(head + json + tail, matched, before, after) == head + json + tail
  {
    assert Expand(json + tail, matched, before, after) == json + tail by {
      ExpandNone(tail, matched, before, after);
      ExpandPlain(json, tail, matched, before, after);
    }
    ExpandPlain(head, json + tail, matched, before, after);
    assert head + json + tail == head + (json + tail);
  }

  /** A template around JSON holding one `$&` gets the matched text in its
      place. */
  lemma ExpandAmpersand(head: string, a: string, b: string, tail: string, matched: string, before: string, after: string)
    requires '$' !in head && '$' !in a && '$' !in b && '$' !in tail
    ensures Expand(head + (a + "$&" + b) + tail, matched, before, after) == head + (a + matched + b) + tail
  {
    var rest := b + tail;
    assert Expand("$&" + rest, matched, before, after) == matched + rest by {
      assert Expand(rest, matched, before, after) == rest by {
        ExpandNone(tail, matched, before, after);
        ExpandPlain(b, tail, matched, before, after);
      }
      assert ("$&" + rest)[2..] == rest;
    }
    assert Expand(a + ("$&" + rest), matched, before, after) == a + (matched + rest) by {
      ExpandPlain(a, "$&" + rest, matched, before, after);
    }
    ExpandPlain(head, a + ("$&" + rest), matched, before, after);
    assert head + (a + "$&" + b) + tail == head + (a + ("$&" + rest));
    assert head + (a + matched + b) + tail == head + (a + (matched + rest));
  }

  /** `replace` at the first occurrence `k` of `pat`, when the replacement
      is `t + pat` once expanded: `t` goes in right before `pat`. */
  lemma ReplaceBefore(html: string, pat: string, rep: string, t: string, k: nat)
    requires Find(html, pat) == Some(k)
    requires Expand(rep, pat, html[..k], html[k + |pat|..]) == t + pat
    ensures JsReplace(html, pat, rep) == html[..k] + t + html[k..]
  {
    var a, r := html[..k], html[k + |pat|..];
    assert JsReplace(html, pat, rep) == a + (t + pat) + r;
    assert html[k..k + |pat|] == pat;
    assert html[k..] == pat + r;
    assert a + (t + pat) + r == a + t + (pat + r);
  }

  /** With no `$` in the JSON the replacement text stands for itself. */
  lemma ReplacementPlain(json: string, before: string, after: string)
    requires '$' !in json
    ensures Expand(ScriptFor(json) + "</body>", "</body>", before, after) == ScriptFor(json) + "</body>"
  {
    TemplatePlain();
    ExpandTemplate(ScriptHead, json, ScriptTail + "</body>", "</body>", before, after);
    assert ScriptFor(json) + "</body>" == ScriptHead + json + (ScriptTail + "</body>");
  }

  /** With `$&` in the JSON the replacement text gets the matched text
      there. */
  lemma ReplacementAmpersand(a: string, b: string, before: string, after: string)
    requires '$' !in a && '$' !in b
    ensures Expand(ScriptFor(a + "$&" + b) + "</body>", "</body>", before, after)
      == ScriptFor(a + "</body>" + b) + "</body>"
  {
    TemplatePlain();
    ExpandAmpersand(ScriptHead, a, b, ScriptTail + "</body>", "</body>", before, after);
    assert ScriptFor(a + "$&" + b) + "</body>" == ScriptHead + (a + "$&" + b) + (ScriptTail + "</body>");
    assert ScriptFor(a + "</body>" + b) + "</body>" == ScriptHead + (a + "</body>" + b) + (ScriptTail + "</body>");
  }

  /** When the islands' JSON has no `$`, the script lands verbatim right
      before the first `</body>` and the rest of the page is kept. */
  lemma InjectBeforeFirstBody<P>(html: string, islands: seq<Island<P>>, json: string, k: nat)
    requires |islands| > 0 && Find(html, "</body>") == Some(k) && '$' !in json
    ensures InjectIslandScript(html, islands, json) == html[..k] + ScriptFor(json) + html[k..]
  {
    ReplacementPlain(json, html[..k], html[k + 7..]);
    ReplaceBefore(html, "</body>", ScriptFor(json) + "</body>", ScriptFor(json), k);
  }

  /** A `$&` in the islands' JSON, as a props string holding `$&` gives
      (`["$&"]` is one such JSON), is not written as such: `replace` puts
      the matched `</body>` in its place. */
  lemma DollarInPropsAsWritten<P>(html: string, islands: seq<Island<P>>, a: string, b: string, k: nat)
    requires |islands| > 0 && Find(html, "</body>") == Some(k) && '$' !in a && '$' !in b
    ensures InjectIslandScript(html, islands, a + "$&" + b)
      == html[..k] + ScriptFor(a + "</body>" + b) + html[k..]
  {
    ReplacementAmpersand(a, b, html[..k], html[k + 7..]);
    ReplaceBefore(html, "</body>", ScriptFor(a + "$&" + b) + "</body>", ScriptFor(a + "</body>" + b), k);
  }

  /** The insertion as intended: the script text goes in literally before
      the first `</body>`, whatever its JSON holds. */
  function InjectIslandScriptLiteral<P>(html: string, islands: seq<Island<P>>, json: string): (r: string)
    ensures |islands| == 0 || Find(html, "</body>").None? ==> r == html
    ensures |islands| > 0 && Find(html, "</body>").Some? ==>
      var k := Find(html, "</body>").value; var t := ScriptFor(json);
      |r| == |html| + |t| && r[..k] == html[..k] && IsAt(r, t, k) && r[k + |t|..] == html[k..]
  {
    if |islands| == 0 then html
    else
      match Find(html, "</body>")
      case None => html
      case Some(k) => HtmlInline.InsertAt(html, k, ScriptFor(json))
  }

  /** The two agree whenever the JSON has no `$`. */
  lemma LiteralAgreesWithoutDollar<P>(html: string, islands: seq<Island<P>>, json: string)
    requires '$' !in json
    ensures InjectIslandScriptLiteral(html, islands, json) == InjectIslandScript(html, islands, json)
  {
    if |islands| > 0 && Find(html, "</body>").Some? {
      InjectBeforeFirstBody(html, islands, json, Find(html, "</body>").value);
    }
  }
}
