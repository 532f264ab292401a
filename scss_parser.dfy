/** The SCSS front end's parser: a cursor over the source text that reads
    variable declarations, rules, declarations and at-rules, its quote- and
    parenthesis-aware splitting helpers, and the CSS-like serialiser used to
    flatten at-rule bodies (native/stylepack/src/scss/parser.rs). */
module ScssParser {
  import opened Wrappers
  import opened Text

  datatype Node =
    | VarDecl(name: string, value: string)
    | Rule(selectors: seq<string>, body: seq<Node>)
    | Decl(prop: string, value: string)
    | RawAt(text: string)

  // ---------------------------------------------------------------------
  // Quote and parenthesis tracking

  predicate IsQuote(c: char) { c == '"' || c == '\'' }

  /** Where a scan stands: at parenthesis depth `depth` outside any string,
      inside a string opened by `q`, or just after a backslash inside one. */
  datatype ScanState = Top(depth: int) | InStr(q: char, depth: int) | Escaped(q: char, depth: int)

  /** One character of tracking. With `escapes`, a backslash inside a string
      also swallows the next character (as `read_until_any` does); without,
      it is an ordinary character (as in `split_decl`). */
  function Step(st: ScanState, c: char, escapes: bool): ScanState {
    match st
    case Escaped(q, d) => InStr(q, d)
    case InStr(q, d) =>
      if c == q then Top(d) else if escapes && c == '\\' then Escaped(q, d) else InStr(q, d)
    case Top(d) =>
      if IsQuote(c) then InStr(c, d)
      else if c == '(' then Top(d + 1)
      else if c == ')' then Top(d - 1)
      else Top(d)
  }

  /** The state after scanning `t` from the top level. */
  function StateAfter(t: string, escapes: bool): ScanState
    decreases |t|
  {
    if |t| == 0 then Top(0) else Step(StateAfter(t[..|t| - 1], escapes), t[|t| - 1], escapes)
  }

  lemma StateAfterSnoc(s: string, start: nat, k: nat, escapes: bool)
    requires start <= k < |s|
    ensures StateAfter(s[start..k + 1], escapes) == Step(StateAfter(s[start..k], escapes), s[k], escapes)
  {
    assert s[start..k + 1][..k - start] == s[start..k];
  }

  /** Index `m` of `s` holds one of `stops` outside every string and
      parenthesis, for a scan that began at `start`. */
  predicate TopStop(s: string, start: nat, m: nat, stops: set<char>, escapes: bool)
    requires start <= m
  {
    m < |s| && StateAfter(s[start..m], escapes) == Top(0)
    && !IsQuote(s[m]) && s[m] != '(' && s[m] != ')' && s[m] in stops
  }

  /** The first top-level stop at or after `k`, or `|s|`. */
  function FirstTopStop(s: string, start: nat, k: nat, stops: set<char>, escapes: bool): (j: nat)
    requires start <= k <= |s|
    ensures k <= j <= |s|
    ensures j < |s| ==> TopStop(s, start, j, stops, escapes)
    ensures forall m :: k <= m < j ==> !TopStop(s, start, m, stops, escapes)
    decreases |s| - k
  {
    if k == |s| || TopStop(s, start, k, stops, escapes) then k
    else FirstTopStop(s, start, k + 1, stops, escapes)
  }

  // ---------------------------------------------------------------------
  // White space and comments

  /** End of the white-space run starting at `k`. */
  function WsEnd(s: string, k: nat): (j: nat)
    requires k <= |s|
    ensures k <= j <= |s|
    ensures forall m {:trigger IsRustSpace(s[m])} :: k <= m < j ==> IsRustSpace(s[m])
    ensures j < |s| ==> !IsRustSpace(s[j])
    decreases |s| - k
  {
    if k < |s| && IsRustSpace(s[k]) then WsEnd(s, k + 1) else k
  }

  /** `starts_with` at index `k` for the two-character comment markers. */
  predicate PairAt(s: string, k: nat, a: char, b: char) {
    k + 1 < |s| && s[k] == a && s[k + 1] == b
  }

  /** Where a block comment whose body starts at `k` ends: just after the
      first `*` `/` at or after `k`, or at the end of the text. */
  function BlockCommentEnd(s: string, k: nat): (j: nat)
    requires k <= |s|
    ensures k <= j <= |s|
    ensures (j == |s| && forall m :: k <= m <= |s| ==> !PairAt(s, m, '*', '/'))
         || (k + 2 <= j && PairAt(s, j - 2, '*', '/') && forall m :: k <= m < j - 2 ==> !PairAt(s, m, '*', '/'))
    decreases |s| - k
  {
    if k == |s| then k
    else if PairAt(s, k, '*', '/') then k + 2
    else BlockCommentEnd(s, k + 1)
  }

  /** Where a line comment starting at `k` ends: just after the first
      newline at or after `k`, or at the end of the text. */
  function LineCommentEnd(s: string, k: nat): (j: nat)
    requires k <= |s|
    ensures k <= j <= |s|
    ensures (j == |s| && forall m :: k <= m < |s| ==> s[m] != '\n')
         || (k < j && s[j - 1] == '\n' && forall m :: k <= m < j - 1 ==> s[m] != '\n')
    decreases |s| - k
  {
    if k == |s| then k
    else if s[k] == '\n' then k + 1
    else LineCommentEnd(s, k + 1)
  }

  /** Where `skip_ws_and_comments` from `k` stops: after white space and
      any number of block and line comments, at a character that starts
      neither, or at the end. */
  function SkipFrom(s: string, k: nat): (j: nat)
    requires k <= |s|
    ensures k <= j <= |s|
    ensures j < |s| ==> !IsRustSpace(s[j]) && !PairAt(s, j, '/', '*') && !PairAt(s, j, '/', '/')
    decreases |s| - k
  {
    var w := WsEnd(s, k);
    if PairAt(s, w, '/', '*') then SkipFrom(s, BlockCommentEnd(s, w + 2))
    else if PairAt(s, w, '/', '/') then SkipFrom(s, LineCommentEnd(s, w))
    else w
  }

  /** Skipping again from where skipping stopped does not move. */
  lemma SkipFromIdempotent(s: string, k: nat)
    requires k <= |s|
    ensures SkipFrom(s, SkipFrom(s, k)) == SkipFrom(s, k)
  {
    var j := SkipFrom(s, k);
    assert WsEnd(s, j) == j;
  }

  /** An unterminated block comment runs to the end of the text. */
  lemma UnterminatedCommentRunsToEnd(s: string, k: nat)
    requires PairAt(s, k, '/', '*')
    requires forall m :: k + 2 <= m <= |s| ==> !PairAt(s, m, '*', '/')
    ensures SkipFrom(s, k) == |s|
  {
    assert WsEnd(s, k) == k;
    assert BlockCommentEnd(s, k + 2) == |s|;
  }

  // ---------------------------------------------------------------------
  // Identifiers and trimmed text

  predicate IsIdentChar(c: char) { IsAsciiAlnum(c) || c == '_' || c == '-' }

  predicate IsScssIdent(t: string) {
    |t| > 0 && forall m :: 0 <= m < |t| ==> IsIdentChar(t[m])
  }

  predicate IsTrimmed(t: string) { RustTrim(t) == t }

  lemma RustTrimIsTrimmed(t: string)
    ensures IsTrimmed(RustTrim(t))
  {
    TrimIdempotent(t, IsRustSpace);
  }

  lemma IdentIsTrimmed(t: string)
    requires IsScssIdent(t)
    ensures IsTrimmed(t)
  {
    assert !IsRustSpace(t[0]);
    assert TrimStart(t, IsRustSpace) == t;
    assert !IsRustSpace(t[|t| - 1]);
  }

  /** A declaration built from an identifier and any value, both trimmed,
      is well formed. */
  lemma VarDeclWellFormed(name: string, value: string)
    requires IsScssIdent(name)
    ensures NodeWellFormed(VarDecl(RustTrim(name), RustTrim(value)))
  {
    IdentIsTrimmed(name);
    RustTrimIsTrimmed(value);
  }

  /** The end of the run of identifier characters that starts at `k`. */
  function IdentRunEnd(s: string, k: nat): (e: nat)
    requires k <= |s|
    ensures k <= e <= |s|
    ensures forall m {:trigger IsIdentChar(s[m])} :: k <= m < e ==> IsIdentChar(s[m])
    ensures e < |s| ==> !IsIdentChar(s[e])
    decreases |s| - k
  {
    if k < |s| && IsIdentChar(s[k]) then IdentRunEnd(s, k + 1) else k
  }

  /** A run of identifier characters from `k` to `e` that cannot be
      extended is the run `IdentRunEnd` finds. */
  lemma {:induction false} IdentRunEndIs(s: string, k: nat, e: nat)
    requires k <= e <= |s|
    requires forall m :: k <= m < e ==> IsIdentChar(s[m])
    requires e < |s| ==> !IsIdentChar(s[e])
    ensures IdentRunEnd(s, k) == e
    decreases e - k
  {
    if k < e {
      IdentRunEndIs(s, k + 1, e);
    }
  }

  /** The error `expect_char` reports. */
  function Expected(ch: char): string {
    "expected '" + [ch] + "'"
  }

  /** The part of `$name: value;` that `parse_var_decl` found missing. */
  datatype VarDeclPart = Dollar | Identifier | Colon | Semicolon

  /** The error `parse_var_decl` reports for a missing part. */
  function MissingMessage(part: VarDeclPart): string {
    match part
    case Dollar => Expected('$')
    case Identifier => "expected identifier"
    case Colon => Expected(':')
    case Semicolon => Expected(';')
  }

  /** What reading `$name:` gives: where the name starts and ends and the
      position just after the `:`, or the part that is missing. */
  datatype VarNameRead = NameRead(nameStart: nat, nameEnd: nat, after: nat) | NameMissing(part: VarDeclPart)

  /** What the start of `parse_var_decl` reads from `k`: after white space
      and comments a `$`, then a non-empty identifier run, then after white
      space and comments a `:`. Where the identifier starts and ends and
      the position just after the `:`, or the error of the first part that
      is missing. Each step below reads one part. */
  function VarNameFrom(s: string, k: nat): (r: VarNameRead)
    requires k <= |s|
    ensures r.NameRead? ==> k < r.nameStart < r.nameEnd < r.after <= |s|
  {
    DollarAt(s, SkipFrom(s, k))
  }

  /** The `$`, expected at `a`. */
  function DollarAt(s: string, a: nat): (r: VarNameRead)
    requires a <= |s|
    ensures r.NameRead? ==> a < r.nameStart < r.nameEnd < r.after <= |s|
  {
    if !(a < |s| && s[a] == '$') then NameMissing(Dollar)
    else NameAt(s, a + 1, IdentRunEnd(s, a + 1))
  }

  /** The name, the identifier run `s[start..e]`, which must not be empty. */
  function NameAt(s: string, start: nat, e: nat): (r: VarNameRead)
    requires start <= e <= |s|
    ensures r.NameRead? ==> r.nameStart == start < r.nameEnd == e < r.after <= |s|
  {
    if e == start then NameMissing(Identifier)
    else ColonAt(s, start, e, SkipFrom(s, e))
  }

  /** The `:` after the name `s[start..e]`, expected at `c`. */
  function ColonAt(s: string, start: nat, e: nat, c: nat): (r: VarNameRead)
    requires e <= c <= |s|
    ensures r.NameRead? ==> r.nameStart == start && r.nameEnd == e && c < r.after <= |s|
  {
    if !(c < |s| && s[c] == ':') then NameMissing(Colon)
    else NameRead(start, e, c + 1)
  }

  /** Where the parts of `$name: value;` lie: the name is
      `s[nameStart..nameEnd]`, the value `s[valueStart..valueEnd]`, and the
      declaration ends just before `next`. */
  datatype VarDeclSpans = VarDeclSpans(nameStart: nat, nameEnd: nat, valueStart: nat, valueEnd: nat, next: nat)

  /** What reading `$name: value;` gives: where its parts lie, or the part
      that is missing. */
  datatype VarDeclRead = DeclRead(spans: VarDeclSpans) | DeclMissing(part: VarDeclPart)

  /** What `parse_var_decl` reads from `k`: `$name:` as `VarNameFrom`
      reads it, the value up to the first `;` outside strings and
      parentheses, and, after white space and comments, that `;`. Where
      the parts lie, or the error of the first part that is missing. */
  function VarDeclFrom(s: string, k: nat): (r: VarDeclRead)
    requires k <= |s|
    ensures r.DeclRead? ==>
      && k < r.spans.nameStart < r.spans.nameEnd < r.spans.valueStart
      && r.spans.valueStart <= r.spans.valueEnd < r.spans.next <= |s|
  {
    match VarNameFrom(s, k)
    case NameMissing(part) => DeclMissing(part)
    case NameRead(start, end, after) => SemicolonAt(s, start, end, after, FirstTopStop(s, after, after, {';'}, true))
  }

  /** The `;` that ends the value `s[valueStart..v]` of the name
      `s[nameStart..nameEnd]`, expected after white space and comments. */
  function SemicolonAt(s: string, nameStart: nat, nameEnd: nat, valueStart: nat, v: nat): (r: VarDeclRead)
    requires nameStart < nameEnd < valueStart <= v <= |s|
    ensures r.DeclRead? ==>
      && r.spans.nameStart == nameStart && r.spans.nameEnd == nameEnd
      && r.spans.valueStart == valueStart && r.spans.valueEnd == v
      && v < r.spans.next <= |s|
  {
    var d := SkipFrom(s, v);
    if !(d < |s| && s[d] == ';') then DeclMissing(Semicolon)
    else DeclRead(VarDeclSpans(nameStart, nameEnd, valueStart, v, d + 1))
  }

  // One step of reading `$name: value;` at a time: each lemma below unfolds
  // one of the functions above.

  lemma VarNameFromIs(s: string, k: nat)
    requires k <= |s|
    ensures VarNameFrom(s, k) == DollarAt(s, SkipFrom(s, k))
  {
  }

  lemma DollarAtIs(s: string, a: nat)
    requires a < |s| && s[a] == '$'
    ensures DollarAt(s, a) == NameAt(s, a + 1, IdentRunEnd(s, a + 1))
  {
  }

  lemma NameAtIs(s: string, start: nat, e: nat)
    requires start < e <= |s|
    ensures NameAt(s, start, e) == ColonAt(s, start, e, SkipFrom(s, e))
  {
  }

  lemma VarDeclFromMissing(s: string, k: nat)
    requires k <= |s|
    requires VarNameFrom(s, k).NameMissing?
    ensures VarDeclFrom(s, k).DeclMissing? && VarDeclFrom(s, k).part == VarNameFrom(s, k).part
  {
  }

  lemma VarDeclFromIs(s: string, k: nat)
    requires k <= |s|
    requires VarNameFrom(s, k).NameRead?
    ensures var n := VarNameFrom(s, k);
      VarDeclFrom(s, k) == SemicolonAt(s, n.nameStart, n.nameEnd, n.after, FirstTopStop(s, n.after, n.after, {';'}, true))
  {
  }

  /** An identifier character starts a non-empty run. */
  lemma IdentRunNonEmpty(s: string, k: nat)
    requires k < |s| && IsIdentChar(s[k])
    ensures k < IdentRunEnd(s, k)
  {
  }

  /** A non-empty identifier run is an SCSS identifier. */
  lemma IdentRunIsIdent(s: string, k: nat)
    requires k < |s| && IsIdentChar(s[k])
    ensures IsScssIdent(s[k..IdentRunEnd(s, k)])
  {
    var e := IdentRunEnd(s, k);
    forall m | 0 <= m < e - k
      ensures IsIdentChar(s[k..e][m])
    {
      assert s[k..e][m] == s[k + m];
    }
  }

  /** A `:` read at `c` ends the name. */
  lemma ColonAtRead(s: string, start: nat, e: nat, c: nat)
    requires e <= c <= |s|
    requires ColonAt(s, start, e, c).NameRead?
    ensures ColonAt(s, start, e, c).after == c + 1 && s[c] == ':'
  {
  }

  /** A name read from `a` follows a `$` at `a` and is the whole
      identifier run after it, and the `:` comes just before where reading
      stops. */
  lemma DollarAtRead(s: string, a: nat)
    requires a <= |s|
    requires DollarAt(s, a).NameRead?
    ensures var p := DollarAt(s, a);
      && a < |s| && s[a] == '$' && p.nameStart == a + 1 && p.nameEnd == IdentRunEnd(s, a + 1)
      && 0 < p.after && s[p.after - 1] == ':'
  {
    assert a < |s| && s[a] == '$';
    DollarAtIs(s, a);
    var e := IdentRunEnd(s, a + 1);
    NameAtIs(s, a + 1, e);
    ColonAtRead(s, a + 1, e, SkipFrom(s, e));
  }

  /** A name read from `k` follows the `$` where the text resumes and is
      the whole identifier run after it, and the `:` comes just before where
      reading stops. */
  lemma VarNameParts(s: string, k: nat)
    requires k <= |s|
    requires VarNameFrom(s, k).NameRead?
    ensures var p := VarNameFrom(s, k);
      && p.nameStart == SkipFrom(s, k) + 1 && s[p.nameStart - 1] == '$'
      && p.nameEnd == IdentRunEnd(s, p.nameStart)
      && s[p.after - 1] == ':'
  {
    VarNameFromIs(s, k);
    DollarAtRead(s, SkipFrom(s, k));
  }

  /** The declaration built from what `VarDeclFrom` reads is well formed. */
  lemma VarDeclFromWellFormed(s: string, k: nat)
    requires k <= |s|
    requires VarDeclFrom(s, k).DeclRead?
    ensures var p := VarDeclFrom(s, k).spans;
      NodeWellFormed(VarDecl(RustTrim(s[p.nameStart..p.nameEnd]), RustTrim(s[p.valueStart..p.valueEnd])))
  {
    var p := VarDeclFrom(s, k).spans;
    VarNameParts(s, k);
    IdentRunIsIdent(s, p.nameStart);
    VarDeclWellFormed(s[p.nameStart..p.nameEnd], s[p.valueStart..p.valueEnd]);
  }

  /** `skip_ws_and_comments` does not move from a `;`. */
  lemma SkipAtSemicolon(s: string, v: nat)
    requires v < |s| && s[v] == ';'
    ensures SkipFrom(s, v) == v
  {
    assert !IsRustSpace(s[v]);
    assert WsEnd(s, v) == v;
  }

  /** `VarDeclFrom` finds `part` missing. */
  predicate MissingAt(s: string, k: nat, part: VarDeclPart)
    requires k <= |s|
  {
    VarDeclFrom(s, k).DeclMissing? && VarDeclFrom(s, k).part == part
  }

  /** `$name: value;` fails when no `$` is where the text resumes. */
  lemma DollarMissing(s: string, k: nat)
    requires k <= |s|
    requires var a := SkipFrom(s, k); !(a < |s| && s[a] == '$')
    ensures MissingAt(s, k, Dollar)
  {
    VarNameFromIs(s, k);
    VarDeclFromMissing(s, k);
  }

  /** `$name: value;` fails when no identifier character follows the `$`. */
  lemma IdentifierMissing(s: string, k: nat)
    requires k <= |s|
    requires var a := SkipFrom(s, k); a < |s| && s[a] == '$' && (a + 1 == |s| || !IsIdentChar(s[a + 1]))
    ensures MissingAt(s, k, Identifier)
  {
    var a := SkipFrom(s, k);
    assert IdentRunEnd(s, a + 1) == a + 1;
    VarNameFromIs(s, k);
    DollarAtIs(s, a);
    VarDeclFromMissing(s, k);
  }

  /** `$name: value;` fails when, after the name and any white space and
      comments, the next character is not `:`. */
  lemma ColonMissing(s: string, k: nat)
    requires k <= |s|
    requires var a := SkipFrom(s, k); a < |s| && s[a] == '$' && a + 1 < |s| && IsIdentChar(s[a + 1])
    requires var a := SkipFrom(s, k);
      var c := SkipFrom(s, IdentRunEnd(s, a + 1)); !(c < |s| && s[c] == ':')
    ensures MissingAt(s, k, Colon)
  {
    var a := SkipFrom(s, k);
    IdentRunNonEmpty(s, a + 1);
    ColonMissingAfter(s, a, IdentRunEnd(s, a + 1));
    VarNameFromIs(s, k);
    VarDeclFromMissing(s, k);
  }

  /** `DollarAt` finds the `:` missing after the name `s[a + 1..e]`. */
  lemma ColonMissingAfter(s: string, a: nat, e: nat)
    requires a < |s| && s[a] == '$' && a + 1 < e <= |s| && e == IdentRunEnd(s, a + 1)
    requires !(SkipFrom(s, e) < |s| && s[SkipFrom(s, e)] == ':')
    ensures DollarAt(s, a).NameMissing? && DollarAt(s, a).part == Colon
  {
    DollarAtIs(s, a);
    NameAtIs(s, a + 1, e);
  }

  /** `$name: value;` fails when no `;` outside strings and parentheses
      follows the `:`. */
  lemma SemicolonMissing(s: string, k: nat)
    requires k <= |s|
    requires VarNameFrom(s, k).NameRead?
    ensures var c := VarNameFrom(s, k).after;
      FirstTopStop(s, c, c, {';'}, true) == |s| ==> MissingAt(s, k, Semicolon)
  {
  }

  /** A declaration read from `k`: the name is the whole identifier run
      right after the `$`, the value starts just after the `:` and runs to
      the `;` that ends the declaration, with no `;` outside strings and
      parentheses before it. */
  lemma VarDeclParts(s: string, k: nat)
    requires k <= |s|
    requires VarDeclFrom(s, k).DeclRead?
    ensures var p := VarDeclFrom(s, k).spans;
      && p.nameStart == SkipFrom(s, k) + 1 && s[p.nameStart - 1] == '$'
      && p.nameEnd == IdentRunEnd(s, p.nameStart)
      && s[p.valueStart - 1] == ':'
      && p.valueEnd == p.next - 1 && s[p.valueEnd] == ';'
      && forall m :: p.valueStart <= m < p.valueEnd ==> !TopStop(s, p.valueStart, m, {';'}, true)
  {
    VarNameParts(s, k);
    var n := VarNameFrom(s, k);
    var v := FirstTopStop(s, n.after, n.after, {';'}, true);
    SemicolonAtRead(s, n.nameStart, n.nameEnd, n.after, v);
  }

  /** A `;` found after the value `s[valueStart..v]` is at `v` itself. */
  lemma SemicolonAtRead(s: string, nameStart: nat, nameEnd: nat, valueStart: nat, v: nat)
    requires nameStart < nameEnd < valueStart <= v <= |s|
    requires v == FirstTopStop(s, valueStart, valueStart, {';'}, true)
    requires SemicolonAt(s, nameStart, nameEnd, valueStart, v).DeclRead?
    ensures SemicolonAt(s, nameStart, nameEnd, valueStart, v).spans.next == v + 1
    ensures s[v] == ';'
  {
    assert v < |s| && s[v] == ';';
    SkipAtSemicolon(s, v);
  }

  /** Trimming keeps a first character that is not white space. */
  lemma TrimKeepsFirst(t: string)
    requires |t| > 0 && !IsRustSpace(t[0])
    ensures |RustTrim(t)| > 0 && RustTrim(t)[0] == t[0]
  {
    assert TrimStart(t, IsRustSpace) == t;
  }

  // ---------------------------------------------------------------------
  // Splitting helpers

  /** `split_selectors`: the comma-separated parts, trimmed, empty ones removed. */
  function SplitSelectors(t: string): (r: seq<string>)
    ensures forall k :: 0 <= k < |r| ==> r[k] != "" && IsTrimmed(r[k]) && ',' !in r[k]
  {
    var pieces := Split(t, ',');
    var trimmed := seq(|pieces|, k requires 0 <= k < |pieces| => RustTrim(pieces[k]));
    forall k | 0 <= k < |trimmed| ensures IsTrimmed(trimmed[k]) && ',' !in trimmed[k] {
      RustTrimIsTrimmed(pieces[k]);
      TrimWithin(pieces[k]);
    }
    NonEmpty(trimmed)
  }

  lemma TrimWithin(t: string)
    ensures forall c :: c in RustTrim(t) ==> c in t
  {
    var a := TrimStart(t, IsRustSpace);
    assert a == t[|t| - |a|..];
    assert RustTrim(t) == a[..|RustTrim(t)|];
  }

  /** What `split_decl` computes: property and value around the first
      colon outside strings and parentheses (a backslash does not escape
      here), both trimmed; nothing when there is no such colon or the
      property is empty. */
  function DeclParts(t: string): (r: Option<(string, string)>)
    ensures r.Some? ==> r.value.0 != "" && IsTrimmed(r.value.0) && IsTrimmed(r.value.1)
  {
    var k := FirstTopStop(t, 0, 0, {':'}, false);
    if k == |t| then None
    else
      var prop := RustTrim(t[..k]);
      RustTrimIsTrimmed(t[..k]);
      RustTrimIsTrimmed(t[k + 1..]);
      if prop == "" then None else Some((prop, RustTrim(t[k + 1..])))
  }

  const InvalidDeclaration := "invalid declaration: "
  const UnexpectedToken := "unexpected token near: "

  /** The outcome of a head followed by `;`: the declaration `split_decl`
      finds in it, or the `invalid declaration` error naming the head. */
  function DeclOrError(head: string): (r: Result<Node>)
    ensures r.Ok? <==> DeclParts(head).Some?
    ensures r.Ok? ==> r.value == Decl(DeclParts(head).value.0, DeclParts(head).value.1)
    ensures r.Err? ==> r.msg == InvalidDeclaration + head
  {
    match DeclParts(head)
    case None => Err(InvalidDeclaration + head)
    case Some(pv) => Ok(Decl(pv.0, pv.1))
  }

  /** How the rest of `parse_block_until`'s loop body ends once the head
      is read: `j` is the position after the white space and comments that
      follow the head, and `head` the head's trimmed text. A `{` at `j`
      heads a rule with the selectors of `head` (or fails with the error of
      its body); a `;` is consumed and gives the declaration in `head` or
      the `invalid declaration` error; anything else is the `unexpected
      token` error, with the cursor left at `j`. */
  predicate RuleOrDeclEnd(s: string, j: nat, head: string, i: nat, r: Result<Node>)
  {
    && (j < |s| && s[j] == '{' ==> r.Ok? ==> r.value.Rule? && r.value.selectors == SplitSelectors(head))
    && (j < |s| && s[j] == ';' ==> i == j + 1 && r == DeclOrError(head))
    && (!(j < |s| && (s[j] == '{' || s[j] == ';')) ==> i == j && r == Err(UnexpectedToken + head))
  }

  /** `RuleOrDeclEnd` for a head read from `start`: it ends at `k`, the
      first top-level `{` or `;`. */
  predicate RuleOrDeclFrom(s: string, start: nat, i: nat, r: Result<Node>)
    requires start <= |s|
  {
    var k := FirstTopStop(s, start, start, {'{', ';'}, true);
    RuleOrDeclEnd(s, SkipFrom(s, k), RustTrim(s[start..k]), i, r)
  }

  /** `split_decl`, the character loop with its depth and quote state. */
  method SplitDecl(t: string) returns (r: Option<(string, string)>)
    ensures r == DeclParts(t)
  {
    var depth: int := 0;
    var inStr: Option<char> := None;
    var idx := 0;
    while idx < |t|
      invariant 0 <= idx <= |t|
      invariant StateAfter(t[0..idx], false) == CodeState(inStr, depth)
      invariant FirstTopStop(t, 0, 0, {':'}, false) == FirstTopStop(t, 0, idx, {':'}, false)
      decreases |t| - idx
    {
      var c := t[idx];
      StateAfterSnoc(t, 0, idx, false);
      if inStr.Some? {
        if c == inStr.value {
          inStr := None;
        }
        idx := idx + 1;
        continue;
      }
      if IsQuote(c) {
        inStr := Some(c);
        idx := idx + 1;
        continue;
      }
      if c == '(' {
        depth := depth + 1;
        idx := idx + 1;
        continue;
      }
      if c == ')' {
        depth := depth - 1;
        idx := idx + 1;
        continue;
      }
      if depth == 0 && c == ':' {
        var prop := RustTrim(t[..idx]);
        var val := RustTrim(t[idx + 1..]);
        if prop == "" {
          return None;
        }
        return Some((prop, val));
      }
      idx := idx + 1;
    }
    return None;
  }

  /** The scan state the code's `in_str` and `depth` variables stand for. */
  function CodeState(inStr: Option<char>, depth: int): ScanState {
    if inStr.Some? then InStr(inStr.value, depth) else Top(depth)
  }

  /** One character of `read_until_any`'s scan from the state `inStr`,
      `depth`: the state after it, and whether the scan passes over it. */
  lemma Scanned(s: string, start: nat, k: nat, stops: set<char>, inStr: Option<char>, depth: int)
    requires start <= k < |s| && StateAfter(s[start..k], true) == CodeState(inStr, depth)
    ensures var c, next := s[k], StateAfter(s[start..k + 1], true);
      && (inStr.Some? && c == inStr.value ==> next == CodeState(None, depth))
      && (inStr.Some? && c != inStr.value && c == '\\' ==> next == Escaped(inStr.value, depth))
      && (inStr.Some? && c != inStr.value && c != '\\' ==> next == CodeState(inStr, depth))
      && (inStr.None? && IsQuote(c) ==> next == CodeState(Some(c), depth))
      && (inStr.None? && !IsQuote(c) && c == '(' ==> next == CodeState(None, depth + 1))
      && (inStr.None? && !IsQuote(c) && c == ')' ==> next == CodeState(None, depth - 1))
      && (inStr.None? && !IsQuote(c) && c != '(' && c != ')' ==> next == CodeState(None, depth))
    ensures !(inStr.None? && depth == 0 && !IsQuote(s[k]) && s[k] != '(' && s[k] != ')' && s[k] in stops) ==>
      FirstTopStop(s, start, k, stops, true) == FirstTopStop(s, start, k + 1, stops, true)
  {
    StateAfterSnoc(s, start, k, true);
  }

  /** The character after a backslash inside a string is passed over, and
      the string goes on. */
  lemma EscapedOne(s: string, start: nat, k: nat, stops: set<char>, q: char, depth: int)
    requires start <= k < |s| && StateAfter(s[start..k], true) == Escaped(q, depth)
    ensures StateAfter(s[start..k + 1], true) == CodeState(Some(q), depth)
    ensures FirstTopStop(s, start, k, stops, true) == FirstTopStop(s, start, k + 1, stops, true)
  {
    StateAfterSnoc(s, start, k, true);
  }

  /** One pass of `read_until_any`'s loop at `k`, in the state `inStr`,
      `depth`: either `k` holds a stop character outside strings and
      parentheses, where the scan stops, or the scan moves on to `next`
      (two characters for a backslash inside a string, else one) without
      passing a stop. */
  method ScanOne(s: string, start: nat, k: nat, stops: set<char>, inStr: Option<char>, depth: int)
    returns (stop: bool, next: nat, nextStr: Option<char>, nextDepth: int)
    requires start <= k < |s| && StateAfter(s[start..k], true) == CodeState(inStr, depth)
    ensures stop ==> next == k && FirstTopStop(s, start, k, stops, true) == k
    ensures !stop ==> k < next <= |s|
    ensures !stop && next < |s| ==> StateAfter(s[start..next], true) == CodeState(nextStr, nextDepth)
    ensures !stop ==> FirstTopStop(s, start, k, stops, true) == FirstTopStop(s, start, next, stops, true)
  {
    var c := s[k];
    Scanned(s, start, k, stops, inStr, depth);
    stop, next, nextStr, nextDepth := false, k + 1, inStr, depth;
    if inStr.Some? {
      if c == inStr.value {
        nextStr := None;
      } else if c == '\\' && next < |s| {
        EscapedOne(s, start, next, stops, inStr.value, depth);
        next := next + 1;
      }
    } else if IsQuote(c) {
      nextStr := Some(c);
    } else if c == '(' {
      nextDepth := depth + 1;
    } else if c == ')' {
      nextDepth := depth - 1;
    } else if depth == 0 && c in stops {
      stop, next := true, k;
    }
  }

  lemma FirstTopStopIs(s: string, start: nat, stops: set<char>, escapes: bool, j: nat)
    requires start <= j < |s|
    requires TopStop(s, start, j, stops, escapes)
    requires forall m :: start <= m < j ==> !TopStop(s, start, m, stops, escapes)
    ensures FirstTopStop(s, start, start, stops, escapes) == j
  {
  }

  /** Scanning characters that are neither quotes nor parentheses stays at
      the top level. */
  lemma {:induction false} PlainStaysTop(t: string, k: nat, escapes: bool)
    requires k <= |t|
    requires forall m :: 0 <= m < k ==> !IsQuote(t[m]) && t[m] != '(' && t[m] != ')'
    ensures StateAfter(t[0..k], escapes) == Top(0)
    decreases k
  {
    if k > 0 {
      PlainStaysTop(t, k - 1, escapes);
      StateAfterSnoc(t, 0, k - 1, escapes);
    }
  }

  /** A declaration whose property holds no quote, parenthesis or colon
      splits at the colon right after the property. */
  lemma DeclSplitsAtPropertyColon(p: string, v: string)
    requires forall m :: 0 <= m < |p| ==> !IsQuote(p[m]) && p[m] != '(' && p[m] != ')' && p[m] != ':'
    requires RustTrim(p) != ""
    ensures DeclParts(p + ":" + v) == Some((RustTrim(p), RustTrim(v)))
  {
    var t := p + ":" + v;
    PlainStaysTop(t, |p|, false);
    forall m | 0 <= m < |p| ensures !TopStop(t, 0, m, {':'}, false) {
      assert t[m] == p[m];
    }
    FirstTopStopIs(t, 0, {':'}, false, |p|);
    assert t[..|p|] == p;
    assert t[|p| + 1..] == v;
  }

  /** Text without a colon is not a declaration. */
  lemma NoColonNoDecl(t: string)
    requires ':' !in t
    ensures DeclParts(t) == None
  {
  }

  /** A colon inside a string does not split. */
  lemma QuotedColonDoesNotSplit()
    ensures DeclParts("'a:b'") == None
  {
    var t := "'a:b'";
    assert StateAfter(t[0..0], false) == Top(0);
    StateAfterSnoc(t, 0, 0, false);
    StateAfterSnoc(t, 0, 1, false);
    StateAfterSnoc(t, 0, 2, false);
    StateAfterSnoc(t, 0, 3, false);
    assert StateAfter(t[0..2], false).InStr? && StateAfter(t[0..3], false).InStr?;
    assert !TopStop(t, 0, 2, {':'}, false);
    NoStopLeft(t, 0, {':'}, false);
  }

  lemma NoStopLeft(s: string, start: nat, stops: set<char>, escapes: bool)
    requires start <= |s|
    requires forall m :: start <= m < |s| ==> !TopStop(s, start, m, stops, escapes)
    ensures FirstTopStop(s, start, start, stops, escapes) == |s|
  {
  }

  // ---------------------------------------------------------------------
  // Serialising

  /** `serialize_nodes_as_css_like`: variable declarations vanish,
      declarations print as `prop:value;`, rules as `sel1,sel2{body}`, and
      at-rule text gets a `;` unless it already ends in `;` or `}`. */
  function CssLike(nodes: seq<Node>): string
    decreases nodes, 1
  {
    if |nodes| == 0 then "" else CssLike(nodes[..|nodes| - 1]) + NodeCss(nodes[|nodes| - 1])
  }

  function NodeCss(n: Node): string
    decreases n, 0
  {
    match n
    case VarDecl(_, _) => ""
    case Decl(prop, value) => prop + ":" + value + ";"
    case Rule(selectors, body) => Join(selectors, ",") + "{" + CssLike(body) + "}"
    case RawAt(text) =>
      var e := TrimEnd(text, IsRustSpace);
      if EndsWith(e, ";") || EndsWith(e, "}") then text else text + ";"
  }

  /** The loop that builds the serialised text node by node. */
  method SerializeNodes(nodes: seq<Node>) returns (out: string)
    ensures out == CssLike(nodes)
    decreases nodes, 1
  {
    out := "";
    for k := 0 to |nodes|
      invariant out == CssLike(nodes[..k])
    {
      assert nodes[..k + 1][..k] == nodes[..k];
      out := AppendNode(out, nodes[k]);
    }
    assert nodes[..|nodes|] == nodes;
  }

  /** The body of the loop: the text one node adds. */
  method AppendNode(out: string, n: Node) returns (r: string)
    ensures r == out + NodeCss(n)
    decreases n, 0
  {
    r := out;
    match n
    case VarDecl(_, _) =>
    case Decl(prop, value) =>
      r := r + prop + ":" + value + ";";
    case Rule(selectors, body) =>
      var inner := SerializeNodes(body);
      r := r + Join(selectors, ",") + "{" + inner + "}";
    case RawAt(text) =>
      r := r + text;
      var e := TrimEnd(text, IsRustSpace);
      if !EndsWith(e, ";") && !EndsWith(e, "}") {
        r := r + ";";
      }
  }

  /** Serialising a concatenation is concatenating the serialisations. */
  lemma {:induction false} CssLikeAppend(a: seq<Node>, b: seq<Node>)
    ensures CssLike(a + b) == CssLike(a) + CssLike(b)
    decreases |b|
  {
    if |b| > 0 {
      var b' := b[..|b| - 1];
      assert (a + b)[..|a + b| - 1] == a + b';
      CssLikeAppend(a, b');
    } else {
      assert a + b == a;
    }
  }

  function DropVarDecls(nodes: seq<Node>): (r: seq<Node>)
    ensures forall k :: 0 <= k < |r| ==> !r[k].VarDecl?
    ensures |r| <= |nodes|
  {
    if |nodes| == 0 then []
    else if nodes[|nodes| - 1].VarDecl? then DropVarDecls(nodes[..|nodes| - 1])
    else DropVarDecls(nodes[..|nodes| - 1]) + [nodes[|nodes| - 1]]
  }

  /** Variable declarations contribute nothing to the serialised text. */
  lemma {:induction false} VarDeclsVanish(nodes: seq<Node>)
    ensures CssLike(DropVarDecls(nodes)) == CssLike(nodes)
    decreases |nodes|
  {
    if |nodes| > 0 {
      var pre := nodes[..|nodes| - 1];
      VarDeclsVanish(pre);
      if !nodes[|nodes| - 1].VarDecl? {
        var d := DropVarDecls(pre) + [nodes[|nodes| - 1]];
        assert d[..|d| - 1] == DropVarDecls(pre);
      }
    }
  }

  lemma SerializeExamples()
    ensures CssLike([Decl("color", "red")]) == "color:red;"
    ensures CssLike([Rule(["a", "b"], [Decl("color", "red")])]) == "a,b{color:red;}"
    ensures CssLike([RawAt("@import x")]) == "@import x;"
    ensures CssLike([RawAt("@media p {a{}}")]) == "@media p {a{}}"
  {
    DeclExample();
    RuleExample();
    ImportExample();
    MediaExample();
  }

  /** A single node serialises on its own. */
  lemma CssLikeOne(n: Node)
    ensures CssLike([n]) == NodeCss(n)
  {
    assert [n][..0] == [];
  }

  lemma DeclExample()
    ensures CssLike([Decl("color", "red")]) == "color:red;"
  {
    CssLikeOne(Decl("color", "red"));
  }

  lemma RuleExample()
    ensures CssLike([Rule(["a", "b"], [Decl("color", "red")])]) == "a,b{color:red;}"
  {
    var r := Rule(["a", "b"], [Decl("color", "red")]);
    CssLikeOne(r);
    DeclExample();
    assert ["a", "b"][1..] == ["b"];
    assert Join(["a", "b"], ",") == "a,b";
    assert NodeCss(r) == "a,b" + "{" + "color:red;" + "}";
  }

  lemma ImportExample()
    ensures CssLike([RawAt("@import x")]) == "@import x;"
  {
    CssLikeOne(RawAt("@import x"));
    var t := "@import x";
    assert !IsRustSpace(t[|t| - 1]);
    assert TrimEnd(t, IsRustSpace) == t;
  }

  lemma MediaExample()
    ensures CssLike([RawAt("@media p {a{}}")]) == "@media p {a{}}"
  {
    CssLikeOne(RawAt("@media p {a{}}"));
    var t := "@media p {a{}}";
    assert !IsRustSpace(t[|t| - 1]);
    assert TrimEnd(t, IsRustSpace) == t;
  }

  // ---------------------------------------------------------------------
  // What a successful parse guarantees about its nodes

  predicate NodeWellFormed(n: Node)
    decreases n
  {
    match n
    case VarDecl(name, value) => IsScssIdent(name) && IsTrimmed(value)
    case Decl(prop, value) => prop != "" && IsTrimmed(prop) && IsTrimmed(value)
    case Rule(selectors, body) =>
      && (forall k :: 0 <= k < |selectors| ==> selectors[k] != "" && IsTrimmed(selectors[k]) && ',' !in selectors[k])
      && (forall k :: 0 <= k < |body| ==> NodeWellFormed(body[k]))
    case RawAt(text) => |text| > 0 && text[0] == '@'
  }

  predicate NodesWellFormed(nodes: seq<Node>) {
    forall k :: 0 <= k < |nodes| ==> NodeWellFormed(nodes[k])
  }

  // ---------------------------------------------------------------------
  // The parser

  class Parser {
    const s: string
    var i: nat

    constructor (src: string)
      ensures s == src && i == 0
    {
      s := src;
      i := 0;
    }

    /** The white-space loop of `skip_ws_and_comments`. */
    method SkipWs()
      requires i <= |s|
      modifies this
      ensures i == WsEnd(s, old(i))
    {
      while i < |s| && IsRustSpace(s[i])
        invariant old(i) <= i <= |s|
        invariant WsEnd(s, i) == WsEnd(s, old(i))
      {
        i := i + 1;
      }
    }

    /** The block-comment branch of `skip_ws_and_comments`. */
    method SkipBlockComment()
      requires PairAt(s, i, '/', '*')
      modifies this
      ensures i == BlockCommentEnd(s, old(i) + 2)
    {
      i := i + 2;
      ghost var b := i;
      while i < |s| && !PairAt(s, i, '*', '/')
        invariant b <= i <= |s|
        invariant BlockCommentEnd(s, i) == BlockCommentEnd(s, b)
      {
        i := i + 1;
      }
      if PairAt(s, i, '*', '/') {
        i := i + 2;
      }
    }

    /** The line-comment branch of `skip_ws_and_comments`. */
    method SkipLineComment()
      requires i <= |s|
      modifies this
      ensures i == LineCommentEnd(s, old(i))
    {
      while i < |s|
        invariant old(i) <= i <= |s|
        invariant LineCommentEnd(s, i) == LineCommentEnd(s, old(i))
      {
        var c := s[i];
        i := i + 1;
        if c == '\n' {
          break;
        }
      }
    }

    /** `skip_ws_and_comments`. */
    method SkipWsAndComments()
      requires i <= |s|
      modifies this
      ensures i == SkipFrom(s, old(i))
    {
      while true
        invariant old(i) <= i <= |s|
        invariant SkipFrom(s, i) == SkipFrom(s, old(i))
        decreases |s| - i
      {
        var more := SkipOnce();
        if !more {
          break;
        }
      }
    }

    /** One pass of the loop of `skip_ws_and_comments`: white space, then
        one comment if there is one, after which the loop goes on. */
    method SkipOnce() returns (more: bool)
      requires i <= |s|
      modifies this
      ensures old(i) <= i <= |s|
      ensures more ==> old(i) < i && SkipFrom(s, i) == SkipFrom(s, old(i))
      ensures !more ==> i == SkipFrom(s, old(i))
    {
      SkipWs();
      if PairAt(s, i, '/', '*') {
        SkipBlockComment();
        return true;
      }
      if PairAt(s, i, '/', '/') {
        SkipLineComment();
        return true;
      }
      return false;
    }

    /** `read_until_any`: consumes up to the first stop character that is
      outside strings and parentheses, or to the end, and returns exactly
      the consumed text. The scan advances a local copy `k` of the cursor,
      stored back into `i` once it stops. */
    method ReadUntilAny(stops: set<char>) returns (text: string)
      requires i <= |s|
      modifies this
      ensures old(i) <= i <= |s|
      ensures text == s[old(i)..i]
      ensures i == FirstTopStop(s, old(i), old(i), stops, true)
      ensures i < |s| ==> TopStop(s, old(i), i, stops, true)
      ensures forall m :: old(i) <= m < i ==> !TopStop(s, old(i), m, stops, true)
    {
      var start := i;
      var depth: int := 0;
      var inStr: Option<char> := None;
      var k := i;
      while k < |s|
        invariant start <= k <= |s|
        invariant k < |s| ==> StateAfter(s[start..k], true) == CodeState(inStr, depth)
        invariant FirstTopStop(s, start, start, stops, true) == FirstTopStop(s, start, k, stops, true)
        decreases |s| - k
      {
        var stop;
        stop, k, inStr, depth := ScanOne(s, start, k, stops, inStr, depth);
        if stop {
          break;
        }
      }
      i := k;
      text := s[start..i];
    }

    /** `read_ident`: the maximal run of `[A-Za-z0-9_-]`, which must be
        non-empty. */
    method ReadIdent() returns (r: Result<string>)
      requires i <= |s|
      modifies this
      ensures old(i) <= i <= |s|
      ensures r.Ok? <==> old(i) < |s| && IsIdentChar(s[old(i)])
      ensures r.Ok? ==> r.value == s[old(i)..i] && IsScssIdent(r.value) && (i == |s| || !IsIdentChar(s[i]))
      ensures r.Ok? ==> i == IdentRunEnd(s, old(i))
      ensures r.Err? ==> r.msg == "expected identifier" && i == old(i)
    {
      var start := i;
      while i < |s| && IsIdentChar(s[i])
        invariant start <= i <= |s|
        invariant forall m :: start <= m < i ==> IsIdentChar(s[m])
      {
        i := i + 1;
      }
      IdentRunEndIs(s, start, i);
      if i == start {
        return Err("expected identifier");
      }
      return Ok(s[start..i]);
    }

    /** `expect_char`: after skipping white space and comments, the next
        character must be `ch`, which is consumed. */
    method ExpectChar(ch: char) returns (r: Result<()>)
      requires i <= |s|
      modifies this
      ensures old(i) <= i <= |s|
      ensures r.Ok? <==> SkipFrom(s, old(i)) < |s| && s[SkipFrom(s, old(i))] == ch
      ensures r.Ok? ==> old(i) < i && i == SkipFrom(s, old(i)) + 1 && s[i - 1] == ch
      ensures r.Err? ==> i == SkipFrom(s, old(i)) && r.msg == Expected(ch)
    {
      SkipWsAndComments();
      if i < |s| && s[i] == ch {
        i := i + 1;
        return Ok(());
      }
      return Err("expected '" + [ch] + "'");
    }

    /** `parse_var_decl`: `$name: value;`, name and value trimmed. */
    method ParseVarDecl() returns (r: Result<Node>)
      requires i <= |s|
      modifies this
      ensures old(i) <= i <= |s|
      ensures r.Ok? <==> VarDeclFrom(s, old(i)).DeclRead?
      ensures r.Ok? ==> var p := VarDeclFrom(s, old(i)).spans;
        && r.value == VarDecl(RustTrim(s[p.nameStart..p.nameEnd]), RustTrim(s[p.valueStart..p.valueEnd]))
        && i == p.next
      ensures r.Err? ==> r.msg == MissingMessage(VarDeclFrom(s, old(i)).part)
      ensures r.Ok? ==> old(i) < i
    {
      ghost var start := i;
      var name := ParseVarName();
      if name.Err? {
        return Err(name.msg);
      }
      var value := ReadVarValue(VarNameFrom(s, start).nameStart, VarNameFrom(s, start).nameEnd);
      if value.Err? {
        return Err(value.msg);
      }
      return Ok(VarDecl(RustTrim(name.value), RustTrim(value.value)));
    }

    /** The end of `parse_var_decl`, after the `:`: the value up to the
        first `;` outside strings and parentheses, then that `;` after
        white space and comments. */
    method ReadVarValue(ghost nameStart: nat, ghost nameEnd: nat) returns (r: Result<string>)
      requires nameStart < nameEnd < i <= |s|
      modifies this
      ensures old(i) <= i <= |s|
      ensures var d := SemicolonAt(s, nameStart, nameEnd, old(i), FirstTopStop(s, old(i), old(i), {';'}, true));
        && (r.Ok? <==> d.DeclRead?)
        && (r.Ok? ==> r.value == s[old(i)..d.spans.valueEnd] && i == d.spans.next)
        && (r.Err? ==> r.msg == MissingMessage(d.part))
      ensures r.Ok? ==> old(i) < i && s[i - 1] == ';'
    {
      var value := ReadUntilAny({';'});
      var semi := ExpectChar(';');
      if semi.Err? {
        return Err(semi.msg);
      }
      return Ok(value);
    }

    /** The start of `parse_var_decl`: `$`, the name and `:`. */
    method ParseVarName() returns (r: Result<string>)
      requires i <= |s|
      modifies this
      ensures old(i) <= i <= |s|
      ensures r.Ok? <==> VarNameFrom(s, old(i)).NameRead?
      ensures r.Ok? ==> var p := VarNameFrom(s, old(i)); r.value == s[p.nameStart..p.nameEnd] && i == p.after
      ensures r.Err? ==> r.msg == MissingMessage(VarNameFrom(s, old(i)).part)
      ensures r.Ok? ==> old(i) < i
    {
      ghost var k := i;
      var dollar := ExpectChar('$');
      if dollar.Err? {
        assert VarNameFrom(s, k).NameMissing? && VarNameFrom(s, k).part == Dollar by {
          VarNameFromIs(s, k);
        }
        return Err(dollar.msg);
      }
      assert VarNameFrom(s, k) == NameAt(s, i, IdentRunEnd(s, i)) by {
        VarNameFromIs(s, k);
        DollarAtIs(s, i - 1);
      }
      r := ReadNameAndColon();
    }

    /** The rest of the start of `parse_var_decl`, after the `$`: the
        identifier, then `:` after white space and comments. */
    method ReadNameAndColon() returns (r: Result<string>)
      requires i <= |s|
      modifies this
      ensures old(i) <= i <= |s|
      ensures var n := NameAt(s, old(i), IdentRunEnd(s, old(i)));
        && (r.Ok? <==> n.NameRead?)
        && (r.Ok? ==> r.value == s[n.nameStart..n.nameEnd] && i == n.after)
        && (r.Err? ==> r.msg == MissingMessage(n.part))
      ensures r.Ok? ==> old(i) < i && IsScssIdent(r.value) && s[i - 1] == ':'
    {
      var name := ReadIdent();
      if name.Err? {
        return Err(name.msg);
      }
      ghost var start := old(i);
      ghost var e := i;
      SkipWsAndComments();
      SkipFromIdempotent(s, e);
      assert NameAt(s, start, e) == ColonAt(s, start, e, i);
      var colon := ExpectChar(':');
      if colon.Err? {
        return Err(colon.msg);
      }
      return Ok(name.value);
    }

    /** `parse_at_stmt`: an at-rule ending in `;`, or a block whose parsed
        body is flattened back to text. */
    method ParseAtStmt() returns (r: Result<Node>)
      requires i < |s| && s[i] == '@'
      modifies this
      ensures old(i) <= i <= |s|
      ensures r.Ok? ==> old(i) < i && r.value.RawAt? && NodeWellFormed(r.value)
      decreases |s| - i, 0
    {
      var start := i;
      var text := ReadUntilAny({';', '{'});
      assert !TopStop(s, start, start, {';', '{'}, true);
      TrimKeepsFirst(text);
      var head := RustTrim(text);
      SkipWsAndComments();
      if i < |s| && s[i] == ';' {
        i := i + 1;
        return Ok(RawAt(head));
      } else if i < |s| && s[i] == '{' {
        i := i + 1;
        var inner :- ParseBlockUntil(Some('}'));
        var css := SerializeNodes(inner);
        return Ok(RawAt(head + " {" + css + "}"));
      }
      return Err("invalid @ rule: " + text);
    }

    /** The rest of `parse_block_until`'s loop body: the text up to the
        next top-level `{` or `;` (position `k`) heads a rule, whose body
        follows, or is a declaration; anything else is an error. */
    method ParseRuleOrDecl() returns (r: Result<Node>)
      requires i <= |s|
      modifies this
      ensures old(i) <= i <= |s|
      ensures r.Ok? ==> old(i) < i && (r.value.Rule? || r.value.Decl?) && NodeWellFormed(r.value)
      ensures RuleOrDeclFrom(s, old(i), i, r)
      decreases |s| - i, 1
    {
      var head := ReadUntilAny({'{', ';'});
      var headTrim := RustTrim(head);
      SkipWsAndComments();
      r := FinishRuleOrDecl(headTrim);
    }

    /** What follows the head: `{` and a rule body, `;`, or an error. */
    method FinishRuleOrDecl(headTrim: string) returns (r: Result<Node>)
      requires i <= |s|
      modifies this
      ensures old(i) <= i <= |s|
      ensures r.Ok? ==> old(i) < i && (r.value.Rule? || r.value.Decl?) && NodeWellFormed(r.value)
      ensures RuleOrDeclEnd(s, old(i), headTrim, i, r)
      decreases |s| - i, 0
    {
      if i < |s| && s[i] == '{' {
        i := i + 1;
        var selectors := SplitSelectors(headTrim);
        var body :- ParseBlockUntil(Some('}'));
        return Ok(Rule(selectors, body));
      } else if i < |s| && s[i] == ';' {
        i := i + 1;
        var decl := SplitDecl(headTrim);
        if decl.None? {
          return Err(InvalidDeclaration + headTrim);
        }
        return Ok(Decl(decl.value.0, decl.value.1));
      }
      return Err(UnexpectedToken + headTrim);
    }

    /** `parse_block_until`: nodes up to the closing `until` character,
        which is consumed, or up to the end of the text; the top level
        (`until` absent) always runs to the end. */
    method ParseBlockUntil(until: Option<char>) returns (r: Result<seq<Node>>)
      requires i <= |s|
      modifies this
      ensures old(i) <= i <= |s|
      ensures r.Ok? ==> NodesWellFormed(r.value)
      ensures r.Ok? && until.None? ==> i == |s|
      ensures r.Ok? && until.Some? ==> i == |s| || (old(i) < i && s[i - 1] == until.value)
      decreases |s| - i, 3
    {
      var out: seq<Node> := [];
      while true
        invariant old(i) <= i <= |s|
        invariant NodesWellFormed(out)
        decreases |s| - i
      {
        SkipWsAndComments();
        if i >= |s| {
          break;
        }
        if until.Some? && s[i] == until.value {
          i := i + 1;
          break;
        }
        SkipWsAndComments();
        if i >= |s| {
          break;
        }
        var node :- ParseStatement();
        out := out + [node];
      }
      return Ok(out);
    }

    /** One statement of `parse_block_until`, chosen by its first
        character: `$` a variable, `@` an at-rule, anything else a rule or
        a declaration. */
    method ParseStatement() returns (r: Result<Node>)
      requires i < |s|
      modifies this
      ensures old(i) <= i <= |s|
      ensures r.Ok? ==> old(i) < i && NodeWellFormed(r.value)
      ensures s[old(i)] == '$' ==>
        && (r.Ok? <==> VarDeclFrom(s, old(i)).DeclRead?)
        && (r.Ok? ==> var p := VarDeclFrom(s, old(i)).spans;
              && r.value == VarDecl(RustTrim(s[p.nameStart..p.nameEnd]), RustTrim(s[p.valueStart..p.valueEnd]))
              && i == p.next)
        && (r.Err? ==> r.msg == MissingMessage(VarDeclFrom(s, old(i)).part))
      ensures s[old(i)] == '@' ==> r.Ok? ==> r.value.RawAt?
      ensures s[old(i)] != '$' && s[old(i)] != '@' ==> RuleOrDeclFrom(s, old(i), i, r)
      decreases |s| - i, 2
    {
      if s[i] == '$' {
        ghost var start := i;
        r := ParseVarDecl();
        if r.Ok? {
          VarDeclFromWellFormed(s, start);
        }
      } else if s[i] == '@' {
        r := ParseAtStmt();
      } else {
        r := ParseRuleOrDecl();
      }
    }
  }

  /** `parse_scss`: the whole text as one top-level block. */
  method ParseScss(src: string) returns (r: Result<seq<Node>>)
    ensures r.Ok? ==> NodesWellFormed(r.value)
  {
    var p := new Parser(src);
    r := p.ParseBlockUntil(None);
  }
}
