/** The input-validation middleware and the request-body sanitiser
    (src/middleware/builtins/input-validation.js). */
module InputValidation {
  import opened Wrappers
  import opened Text
  import opened JsValues

  // ---------------------------------------------------------------------
  // The guard sequence

  /** The default body-size limit, 10 KiB. */
  const MaxJsonSize := 10240
  const MaxPathLength := 2048

  const AllowedTypes: seq<string> :=
    ["application/json", "application/x-www-form-urlencoded", "multipart/form-data", "text/plain"]

  const ValidMethods: seq<string> := ["GET", "POST", "PUT", "DELETE", "PATCH", "HEAD", "OPTIONS"]

  /** The caller's options; an absent `maxJsonSize` takes the default. */
  datatype Options = Options(maxJsonSize: Option<int>)

  function Limit(options: Options): (n: int)
    ensures options.maxJsonSize.None? ==> n == MaxJsonSize
    ensures options.maxJsonSize.Some? ==> n == options.maxJsonSize.value
  {
    options.maxJsonSize.GetOr(MaxJsonSize)
  }

  /** What the guards read of a request: the two headers and the method,
      each possibly missing, and the URL's path. */
  datatype Request = Request(
    contentType: Option<string>,
    contentLength: Option<string>,
    verb: Option<string>,
    pathname: string)

  /** A refusal with its status and error text, or a call of `next`. */
  datatype Outcome = Refuse(status: int, error: string) | CallNext

  /** A non-empty content type naming none of the allowed types. */
  predicate UnsupportedType(contentType: Option<string>) {
    var t := contentType.GetOr("");
    t != "" && forall i :: 0 <= i < |AllowedTypes| ==> !Contains(t, AllowedTypes[i])
  }

  /** A declared length that reads as a number greater than the limit; a
      missing header reads as "0" and one that is not a number passes. */
  predicate TooLarge(contentLength: Option<string>, limit: int) {
    var n := ParseInt10(contentLength.GetOr("0"));
    n.Some? && n.value > limit
  }

  /** A missing method counts as GET. */
  predicate DisallowedMethod(verb: Option<string>) {
    verb.GetOr("GET") !in ValidMethods
  }

  predicate BadPath(pathname: string) {
    pathname == "" || |pathname| > MaxPathLength
  }

  /** The middleware's decision for one request. */
  function Validate(options: Options, req: Request): (out: Outcome)
    ensures out == CallNext <==>
      (!UnsupportedType(req.contentType) && !TooLarge(req.contentLength, Limit(options))
       && !DisallowedMethod(req.verb) && !BadPath(req.pathname))
    ensures UnsupportedType(req.contentType) ==> out == Refuse(415, "Unsupported Media Type")
    ensures out == Refuse(413, "Payload too large") <==>
      (!UnsupportedType(req.contentType) && TooLarge(req.contentLength, Limit(options)))
    ensures out == Refuse(405, "Method not allowed") <==>
      (!UnsupportedType(req.contentType) && !TooLarge(req.contentLength, Limit(options))
       && DisallowedMethod(req.verb))
    ensures out == Refuse(414, "URI too long") <==>
      (!UnsupportedType(req.contentType) && !TooLarge(req.contentLength, Limit(options))
       && !DisallowedMethod(req.verb) && BadPath(req.pathname))
  {
    if UnsupportedType(req.contentType) then Refuse(415, "Unsupported Media Type")
    else if TooLarge(req.contentLength, Limit(options)) then Refuse(413, "Payload too large")
    else if DisallowedMethod(req.verb) then Refuse(405, "Method not allowed")
    else if BadPath(req.pathname) then Refuse(414, "URI too long")
    else CallNext
  }

  /** Every refusal carries one of the four statuses, and the earlier
      checks passed whenever a later one refuses: the first failure wins. */
  lemma FirstFailureWins(options: Options, req: Request)
    ensures Validate(options, req).Refuse? ==> Validate(options, req).status in {415, 413, 405, 414}
    ensures Validate(options, req).Refuse? && Validate(options, req).status != 415 ==> !UnsupportedType(req.contentType)
    ensures Validate(options, req).Refuse? && Validate(options, req).status in {405, 414} ==>
      !TooLarge(req.contentLength, Limit(options))
    ensures Validate(options, req).Refuse? && Validate(options, req).status == 414 ==> !DisallowedMethod(req.verb)
  {
  }

  lemma AllowedTypeContained(t: string, k: nat)
    requires k < |AllowedTypes| && Contains(t, AllowedTypes[k])
    ensures !UnsupportedType(Some(t))
  {
  }

  /** A type with parameters after an allowed one is accepted, a missing
      type and an empty one are not checked, and a type naming none of the
      four is refused. */
  lemma ContentTypeExamples()
    ensures !UnsupportedType(Some("application/json; charset=utf-8"))
    ensures !UnsupportedType(None) && !UnsupportedType(Some(""))
    ensures UnsupportedType(Some("image/png"))
  {
    var t := "application/json; charset=utf-8";
    assert IsAt(t, AllowedTypes[0], 0);
    AllowedTypeContained(t, 0);
  }

  /** A declared length written in decimal is refused exactly when it
      exceeds the limit. */
  lemma DeclaredLength(n: int, limit: int)
    ensures TooLarge(Some(IntToDecimal(n)), limit) <==> n > limit
  {
    ParseIntDecimal(n);
  }

  /** A missing length header reads as "0". */
  lemma MissingLength(limit: int)
    ensures TooLarge(None, limit) <==> 0 > limit
  {
    assert NatToDecimal(0) == "0";
    DeclaredLength(0, limit);
  }

  /** A length that does not start with a digit or a sign (after white
      space) is not a number, and passes whatever the limit. */
  lemma NonNumericLengthPasses(s: string, limit: int)
    requires |s| > 0 && IsAsciiLower(s[0])
    ensures !TooLarge(Some(s), limit)
  {
    assert !IsJsSpace(s[0]);
    assert TrimStart(s, IsJsSpace) == s;
  }

  /** A missing method is GET and passes; an unknown verb is refused. */
  lemma MissingMethodIsGet()
    ensures !DisallowedMethod(None)
    ensures DisallowedMethod(Some("TRACE"))
    ensures DisallowedMethod(Some("get"))
  {
  }

  // ---------------------------------------------------------------------
  // Dangerous patterns

  /** The three patterns removed from strings, all matched ignoring ASCII
      case: a literal text, or the event-handler shape `on`, one or more
      word characters, then `=`. */
  datatype Pattern = Literal(lower: string) | EventHandler

  const DangerousPatterns: seq<Pattern> := [Literal("<script"), Literal("javascript:"), EventHandler]

  /** A regular-expression word character, `[A-Za-z0-9_]`. */
  predicate IsWordChar(c: char) { IsAsciiAlnum(c) || c == '_' }

  /** End of the run of word characters at `k`. */
  function WordEnd(s: string, k: nat): (j: nat)
    requires k <= |s|
    ensures k <= j <= |s|
    ensures forall m :: k <= m < j ==> IsWordChar(s[m])
    ensures j < |s| ==> !IsWordChar(s[j])
    decreases |s| - k
  {
    if k < |s| && IsWordChar(s[k]) then WordEnd(s, k + 1) else k
  }

  /** `t` occurs in `s` at `k`, ignoring ASCII case (`t` is lower case). */
  predicate FoldedAt(s: string, t: string, k: nat) {
    k + |t| <= |s| && AsciiLower(s[k..k + |t|]) == t
  }

  /** The length of the match of `p` starting at index `k` of `s`, or 0
      when there is none. Only one match can start at an index: the word
      run is greedy and a word character is never `=`. */
  function MatchAt(s: string, k: nat, p: Pattern): (n: nat)
    ensures n > 0 ==> k + n <= |s|
    ensures p.Literal? ==> (n > 0 <==> |p.lower| > 0 && FoldedAt(s, p.lower, k))
    ensures p.Literal? && n > 0 ==> n == |p.lower|
  {
    match p
    case Literal(t) => if |t| > 0 && FoldedAt(s, t, k) then |t| else 0
    case EventHandler =>
      if FoldedAt(s, "on", k) then
        var j := WordEnd(s, k + 2);
        if j > k + 2 && j < |s| && s[j] == '=' then j + 1 - k else 0
      else 0
  }

  predicate NoMatch(s: string, p: Pattern) {
    forall m :: 0 <= m < |s| ==> MatchAt(s, m, p) == 0
  }

  /** What `s.replace(p, "")` with a global pattern leaves of `s` from `k`
      on: scanning left to right, each match is cut out and the scan
      resumes after it, on the original text. */
  function RemoveFrom(s: string, p: Pattern, k: nat): string
    requires k <= |s|
    decreases |s| - k
  {
    if k == |s| then ""
    else
      var n := MatchAt(s, k, p);
      if n > 0 then RemoveFrom(s, p, k + n) else [s[k]] + RemoveFrom(s, p, k + 1)
  }

  function RemoveAll(s: string, p: Pattern): string {
    RemoveFrom(s, p, 0)
  }

  /** A pass never lengthens the text, and one that keeps its length found
      nothing to remove and left the text as it was. */
  lemma {:induction false} RemoveFromShrinks(s: string, p: Pattern, k: nat)
    requires k <= |s|
    ensures |RemoveFrom(s, p, k)| <= |s| - k
    ensures |RemoveFrom(s, p, k)| == |s| - k ==>
      RemoveFrom(s, p, k) == s[k..] && forall m :: k <= m < |s| ==> MatchAt(s, m, p) == 0
    decreases |s| - k
  {
    if k < |s| {
      var n := MatchAt(s, k, p);
      if n > 0 {
        RemoveFromShrinks(s, p, k + n);
      } else {
        RemoveFromShrinks(s, p, k + 1);
        KeptStep(s, p, k);
      }
    }
  }

  lemma KeptStep(s: string, p: Pattern, k: nat)
    requires k < |s| && MatchAt(s, k, p) == 0
    requires |RemoveFrom(s, p, k + 1)| == |s| - k - 1 ==>
      RemoveFrom(s, p, k + 1) == s[k + 1..] && forall m :: k + 1 <= m < |s| ==> MatchAt(s, m, p) == 0
    ensures |RemoveFrom(s, p, k)| == |s| - k ==>
      RemoveFrom(s, p, k) == s[k..] && forall m :: k <= m < |s| ==> MatchAt(s, m, p) == 0
  {
    assert RemoveFrom(s, p, k) == [s[k]] + RemoveFrom(s, p, k + 1);
    assert s[k..] == [s[k]] + s[k + 1..];
  }

  /** Text without a match comes back unchanged. */
  lemma {:induction false} NoMatchUnchanged(s: string, p: Pattern, k: nat)
    requires k <= |s|
    requires forall m :: k <= m < |s| ==> MatchAt(s, m, p) == 0
    ensures RemoveFrom(s, p, k) == s[k..]
    decreases |s| - k
  {
    if k < |s| {
      NoMatchUnchanged(s, p, k + 1);
      assert s[k..] == [s[k]] + s[k + 1..];
    }
  }

  /** The patterns of `ps` applied one pass each, in order. */
  function ApplyPatterns(s: string, ps: seq<Pattern>): string
    decreases |ps|
  {
    if |ps| == 0 then s else RemoveAll(ApplyPatterns(s, ps[..|ps| - 1]), ps[|ps| - 1])
  }

  /** The as-written string sanitiser: one pass per dangerous pattern. */
  function Cleaned(s: string): string {
    ApplyPatterns(s, DangerousPatterns)
  }

  /** The string branch of `sanitizeInput`: `cleaned` is reassigned once
      per pattern, in list order. */
  method CleanString(input: string) returns (cleaned: string)
    ensures cleaned == ApplyPatterns(input, DangerousPatterns)
    ensures |cleaned| <= |input|
    ensures |cleaned| == |input| ==>
      cleaned == input && forall i :: 0 <= i < |DangerousPatterns| ==> NoMatch(input, DangerousPatterns[i])
  {
    cleaned := input;
    for i := 0 to |DangerousPatterns|
      invariant cleaned == ApplyPatterns(input, DangerousPatterns[..i])
    {
      assert DangerousPatterns[..i + 1][..i] == DangerousPatterns[..i];
      cleaned := RemoveAll(cleaned, DangerousPatterns[i]);
    }
    assert DangerousPatterns[..|DangerousPatterns|] == DangerousPatterns;
    ApplyShrinks(input, DangerousPatterns);
  }

  /** The passes never lengthen the text; if together they keep its length,
      no pattern matched anywhere and the text is unchanged. */
  lemma {:induction false} ApplyShrinks(s: string, ps: seq<Pattern>)
    ensures |ApplyPatterns(s, ps)| <= |s|
    ensures |ApplyPatterns(s, ps)| == |s| ==>
      ApplyPatterns(s, ps) == s && forall i :: 0 <= i < |ps| ==> NoMatch(s, ps[i])
    decreases |ps|
  {
    if |ps| > 0 {
      var init := ps[..|ps| - 1];
      ApplyShrinks(s, init);
      var t := ApplyPatterns(s, init);
      RemoveFromShrinks(t, ps[|ps| - 1], 0);
      if |ApplyPatterns(s, ps)| == |s| {
        assert forall i :: 0 <= i < |init| ==> ps[i] == init[i];
      }
    }
  }

  /** Text free of every pattern passes through unchanged. */
  lemma {:induction false} ApplyNoMatch(s: string, ps: seq<Pattern>)
    requires forall i :: 0 <= i < |ps| ==> NoMatch(s, ps[i])
    ensures ApplyPatterns(s, ps) == s
    decreases |ps|
  {
    if |ps| > 0 {
      ApplyNoMatch(s, ps[..|ps| - 1]);
      NoMatchUnchanged(s, ps[|ps| - 1], 0);
    }
  }

  lemma FoldedOn(s: string, k: nat)
    requires FoldedAt(s, "on", k)
    ensures s[k] in "oO" && s[k + 1] in "nN"
  {
    assert AsciiLower(s[k..k + 2])[0] == AsciiLowerChar(s[k]);
    assert AsciiLower(s[k..k + 2])[1] == AsciiLowerChar(s[k + 1]);
  }

  lemma FoldedScript(s: string, k: nat)
    requires FoldedAt(s, "<script", k)
    ensures s[k] == '<'
  {
    assert AsciiLower(s[k..k + 7])[0] == AsciiLowerChar(s[k]);
  }

  lemma FoldedScheme(s: string, k: nat)
    requires FoldedAt(s, "javascript:", k)
    ensures s[k] in "jJ"
  {
    assert AsciiLower(s[k..k + 11])[0] == AsciiLowerChar(s[k]);
  }

  lemma FoldedSchemeColon(s: string, k: nat)
    requires FoldedAt(s, "javascript:", k)
    ensures s[k + 10] == ':'
  {
    assert AsciiLower(s[k..k + 11])[10] == AsciiLowerChar(s[k + 10]);
  }

  /** A case-insensitive match: the removal ignores ASCII case, and an event
      handler goes together with its `=`, while `on` with no word character
      or no `=` after it stays. */
  lemma RemovalExamples()
    ensures RemoveAll("<SCRIPT>", Literal("<script")) == ">"
    ensures RemoveAll("onclick=go", EventHandler) == "go"
    ensures RemoveAll("on=", EventHandler) == "on="
  {
    var a := "<SCRIPT>";
    assert AsciiLower(a[0..7]) == "<script";
    assert MatchAt(a, 0, Literal("<script")) == 7;
    assert RemoveFrom(a, Literal("<script"), 7) == ">";
    var b := "onclick=go";
    assert AsciiLower(b[0..2]) == "on";
    assert WordEnd(b, 7) == 7;
    assert WordEnd(b, 2) == 7;
    assert MatchAt(b, 0, EventHandler) == 8;
    assert b[8..] == "go";
    forall m | 8 <= m < |b| ensures MatchAt(b, m, EventHandler) == 0 {
      if FoldedAt(b, "on", m) { FoldedOn(b, m); }
    }
    NoMatchUnchanged(b, EventHandler, 8);
    var c := "on=";
    assert WordEnd(c, 2) == 2;
    forall m | 0 <= m < |c| ensures MatchAt(c, m, EventHandler) == 0 {
      if FoldedAt(c, "on", m) { FoldedOn(c, m); }
    }
    NoMatchUnchanged(c, EventHandler, 0);
  }

  // ---------------------------------------------------------------------
  // The single pass leaves a pattern behind

  /** The three passes, written out. */
  lemma CleanedInThreePasses(s: string)
    ensures Cleaned(s) == RemoveAll(RemoveAll(RemoveAll(s, Literal("<script")), Literal("javascript:")), EventHandler)
  {
    var ps := DangerousPatterns;
    assert ps[0] == Literal("<script") && ps[1] == Literal("javascript:") && ps[2] == EventHandler;
    var one := ps[..1];
    assert one[..|one| - 1] == [] && one[|one| - 1] == ps[0];
    assert ApplyPatterns(s, []) == s;
    var a := ApplyPatterns(s, one);
    assert a == RemoveAll(s, Literal("<script"));
    assert ps[..2][..1] == ps[..1];
    var b := ApplyPatterns(s, ps[..2]);
    assert b == RemoveAll(a, Literal("javascript:"));
    assert ps[..2] == ps[..|ps| - 1];
  }

  /** Positions without a match are copied through. */
  lemma {:induction false} CopiedThrough(s: string, p: Pattern, k: nat, j: nat)
    requires k <= j <= |s|
    requires forall m :: k <= m < j ==> MatchAt(s, m, p) == 0
    ensures RemoveFrom(s, p, k) == s[k..j] + RemoveFrom(s, p, j)
    decreases j - k
  {
    if k < j {
      CopiedThrough(s, p, k + 1, j);
      var r := RemoveFrom(s, p, j);
      assert RemoveFrom(s, p, k) == [s[k]] + RemoveFrom(s, p, k + 1);
      assert [s[k]] + (s[k + 1..j] + r) == ([s[k]] + s[k + 1..j]) + r;
      assert s[k..j] == [s[k]] + s[k + 1..j];
    }
  }

  /** Only an index holding `<` can start a `<script` match. */
  lemma ScriptNeedsBracket(s: string, m: nat)
    requires m < |s| && s[m] != '<'
    ensures MatchAt(s, m, Literal("<script")) == 0
  {
    if FoldedAt(s, "<script", m) { FoldedScript(s, m); }
  }

  const Nested := "<scr<scriptipt>"

  /** In `<scr<scriptipt>` only index 4 starts a `<script` match, and it
      covers indices 4 to 10. */
  lemma NestedMatches()
    ensures forall m :: 0 <= m < |Nested| && m != 4 ==> MatchAt(Nested, m, Literal("<script")) == 0
    ensures MatchAt(Nested, 4, Literal("<script")) == 7
  {
    var s := Nested;
    assert AsciiLower(s[0..7])[4] == '<';
    forall m | 0 <= m < |s| && m != 4 ensures MatchAt(s, m, Literal("<script")) == 0 {
      if m != 0 { ScriptNeedsBracket(s, m); }
    }
    assert AsciiLower(s[4..11]) == "<script";
  }

  /** What is left around the match joins into `<script>`. */
  lemma NestedOutside()
    ensures Nested[0..4] + Nested[11..] == "<script>"
  {
  }

  lemma FirstPassJoins()
    ensures RemoveAll(Nested, Literal("<script")) == "<script>"
  {
    var s, p := Nested, Literal("<script");
    NestedMatches();
    CopiedThrough(s, p, 0, 4);
    assert RemoveFrom(s, p, 4) == RemoveFrom(s, p, 11);
    CopiedThrough(s, p, 11, |s|);
    NestedOutside();
  }

  lemma LaterPassesKeep()
    ensures RemoveAll("<script>", Literal("javascript:")) == "<script>"
    ensures RemoveAll("<script>", EventHandler) == "<script>"
  {
    var t := "<script>";
    forall m | 0 <= m < |t| ensures MatchAt(t, m, EventHandler) == 0 {
      if FoldedAt(t, "on", m) { FoldedOn(t, m); }
    }
    NoMatchUnchanged(t, Literal("javascript:"), 0);
    NoMatchUnchanged(t, EventHandler, 0);
  }

  lemma ScriptAtStart()
    ensures MatchAt("<script>", 0, Literal("<script")) == 7
  {
    var t := "<script>";
    assert AsciiLower(t[0..7]) == "<script";
  }

  /** One pass of `<script` over `<scr<scriptipt>` cuts out the inner
      occurrence and so joins the outer pieces into a new `<script`, which
      the sanitised text still contains. */
  lemma SinglePassLeavesScript()
    ensures Cleaned("<scr<scriptipt>") == "<script>"
    ensures MatchAt(Cleaned("<scr<scriptipt>"), 0, Literal("<script")) == 7
  {
    CleanedInThreePasses("<scr<scriptipt>");
    FirstPassJoins();
    LaterPassesKeep();
    ScriptAtStart();
  }

  /** The intended sanitiser: the passes are repeated until they change
      nothing, so the result contains no dangerous pattern anywhere. */
  function CleanedFully(s: string): (r: string)
    ensures forall i :: 0 <= i < |DangerousPatterns| ==> NoMatch(r, DangerousPatterns[i])
    ensures |r| <= |s|
    decreases |s|
  {
    ApplyShrinks(s, DangerousPatterns);
    var t := Cleaned(s);
    if |t| == |s| then s else CleanedFully(t)
  }

  /** Text already free of the patterns is left alone, so the intended
      sanitiser is idempotent. */
  lemma CleanedFullyKeepsClean(s: string)
    requires forall i :: 0 <= i < |DangerousPatterns| ==> NoMatch(s, DangerousPatterns[i])
    ensures CleanedFully(s) == s
  {
    ApplyNoMatch(s, DangerousPatterns);
  }

  lemma CleanedFullyIdempotent(s: string)
    ensures CleanedFully(CleanedFully(s)) == CleanedFully(s)
  {
    CleanedFullyKeepsClean(CleanedFully(s));
  }

  // ---------------------------------------------------------------------
  // Sanitising values

  /** A sanitised value: a primitive, or a new array or object (their
      identities are fresh and not modelled). Object fields are in the
      order they were written. */
  datatype Clean =
    | Prim(v: Value)
    | CleanArr(items: seq<Clean>)
    | CleanObj(fields: seq<(string, Clean)>)

  /** The key shape `^[a-zA-Z0-9_-]+$`. */
  predicate SafeKey(k: string) {
    |k| > 0 && forall m :: 0 <= m < |k| ==> IsAsciiAlnum(k[m]) || k[m] == '_' || k[m] == '-'
  }

  /** A key that becomes an own property of the new object: `__proto__`
      passes the shape test but assigning it sets the prototype instead. */
  predicate KeptKey(k: string) {
    SafeKey(k) && k != "__proto__"
  }

  /** `sanitizeInput` with the string cleaner `clean`: strings are cleaned,
      arrays mapped, objects rebuilt from their kept keys, anything else
      returned as it is. */
  function Sanitized(v: Value, clean: string -> string): (r: Clean)
    decreases v, 1
  {
    match v
    case Str(s) => Prim(Str(clean(s)))
    case Arr(_, items) => CleanArr(SanitizedItems(v, |items|, clean))
    case Obj(_, fields) => CleanObj(SanitizedFields(v, |fields|, clean))
    case _ => Prim(v)
  }

  /** The first `n` elements of the array `v`, sanitised. */
  function SanitizedItems(v: Value, n: nat, clean: string -> string): (r: seq<Clean>)
    requires v.Arr? && n <= |v.items|
    ensures |r| == n
    decreases v, 0, n
  {
    if n == 0 then [] else SanitizedItems(v, n - 1, clean) + [Sanitized(v.items[n - 1], clean)]
  }

  /** The object rebuilt from the first `n` fields of `v`. */
  function SanitizedFields(v: Value, n: nat, clean: string -> string): (r: seq<(string, Clean)>)
    requires v.Obj? && n <= |v.fields|
    decreases v, 0, n
  {
    if n == 0 then []
    else
      var rest := SanitizedFields(v, n - 1, clean);
      var k := v.fields[n - 1].0;
      if KeptKey(k) then rest + [(k, Sanitized(v.fields[n - 1].1, clean))] else rest
  }

  /** Arrays keep their length and are sanitised element by element. */
  lemma {:induction false} ItemsPointwise(v: Value, n: nat, clean: string -> string, i: nat)
    requires v.Arr? && i < n <= |v.items|
    ensures SanitizedItems(v, n, clean)[i] == Sanitized(v.items[i], clean)
    decreases n
  {
    if i < n - 1 {
      ItemsPointwise(v, n - 1, clean, i);
    }
  }

  lemma SanitizedArray(v: Value, clean: string -> string)
    requires v.Arr?
    ensures Sanitized(v, clean).CleanArr?
    ensures |Sanitized(v, clean).items| == |v.items|
    ensures forall i :: 0 <= i < |v.items| ==> Sanitized(v, clean).items[i] == Sanitized(v.items[i], clean)
  {
    forall i | 0 <= i < |v.items| ensures Sanitized(v, clean).items[i] == Sanitized(v.items[i], clean) {
      ItemsPointwise(v, |v.items|, clean, i);
    }
  }

  /** Every rebuilt field has a kept key, and every kept field of the
      original is there with its value sanitised. */
  lemma {:induction false} FieldsKept(v: Value, n: nat, clean: string -> string)
    requires v.Obj? && n <= |v.fields|
    ensures var r := SanitizedFields(v, n, clean);
      |r| <= n && forall j :: 0 <= j < |r| ==> KeptKey(r[j].0)
    ensures forall j :: 0 <= j < n && KeptKey(v.fields[j].0) ==>
      (v.fields[j].0, Sanitized(v.fields[j].1, clean)) in SanitizedFields(v, n, clean)
    decreases n
  {
    if n > 0 {
      FieldsKept(v, n - 1, clean);
    }
  }

  /** Every rebuilt field comes from a kept field of the original. */
  lemma {:induction false} FieldsFromOriginal(v: Value, n: nat, clean: string -> string)
    requires v.Obj? && n <= |v.fields|
    ensures forall e :: e in SanitizedFields(v, n, clean) ==>
      exists j :: 0 <= j < n && e == (v.fields[j].0, Sanitized(v.fields[j].1, clean)) && KeptKey(v.fields[j].0)
    decreases n
  {
    if n > 0 {
      FieldsFromOriginal(v, n - 1, clean);
    }
  }

  /** An object whose keys are all kept comes back with the same keys in
      the same order. */
  lemma {:induction false} AllKeptSameKeys(v: Value, n: nat, clean: string -> string)
    requires v.Obj? && n <= |v.fields|
    requires forall j :: 0 <= j < n ==> KeptKey(v.fields[j].0)
    ensures |SanitizedFields(v, n, clean)| == n
    ensures forall j :: 0 <= j < n ==> SanitizedFields(v, n, clean)[j].0 == v.fields[j].0
    decreases n
  {
    if n > 0 {
      AllKeptSameKeys(v, n - 1, clean);
    }
  }

  /** Non-string primitives are returned as they are. */
  lemma PrimitivesUnchanged(v: Value, clean: string -> string)
    requires IsPrimitive(v) && !v.Str?
    ensures Sanitized(v, clean) == Prim(v)
  {
  }

  /** `sanitizeInput` as written. */
  method SanitizeInput(input: Value) returns (r: Clean)
    ensures r == Sanitized(input, Cleaned)
    decreases input
  {
    match input
    case Str(s) =>
      var cleaned := CleanString(s);
      return Prim(Str(cleaned));
    case Arr(_, items) =>
      var out: seq<Clean> := [];
      for i := 0 to |items|
        invariant out == SanitizedItems(input, i, Cleaned)
      {
        var c := SanitizeInput(items[i]);
        out := out + [c];
      }
      return CleanArr(out);
    case Obj(_, fields) =>
      var sanitized: seq<(string, Clean)> := [];
      for i := 0 to |fields|
        invariant sanitized == SanitizedFields(input, i, Cleaned)
      {
        var (key, value) := fields[i];
        if !KeptKey(key) {
          continue;
        }
        var c := SanitizeInput(value);
        sanitized := sanitized + [(key, c)];
      }
      return CleanObj(sanitized);
    case _ =>
      return Prim(input);
  }

  /** Every string a sanitised value holds, keys included. */
  predicate AllStrings(c: Clean, ok: string -> bool)
    decreases c
  {
    match c
    case Prim(v) => v.Str? ==> ok(v.s)
    case CleanArr(items) => forall i :: 0 <= i < |items| ==> AllStrings(items[i], ok)
    case CleanObj(fields) =>
      forall j :: 0 <= j < |fields| ==> ok(fields[j].0) && AllStrings(fields[j].1, ok)
  }

  predicate PatternFree(s: string) {
    forall i :: 0 <= i < |DangerousPatterns| ==> NoMatch(s, DangerousPatterns[i])
  }

  /** A kept key has none of `<`, `:` or `=`, so no pattern matches in it. */
  lemma KeptKeyPatternFree(k: string)
    requires KeptKey(k)
    ensures PatternFree(k)
  {
    forall i, m | 0 <= i < |DangerousPatterns| && 0 <= m < |k|
      ensures MatchAt(k, m, DangerousPatterns[i]) == 0
    {
      if i == 0 && FoldedAt(k, "<script", m) { FoldedScript(k, m); }
      if i == 1 && FoldedAt(k, "javascript:", m) { FoldedSchemeColon(k, m); }
      if i == 2 && FoldedAt(k, "on", m) {
        var j := WordEnd(k, m + 2);
        assert j < |k| ==> k[j] != '=';
      }
    }
  }

  /** With the intended cleaner, no string anywhere in the sanitised value,
      key or value, contains a dangerous pattern. */
  lemma {:induction false} SanitizedFullyIsFree(v: Value)
    ensures AllStrings(Sanitized(v, CleanedFully), PatternFree)
    decreases v
  {
    match v
    case Arr(_, items) =>
      SanitizedArray(v, CleanedFully);
      forall i | 0 <= i < |items| ensures AllStrings(Sanitized(items[i], CleanedFully), PatternFree) {
        SanitizedFullyIsFree(items[i]);
      }
    case Obj(_, fields) =>
      var r := SanitizedFields(v, |fields|, CleanedFully);
      FieldsFromOriginal(v, |fields|, CleanedFully);
      forall j | 0 <= j < |r| ensures PatternFree(r[j].0) && AllStrings(r[j].1, PatternFree) {
        assert r[j] in r;
        var m :| 0 <= m < |fields| && r[j] == (fields[m].0, Sanitized(fields[m].1, CleanedFully)) && KeptKey(fields[m].0);
        KeptKeyPatternFree(fields[m].0);
        SanitizedFullyIsFree(fields[m].1);
      }
    case _ =>
  }
}
