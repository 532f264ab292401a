/** Session cookies (src/auth/cookie-utils.ts): building a `Set-Cookie`
    value in the syntax of section 4.1 of RFC 6265 (with the SameSite
    attribute of the RFC 6265bis draft), parsing a `Cookie` header (section
    4.2 of RFC 6265), and checking the security attributes of a session
    cookie. `encodeURIComponent` and `decodeURIComponent` are parameters
    (`decode` answers none where the built-in throws), and whether the
    server runs in production is a boolean parameter. */
module Cookies {
  import opened Wrappers
  import opened Text
  import JsValues

  // ---------------------------------------------------------------------
  // Building

  datatype SameSite = Strict | Lax | NoneSite

  function SameSiteText(s: SameSite): string {
    match s
    case Strict => "Strict"
    case Lax => "Lax"
    case NoneSite => "None"
  }

  /** Caller options in the shape the spread sees them: `None` for a key
      that is absent, `Some(None)` for a key given as `undefined`. */
  datatype CookieOptions = CookieOptions(
    httpOnly: Option<Option<bool>>,
    secure: Option<Option<bool>>,
    sameSite: Option<Option<SameSite>>,
    maxAge: Option<Option<int>>,
    path: Option<Option<string>>,
    domain: Option<Option<string>>)

  const NoOptions := CookieOptions(None, None, None, None, None, None)

  /** The options after `{ ...defaults, ...options }`. */
  datatype Opts = Opts(
    httpOnly: Option<bool>,
    secure: Option<bool>,
    sameSite: Option<SameSite>,
    maxAge: Option<int>,
    path: Option<string>,
    domain: Option<string>)

  /** HttpOnly, Secure only in production, SameSite=Strict, a day's
      Max-Age, Path=/ and no Domain. */
  function Defaults(production: bool): Opts {
    Opts(Some(true), Some(production), Some(Strict), Some(24 * 60 * 60), Some("/"), None)
  }

  function Merge(options: CookieOptions, production: bool): Opts {
    var d := Defaults(production);
    Opts(
      JsValues.Override(d.httpOnly, options.httpOnly),
      JsValues.Override(d.secure, options.secure),
      JsValues.Override(d.sameSite, options.sameSite),
      JsValues.Override(d.maxAge, options.maxAge),
      JsValues.Override(d.path, options.path),
      JsValues.Override(d.domain, options.domain))
  }

  predicate Set(b: Option<bool>) { b == Some(true) }
  predicate NonEmptyText(s: Option<string>) { s.Some? && s.value != "" }

  /** `acc` with `a` appended when `present` holds. */
  function Step(acc: seq<string>, present: bool, a: string): seq<string> {
    if present then acc + [a] else acc
  }

  /** The attributes written, in their fixed order: Max-Age when defined,
      Path and Domain when non-empty, Secure and HttpOnly when true, and
      SameSite when given. */
  function AttributeList(o: Opts): seq<string> {
    var a1 := Step([], o.maxAge.Some?, "Max-Age=" + IntToDecimal(o.maxAge.GetOr(0)));
    var a2 := Step(a1, NonEmptyText(o.path), "Path=" + o.path.GetOr(""));
    var a3 := Step(a2, NonEmptyText(o.domain), "Domain=" + o.domain.GetOr(""));
    var a4 := Step(a3, Set(o.secure), "Secure");
    var a5 := Step(a4, Set(o.httpOnly), "HttpOnly");
    Step(a5, o.sameSite.Some?, "SameSite=" + SameSiteText(o.sameSite.GetOr(Strict)))
  }

  /** Each attribute preceded by `; `. */
  function Attributes(attrs: seq<string>): string {
    if attrs == [] then "" else Attributes(attrs[..|attrs| - 1]) + "; " + attrs[|attrs| - 1]
  }

  lemma {:induction false} AttributesAppend(a: seq<string>, b: seq<string>)
    ensures Attributes(a + b) == Attributes(a) + Attributes(b)
    decreases |b|
  {
    if b == [] {
      assert a + b == a;
    } else {
      var n := |b| - 1;
      assert (a + b)[..|a + b| - 1] == a + b[..n];
      AttributesAppend(a, b[..n]);
    }
  }

  /** `createSecureCookie`. */
  method CreateSecureCookie(name: string, value: string, options: CookieOptions, production: bool, encode: string -> string)
    returns (cookie: string)
    ensures cookie == encode(name) + "=" + encode(value) + Attributes(AttributeList(Merge(options, production)))
  {
    var opts := Merge(options, production);
    cookie := encode(name) + "=" + encode(value);
    ghost var pair := cookie;
    ghost var written: seq<string> := [];
    var a := "Max-Age=" + IntToDecimal(opts.maxAge.GetOr(0));
    if opts.maxAge.Some? {
      AppendAttribute(pair, cookie, written, a);
      cookie := cookie + "; " + a;
    }
    written := Step(written, opts.maxAge.Some?, a);
    a := "Path=" + opts.path.GetOr("");
    if NonEmptyText(opts.path) {
      AppendAttribute(pair, cookie, written, a);
      cookie := cookie + "; " + a;
    }
    written := Step(written, NonEmptyText(opts.path), a);
    a := "Domain=" + opts.domain.GetOr("");
    if NonEmptyText(opts.domain) {
      AppendAttribute(pair, cookie, written, a);
      cookie := cookie + "; " + a;
    }
    written := Step(written, NonEmptyText(opts.domain), a);
    a := "Secure";
    if Set(opts.secure) {
      AppendAttribute(pair, cookie, written, a);
      cookie := cookie + "; " + a;
    }
    written := Step(written, Set(opts.secure), a);
    a := "HttpOnly";
    if Set(opts.httpOnly) {
      AppendAttribute(pair, cookie, written, a);
      cookie := cookie + "; " + a;
    }
    written := Step(written, Set(opts.httpOnly), a);
    a := "SameSite=" + SameSiteText(opts.sameSite.GetOr(Strict));
    if opts.sameSite.Some? {
      AppendAttribute(pair, cookie, written, a);
      cookie := cookie + "; " + a;
    }
    written := Step(written, opts.sameSite.Some?, a);
  }

  lemma AppendAttribute(pair: string, cookie: string, written: seq<string>, a: string)
    requires cookie == pair + Attributes(written)
    ensures cookie + "; " + a == pair + Attributes(written + [a])
  {
    assert (written + [a])[..|written|] == written;
  }

  lemma Decimal86400()
    ensures IntToDecimal(86400) == "86400"
  {
    assert DigitChar(8) == '8' && DigitChar(6) == '6' && DigitChar(4) == '4' && DigitChar(0) == '0';
    assert NatToDecimal(8) == "8";
    assert NatToDecimal(86) == "86";
    assert NatToDecimal(864) == "864";
    assert NatToDecimal(8640) == "8640";
    assert NatToDecimal(86400) == "86400";
  }

  /** With no options the cookie carries Max-Age=86400, Path=/, Secure in
      production only, HttpOnly and SameSite=Strict, in that order. */
  lemma DefaultAttributes(production: bool)
    ensures AttributeList(Merge(NoOptions, production)) ==
      ["Max-Age=86400", "Path=/"] + (if production then ["Secure"] else []) + ["HttpOnly", "SameSite=Strict"]
  {
    Decimal86400();
    var o := Merge(NoOptions, production);
    assert o == Defaults(production);
    assert "Max-Age=" + IntToDecimal(86400) == "Max-Age=86400";
    assert "Path=" + "/" == "Path=/";
    assert "SameSite=" + SameSiteText(Strict) == "SameSite=Strict";
    var a2 := ["Max-Age=86400", "Path=/"];
    assert Step(Step([], true, "Max-Age=86400"), true, "Path=/") == a2;
    var a4 := Step(a2, production, "Secure");
    assert a4 == a2 + (if production then ["Secure"] else []);
    assert Step(Step(a4, true, "HttpOnly"), true, "SameSite=Strict") == a4 + ["HttpOnly", "SameSite=Strict"];
  }

  /** Options the caller gives win over the defaults, even `undefined`:
      here only Domain and the default Secure remain. */
  lemma CallerOverrides(production: bool)
    ensures AttributeList(Merge(CookieOptions(Some(Some(false)), None, Some(None), Some(None), Some(Some("")), Some(Some("x.org"))), production))
      == ["Domain=x.org"] + (if production then ["Secure"] else [])
  {
    var o := Merge(CookieOptions(Some(Some(false)), None, Some(None), Some(None), Some(Some("")), Some(Some("x.org"))), production);
    assert o == Opts(Some(false), Some(production), None, None, Some(""), Some("x.org"));
    assert !NonEmptyText(o.path) && NonEmptyText(o.domain) && !Set(o.httpOnly);
    assert "Domain=" + "x.org" == "Domain=x.org";
  }

  // ---------------------------------------------------------------------
  // Parsing

  /** The cookie one `;`-part of the header contributes: split at its first
      `=`, both sides trimmed and decoded; none for a part without `=`, with
      an empty name or value, or whose decoding throws. */
  function PartCookie(part: string, decode: string -> Option<string>): Option<(string, string)> {
    var t := JsTrim(part);
    var k := FirstIndexOf(t, '=');
    if k == |t| then None else CookieOf(JsTrim(t[..k]), JsTrim(t[k + 1..]), decode)
  }

  /** The cookie a trimmed name and value give: none when either is empty
      or does not decode. */
  function CookieOf(name: string, value: string, decode: string -> Option<string>): (r: Option<(string, string)>)
    ensures r.Some? <==> name != "" && value != "" && decode(name).Some? && decode(value).Some?
    ensures r.Some? ==> r.value == (decode(name).value, decode(value).value)
  {
    if name == "" || value == "" then None
    else if decode(name).None? || decode(value).None? then None
    else Some((decode(name).value, decode(value).value))
  }

  /** A part whose trimmed text is `a=b`, with no `=` in `a`, yields the
      cookie of the trimmed `a` and `b`. */
  lemma PartCookieSplit(part: string, a: string, b: string, decode: string -> Option<string>)
    requires JsTrim(part) == a + "=" + b && '=' !in a
    ensures PartCookie(part, decode) == CookieOf(JsTrim(a), JsTrim(b), decode)
  {
    FirstIndexAfter(a, '=', b);
  }

  /** A part without `=` yields no cookie. */
  lemma PartCookieNoEquals(part: string, decode: string -> Option<string>)
    requires '=' !in JsTrim(part)
    ensures PartCookie(part, decode).None?
  {
  }

  /** What each part yields, in header order. */
  function PartCookies(parts: seq<string>, decode: string -> Option<string>): (cs: seq<Option<(string, string)>>)
    ensures |cs| == |parts|
    ensures forall i :: 0 <= i < |parts| ==> cs[i] == PartCookie(parts[i], decode)
  {
    Map(parts, p => PartCookie(p, decode))
  }

  /** One cookie set on the map, if there is one. */
  function Put(jar: map<string, string>, c: Option<(string, string)>): map<string, string> {
    match c
    case None => jar
    case Some(c) => jar[c.0 := c.1]
  }

  /** The map the cookies `cs` fill in order, later ones winning. */
  function Jar(cs: seq<Option<(string, string)>>): map<string, string> {
    if cs == [] then map[]
    else Put(Jar(cs[..|cs| - 1]), cs[|cs| - 1])
  }

  /** Filling one more cookie in. */
  lemma JarPrefix(cs: seq<Option<(string, string)>>, i: nat)
    requires i < |cs|
    ensures Jar(cs[..i + 1]) == Put(Jar(cs[..i]), cs[i])
  {
    assert cs[..i + 1][..i] == cs[..i];
  }

  /** `parseCookies`: an empty or blank header has no cookies; otherwise
      every `;`-part that yields a cookie sets it. */
  method ParseCookies(header: string, decode: string -> Option<string>) returns (cookies: map<string, string>)
    ensures JsTrim(header) == "" ==> cookies == map[]
    ensures JsTrim(header) != "" ==> cookies == Jar(PartCookies(Split(header, ';'), decode))
  {
    if header == "" || JsTrim(header) == "" {
      return map[];
    }
    var parts := Split(header, ';');
    cookies := FillJar(parts, decode);
  }

  /** The `forEach` over the parts. */
  method FillJar(parts: seq<string>, decode: string -> Option<string>) returns (cookies: map<string, string>)
    ensures cookies == Jar(PartCookies(parts, decode))
  {
    ghost var cs := PartCookies(parts, decode);
    cookies := map[];
    for i := 0 to |parts|
      invariant cookies == Jar(cs[..i])
    {
      JarPrefix(cs, i);
      cookies := SetPart(cookies, parts[i], decode);
    }
    assert cs[..|parts|] == cs;
  }

  /** The body of the `forEach`: the cookie a part yields, if any, is set. */
  method SetPart(cookies: map<string, string>, part: string, decode: string -> Option<string>) returns (r: map<string, string>)
    ensures r == Put(cookies, PartCookie(part, decode))
  {
    var c := PartCookie(part, decode);
    r := cookies;
    if c.Some? {
      r := r[c.value.0 := c.value.1];
    }
  }

  /** A name is a key exactly when some part yields it. */
  lemma {:induction false} JarKeys(cs: seq<Option<(string, string)>>, n: string)
    ensures n in Jar(cs) <==> exists i :: 0 <= i < |cs| && cs[i].Some? && cs[i].value.0 == n
    decreases |cs|
  {
    if cs != [] {
      var k := |cs| - 1;
      JarKeys(cs[..k], n);
      if exists i :: 0 <= i < k && cs[..k][i].Some? && cs[..k][i].value.0 == n {
        var i :| 0 <= i < k && cs[..k][i].Some? && cs[..k][i].value.0 == n;
        assert cs[i] == cs[..k][i];
      }
      if exists i :: 0 <= i < |cs| && cs[i].Some? && cs[i].value.0 == n {
        var i :| 0 <= i < |cs| && cs[i].Some? && cs[i].value.0 == n;
        if i < k { assert cs[..k][i] == cs[i]; }
      }
    }
  }

  /** A name's value comes from the last part that yields it. */
  lemma {:induction false} LaterDuplicateWins(cs: seq<Option<(string, string)>>, i: nat)
    requires i < |cs| && cs[i].Some?
    requires forall m :: i < m < |cs| && cs[m].Some? ==> cs[m].value.0 != cs[i].value.0
    ensures cs[i].value.0 in Jar(cs) && Jar(cs)[cs[i].value.0] == cs[i].value.1
    decreases |cs|
  {
    var k := |cs| - 1;
    if i < k {
      assert cs[..k][i] == cs[i];
      forall m | i < m < k && cs[..k][m].Some?
        ensures cs[..k][m].value.0 != cs[..k][i].value.0
      {
        assert cs[..k][m] == cs[m];
      }
      LaterDuplicateWins(cs[..k], i);
    }
  }

  // ---------------------------------------------------------------------
  // Validating

  /** `f.toLowerCase() === word` for the ASCII words compared here. */
  predicate FlagIs(f: string, word: string) { AsciiLower(f) == word }

  predicate HasFlag(flags: seq<string>, word: string) {
    exists i :: 0 <= i < |flags| && FlagIs(flags[i], word)
  }

  predicate HasFlagPrefix(flags: seq<string>, word: string) {
    exists i :: 0 <= i < |flags| && StartsWith(AsciiLower(flags[i]), word)
  }

  /** `validateSessionCookie`: the first `;`-part must hold `=` and its name
      (before the first `=`) must decode to `expectedName`; the other parts
      must include HttpOnly and a SameSite attribute, and Secure in
      production. A name that fails to decode throws. */
  function ValidateSessionCookie(header: string, expectedName: string, production: bool, decode: string -> Option<string>): (r: Result<bool>)
    ensures header == "" ==> r == Ok(false)
  {
    if header == "" then Ok(false)
    else ValidateParts(TrimAll(Split(header, ';')), expectedName, production, decode)
  }

  /** The checks on the trimmed `;`-parts of a non-empty header. */
  function ValidateParts(parts: seq<string>, expectedName: string, production: bool, decode: string -> Option<string>): (r: Result<bool>)
    requires |parts| >= 1
    ensures parts[0] == "" || '=' !in parts[0] ==> r == Ok(false)
    ensures r.Err? <==> '=' in parts[0] && decode(Split(parts[0], '=')[0]).None?
    ensures r == Ok(true) <==>
      (&& '=' in parts[0]
       && decode(Split(parts[0], '=')[0]) == Some(expectedName)
       && HasFlag(parts[1..], "httponly") && HasFlagPrefix(parts[1..], "samesite")
       && (production ==> HasFlag(parts[1..], "secure")))
  {
    var pair := parts[0];
    var flags := parts[1..];
    if pair == "" || '=' !in pair then Ok(false)
    else
      match decode(Split(pair, '=')[0])
      case None => Err("URIError: URI malformed")
      case Some(name) =>
        Ok(name == expectedName && HasFlag(flags, "httponly") && HasFlagPrefix(flags, "samesite")
           && (production ==> HasFlag(flags, "secure")))
  }

  /** `.map((p) => p.trim())`. */
  function TrimAll(pieces: seq<string>): (r: seq<string>)
    ensures |r| == |pieces|
    ensures forall i :: 0 <= i < |pieces| ==> r[i] == JsTrim(pieces[i])
  {
    seq(|pieces|, i requires 0 <= i < |pieces| => JsTrim(pieces[i]))
  }

  /** What `encodeURIComponent` produces never holds `;`, `=` or white
      space. */
  predicate UriSafe(s: string) {
    forall i :: 0 <= i < |s| ==> s[i] != ';' && s[i] != '=' && !IsJsSpace(s[i])
  }

  /** Both ends of a text without white space at either end stay. */
  lemma TrimNoSpace(s: string)
    requires s != [] && !IsJsSpace(s[0]) && !IsJsSpace(s[|s| - 1])
    ensures JsTrim(s) == s
  {
    assert TrimStart(s, IsJsSpace) == s;
  }

  /** A leading space is trimmed off a word that has no other white space. */
  lemma TrimLeadingSpace(w: string)
    requires w != [] && forall i :: 0 <= i < |w| ==> !IsJsSpace(w[i])
    ensures JsTrim(" " + w) == w
  {
    var s := " " + w;
    assert s[1..] == w;
    assert TrimStart(s, IsJsSpace) == TrimStart(w, IsJsSpace);
    TrimNoSpace(w);
  }

  lemma FlagWords()
    ensures FlagIs("HttpOnly", "httponly") && FlagIs("Secure", "secure")
    ensures StartsWith(AsciiLower("SameSite=Strict"), "samesite")
  {
    var a := AsciiLower("HttpOnly");
    assert a[0] == 'h' && a[1] == 't' && a[2] == 't' && a[3] == 'p' && a[4] == 'o' && a[5] == 'n' && a[6] == 'l' && a[7] == 'y';
    var b := AsciiLower("Secure");
    assert b[0] == 's' && b[1] == 'e' && b[2] == 'c' && b[3] == 'u' && b[4] == 'r' && b[5] == 'e';
    var c := AsciiLower("SameSite=Strict");
    assert c[0] == 's' && c[1] == 'a' && c[2] == 'm' && c[3] == 'e' && c[4] == 's' && c[5] == 'i' && c[6] == 't' && c[7] == 'e';
    assert c[..8] == "samesite";
  }

  /** Each attribute with the space that follows its `;`. */
  function Spaced(attrs: seq<string>): (r: seq<string>)
    ensures |r| == |attrs|
    ensures forall i :: 0 <= i < |attrs| ==> r[i] == " " + attrs[i]
  {
    seq(|attrs|, i requires 0 <= i < |attrs| => " " + attrs[i])
  }

  lemma AttributesCons(a: string, rest: seq<string>)
    ensures Attributes([a] + rest) == [';'] + ((" " + a) + Attributes(rest))
  {
    AttributesAppend([a], rest);
    assert [a][..0] == [];
    assert Attributes([a]) == "; " + a;
    assert "; " + a == [';'] + (" " + a);
  }

  /** The pair followed by the attributes `[a] + rest`: the pair, `;`, then
      the spaced `a` and the other attributes. */
  lemma CookieCons(pair: string, a: string, rest: seq<string>)
    requires ';' !in a
    ensures pair + Attributes([a] + rest) == pair + [';'] + ((" " + a) + Attributes(rest))
    ensures ';' !in " " + a
  {
    AttributesCons(a, rest);
    assert (" " + a)[1..] == a;
  }

  lemma SpacedCons(a: string, rest: seq<string>)
    ensures Spaced([a] + rest) == [" " + a] + Spaced(rest)
  {
  }

  /** A cookie's `;`-parts are its pair and its attributes, each after the
      space `; ` leaves. */
  lemma {:induction false} SplitCookie(pair: string, attrs: seq<string>)
    requires ';' !in pair
    requires forall i :: 0 <= i < |attrs| ==> ';' !in attrs[i]
    ensures Split(pair + Attributes(attrs), ';') == [pair] + Spaced(attrs)
    decreases |attrs|
  {
    if attrs == [] {
      assert pair + Attributes(attrs) == pair;
      assert Split(pair, ';') == [pair];
    } else {
      var a, rest := attrs[0], attrs[1..];
      assert attrs == [a] + rest;
      CookieCons(pair, a, rest);
      SplitAtFirst(pair, (" " + a) + Attributes(rest), ';');
      SplitCookie(" " + a, rest);
      SpacedCons(a, rest);
    }
  }

  predicate NoSpace(s: string) {
    forall i :: 0 <= i < |s| ==> !IsJsSpace(s[i])
  }

  predicate PlainAttribute(w: string) {
    ';' !in w && w != "" && NoSpace(w)
  }

  lemma DefaultWordsPlain()
    ensures PlainAttribute("Max-Age=86400") && PlainAttribute("Path=/") && PlainAttribute("Secure")
    ensures PlainAttribute("HttpOnly") && PlainAttribute("SameSite=Strict")
  {
  }

  /** The attributes of a default cookie are plain words and carry the
      flags validation looks for. */
  lemma DefaultParts(production: bool) returns (attrs: seq<string>)
    ensures attrs == AttributeList(Merge(NoOptions, production))
    ensures forall i :: 0 <= i < |attrs| ==> PlainAttribute(attrs[i])
    ensures HasFlag(attrs, "httponly") && HasFlagPrefix(attrs, "samesite")
    ensures production ==> HasFlag(attrs, "secure")
  {
    DefaultAttributes(production);
    FlagWords();
    DefaultWordsPlain();
    attrs := AttributeList(Merge(NoOptions, production));
    if production {
      assert attrs == ["Max-Age=86400", "Path=/", "Secure", "HttpOnly", "SameSite=Strict"];
      assert FlagIs(attrs[2], "secure");
      assert FlagIs(attrs[3], "httponly");
      assert StartsWith(AsciiLower(attrs[4]), "samesite");
    } else {
      assert attrs == ["Max-Age=86400", "Path=/", "HttpOnly", "SameSite=Strict"];
      assert FlagIs(attrs[2], "httponly");
      assert StartsWith(AsciiLower(attrs[3]), "samesite");
    }
  }

  /** The trimmed parts of a default cookie: its pair, then its attributes. */
  lemma DefaultCookieParts(pair: string, production: bool) returns (attrs: seq<string>)
    requires pair != [] && ';' !in pair && !IsJsSpace(pair[0]) && !IsJsSpace(pair[|pair| - 1])
    ensures attrs == AttributeList(Merge(NoOptions, production))
    ensures forall i :: 0 <= i < |attrs| ==> PlainAttribute(attrs[i])
    ensures Split(pair + Attributes(attrs), ';') == [pair] + Spaced(attrs)
    ensures HasFlag(attrs, "httponly") && HasFlagPrefix(attrs, "samesite")
    ensures production ==> HasFlag(attrs, "secure")
  {
    attrs := DefaultParts(production);
    forall i | 0 <= i < |attrs| ensures ';' !in attrs[i] { }
    SplitCookie(pair, attrs);
    TrimSpaced(pair, attrs);
  }

  lemma TrimSpaced(pair: string, attrs: seq<string>)
    requires pair != [] && !IsJsSpace(pair[0]) && !IsJsSpace(pair[|pair| - 1])
    requires forall i :: 0 <= i < |attrs| ==> PlainAttribute(attrs[i])
    ensures TrimAll([pair] + Spaced(attrs)) == [pair] + attrs
  {
    TrimPairPart(pair, attrs);
    forall i | 0 <= i < |attrs| ensures TrimAll([pair] + Spaced(attrs))[i + 1] == attrs[i] {
      TrimAttributePart(pair, attrs, i);
    }
  }

  lemma TrimPairPart(pair: string, attrs: seq<string>)
    requires pair != [] && !IsJsSpace(pair[0]) && !IsJsSpace(pair[|pair| - 1])
    ensures TrimAll([pair] + Spaced(attrs))[0] == pair
  {
    TrimNoSpace(pair);
  }

  lemma TrimAttributePart(pair: string, attrs: seq<string>, i: nat)
    requires i < |attrs| && PlainAttribute(attrs[i])
    ensures TrimAll([pair] + Spaced(attrs))[i + 1] == attrs[i]
  {
    var pieces := [pair] + Spaced(attrs);
    assert pieces[i + 1] == " " + attrs[i];
    TrimLeadingSpace(attrs[i]);
  }

  /** The name of `en=ev` is `en` when `en` holds no `=`. */
  lemma PairName(en: string, ev: string)
    requires '=' !in en
    ensures Split(en + "=" + ev, '=')[0] == en
  {
    var pair := en + "=" + ev;
    assert pair[|en|] == '=';
    assert forall j :: 0 <= j < |en| ==> pair[j] == en[j];
    assert FirstIndexOf(pair, '=') == |en|;
    SplitFirstRest(pair, '=');
    assert pair[..|en|] == en;
  }

  /** A cookie built with the default options passes validation under the
      same production setting, for any name and value whose encodings hold
      no separator or white space and whose name decodes back. */
  lemma DefaultCookieValidates(name: string, value: string, production: bool,
                               encode: string -> string, decode: string -> Option<string>)
    requires encode(name) != "" && UriSafe(encode(name)) && UriSafe(encode(value))
    requires decode(encode(name)) == Some(name)
    ensures ValidateSessionCookie(
      encode(name) + "=" + encode(value) + Attributes(AttributeList(Merge(NoOptions, production))),
      name, production, decode) == Ok(true)
  {
    var en, ev := encode(name), encode(value);
    var pair := en + "=" + ev;
    PairShape(en, ev);
    var attrs := DefaultCookieParts(pair, production);
    PairName(en, ev);
    TrimSpaced(pair, attrs);
    var header := pair + Attributes(attrs);
    assert header != "" by { assert header[0] == pair[0]; }
    var parts := TrimAll(Split(header, ';'));
    assert parts == [pair] + attrs;
    assert parts[0] == pair && parts[1..] == attrs;
  }

  lemma PairShape(en: string, ev: string)
    requires en != "" && UriSafe(en) && UriSafe(ev)
    ensures var pair := en + "=" + ev;
      ';' !in pair && '=' in pair && pair != [] && !IsJsSpace(pair[0]) && !IsJsSpace(pair[|pair| - 1])
      && '=' !in en
  {
    var pair := en + "=" + ev;
    assert pair[|en|] == '=';
    forall i | 0 <= i < |pair| ensures pair[i] != ';' {
      if i < |en| { assert pair[i] == en[i]; } else if i > |en| { assert pair[i] == ev[i - |en| - 1]; }
    }
    assert pair[0] == en[0];
    if ev == "" { assert pair[|pair| - 1] == '='; } else { assert pair[|pair| - 1] == ev[|ev| - 1]; }
  }
}
