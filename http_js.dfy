/** The plain-JavaScript build of the request helpers (src/core/http.js).
    Its `parseCookies` differs from the TypeScript one: the name is not
    trimmed again, nothing is dropped for being empty, and every part,
    even an empty one, sets a key. Its `headersToObject` is the same code
    as the TypeScript one and is `HttpTs.HeadersToObject`. */
module HttpJs {
  import opened Wrappers
  import opened Text
  import HttpTs

  /** The name and value one `;`-part carries: the trimmed part split at
      every `=`, the first piece as the name and the rest joined again with
      `=` as the value (`""` when there is no `=`). */
  function PartText(part: string): (string, string) {
    var pieces := Split(JsTrim(part), '=');
    (pieces[0], Join(pieces[1..], "="))
  }

  /** The name is the trimmed part up to its first `=`, the value the text
      after that `=`, and both are empty for an empty part. */
  lemma PartTextAtFirstEquals(part: string)
    ensures var t := JsTrim(part); var k := FirstIndexOf(t, '=');
      PartText(part) == (t[..k], if k < |t| then t[k + 1..] else "")
  {
    SplitFirstRest(JsTrim(part), '=');
  }

  /** A part without a value, such as `a=`, is kept here with the value
      `""`, where the TypeScript parser drops it. */
  lemma EmptyValueKept(part: string)
    requires var t := JsTrim(part); var k := FirstIndexOf(t, '=');
      k == |t| - 1 && JsTrim(t[..k]) != ""
    ensures PartText(part).1 == "" && PartText(part).0 != ""
    ensures HttpTs.PartText(part).None?
  {
    PartTextAtFirstEquals(part);
    HttpTs.PartTextAtFirstEquals(part);
    var t := JsTrim(part);
    var k := FirstIndexOf(t, '=');
    assert t[k + 1..] == "";
    assert JsTrim("") == "";
  }

  /** What one part carries: always a name and a value. */
  function Carried(part: string): Option<(string, string)> {
    Some(PartText(part))
  }

  /** The parts' names and values, each part carrying one. */
  function PartTexts(parts: seq<string>): (ps: seq<Option<(string, string)>>)
    ensures |ps| == |parts| && forall i :: 0 <= i < |parts| ==> ps[i] == Some(PartText(parts[i]))
  {
    Map(parts, Carried)
  }

  /** `parseCookies`: the record is filled as in the TypeScript build, every
      part storing its decoded value under its name. */
  method ParseCookies(cookie: Option<string>, decode: string -> Option<string>) returns (r: Result<map<string, string>>)
    ensures (cookie.None? || cookie == Some("")) ==> r == Ok(map[])
    ensures cookie.Some? && cookie.value != "" ==> r == HttpTs.Record(PartTexts(Split(cookie.value, ';')), decode)
  {
    if cookie.None? || cookie.value == "" {
      return Ok(map[]);
    }
    var parts := Split(cookie.value, ';');
    r := FillRecord(parts, decode);
  }

  /** The `for` loop over the parts. */
  method FillRecord(parts: seq<string>, decode: string -> Option<string>) returns (r: Result<map<string, string>>)
    ensures r == HttpTs.Record(PartTexts(parts), decode)
  {
    ghost var ps := PartTexts(parts);
    var out: map<string, string> := map[];
    for i := 0 to |parts|
      invariant HttpTs.Record(ps[..i], decode) == Ok(out)
    {
      HttpTs.RecordPrefix(ps, decode, i);
      var step := AssignPart(out, parts[i], decode);
      if step.Err? {
        return step;
      }
      out := step.value;
    }
    assert ps[..|parts|] == ps;
    return Ok(out);
  }

  /** The body of the loop: the part's value decoded and stored under its
      name. */
  method AssignPart(out: map<string, string>, part: string, decode: string -> Option<string>) returns (r: Result<map<string, string>>)
    ensures r == HttpTs.Assign(out, Carried(part), decode)
  {
    var (k, raw) := PartText(part);
    var v := decode(raw);
    if v.None? {
      return Err("URIError: URI malformed");
    }
    return Ok(out[k := v.value]);
  }

  /** When every value decodes, the keys are exactly the names of all the
      parts. */
  lemma KeysAreAllNames(parts: seq<string>, decode: string -> Option<string>, n: string)
    requires forall s :: decode(s).Some?
    ensures HttpTs.Record(PartTexts(parts), decode).Ok?
    ensures n in HttpTs.Record(PartTexts(parts), decode).value <==>
      exists i :: 0 <= i < |parts| && PartText(parts[i]).0 == n
  {
    var ps := PartTexts(parts);
    HttpTs.RecordKeys(ps, decode, n);
  }

  /** A header ending in `;` stores the empty name (with the decoded empty
      value), which the TypeScript parser never does. */
  lemma TrailingSemicolonEmptyName(h: string, decode: string -> Option<string>)
    requires forall s :: decode(s).Some?
    ensures HttpTs.Record(PartTexts(Split(h + ";", ';')), decode).Ok?
    ensures "" in HttpTs.Record(PartTexts(Split(h + ";", ';')), decode).value
  {
    var parts := Split(h + ";", ';');
    var pieces := Split(h, ';');
    JoinSplit(h, ';');
    SplitLastEmpty(h);
    var i := |parts| - 1;
    assert parts[i] == "";
    assert JsTrim("") == "";
    assert PartText("").0 == "";
    KeysAreAllNames(parts, decode, "");
  }

  /** The last piece of `h + ";"` split at `;` is empty. */
  lemma {:induction false} SplitLastEmpty(h: string)
    ensures Split(h + ";", ';')[|Split(h + ";", ';')| - 1] == ""
    decreases |h|
  {
    var s := h + ";";
    var k := FirstIndexOf(s, ';');
    assert s[|h|] == ';';
    if k == |h| {
      assert s[k + 1..] == "";
    } else {
      assert k < |h| && s[k] == h[k];
      assert s[k + 1..] == h[k + 1..] + ";";
      SplitLastEmpty(h[k + 1..]);
    }
  }
}
