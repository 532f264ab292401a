/** Request helpers of the server core (src/core/http.ts): reading the
    `Cookie` header into a record and flattening the header table.
    `decodeURIComponent` is a parameter that answers none where the built-in
    throws. */
module HttpTs {
  import opened Wrappers
  import opened Text
  import Cookies

  /** The name and value text one `;`-part carries: the trimmed part split at
      every `=`, the first piece (trimmed) as the name and the rest joined
      again with `=` (trimmed) as the value; none when either is empty. */
  function PartText(part: string): Option<(string, string)> {
    var pieces := Split(JsTrim(part), '=');
    var name := JsTrim(pieces[0]);
    var value := JsTrim(Join(pieces[1..], "="));
    if name != "" && value != "" then Some((name, value)) else None
  }

  /** Splitting at every `=` and joining the rest again is splitting at the
      first `=`: the name and value are the trimmed text before and after it. */
  lemma PartTextAtFirstEquals(part: string)
    ensures var t := JsTrim(part); var k := FirstIndexOf(t, '=');
      PartText(part) == if k < |t| && JsTrim(t[..k]) != "" && JsTrim(t[k + 1..]) != ""
                        then Some((JsTrim(t[..k]), JsTrim(t[k + 1..]))) else None
  {
    var t := JsTrim(part);
    SplitFirstRest(t, '=');
    var k := FirstIndexOf(t, '=');
    if k == |t| {
      assert JsTrim("") == "";
    }
  }

  /** This parser and the one of the session-cookie helpers read the same
      name and value from a part; this one decodes only the value. */
  lemma SameTextAsCookieHelpers(part: string, decode: string -> Option<string>)
    requires forall s :: decode(s).Some?
    ensures PartText(part).None? <==> Cookies.PartCookie(part, decode).None?
    ensures PartText(part).Some? ==>
      Cookies.PartCookie(part, decode) == Some((decode(PartText(part).value.0).value, decode(PartText(part).value.1).value))
  {
    PartTextAtFirstEquals(part);
    var t := JsTrim(part);
    var k := FirstIndexOf(t, '=');
    if k < |t| {
      FirstIndexSplits(t, '=');
      Cookies.PartCookieSplit(part, t[..k], t[k + 1..], decode);
    } else {
      Cookies.PartCookieNoEquals(part, decode);
    }
  }

  /** What each part carries, in header order. */
  function PartTexts(parts: seq<string>): (ps: seq<Option<(string, string)>>)
    ensures |ps| == |parts| && forall i :: 0 <= i < |parts| ==> ps[i] == PartText(parts[i])
  {
    Map(parts, PartText)
  }

  /** The record the parts' names and values fill, later duplicates
      winning; the first value that fails to decode throws. */
  function Record(ps: seq<Option<(string, string)>>, decode: string -> Option<string>): Result<map<string, string>> {
    if ps == [] then Ok(map[])
    else
      match Record(ps[..|ps| - 1], decode)
      case Err(e) => Err(e)
      case Ok(out) => Assign(out, ps[|ps| - 1], decode)
  }

  /** One part's effect on the record. */
  function Assign(out: map<string, string>, nv: Option<(string, string)>, decode: string -> Option<string>): (r: Result<map<string, string>>)
    ensures nv.None? ==> r == Ok(out)
    ensures nv.Some? && decode(nv.value.1).None? ==> r == Err("URIError: URI malformed")
    ensures nv.Some? && decode(nv.value.1).Some? ==> r == Ok(out[nv.value.0 := decode(nv.value.1).value])
  {
    match nv
    case None => Ok(out)
    case Some(nv) =>
      match decode(nv.1)
      case None => Err("URIError: URI malformed")
      case Some(v) => Ok(out[nv.0 := v])
  }

  /** `parseCookies`: the `cookie` header is absent (`None`) or a string. */
  method ParseCookies(cookie: Option<string>, decode: string -> Option<string>) returns (r: Result<map<string, string>>)
    ensures (cookie.None? || cookie == Some("")) ==> r == Ok(map[])
    ensures cookie.Some? && cookie.value != "" ==> r == Record(PartTexts(Split(cookie.value, ';')), decode)
  {
    if cookie.None? || cookie.value == "" {
      return Ok(map[]);
    }
    var parts := Split(cookie.value, ';');
    r := FillRecord(parts, decode);
  }

  /** The `for` loop over the parts. */
  method FillRecord(parts: seq<string>, decode: string -> Option<string>) returns (r: Result<map<string, string>>)
    ensures r == Record(PartTexts(parts), decode)
  {
    ghost var ps := PartTexts(parts);
    var out: map<string, string> := map[];
    for i := 0 to |parts|
      invariant Record(ps[..i], decode) == Ok(out)
    {
      RecordPrefix(ps, decode, i);
      var step := AssignPart(out, parts[i], decode);
      if step.Err? {
        return step;
      }
      out := step.value;
    }
    assert ps[..|parts|] == ps;
    return Ok(out);
  }

  /** Reading one more part. */
  lemma RecordPrefix(ps: seq<Option<(string, string)>>, decode: string -> Option<string>, i: nat)
    requires i < |ps| && Record(ps[..i], decode).Ok?
    ensures Record(ps[..i + 1], decode) == Assign(Record(ps[..i], decode).value, ps[i], decode)
    ensures Record(ps[..i + 1], decode).Err? ==> Record(ps, decode) == Err("URIError: URI malformed")
  {
    assert ps[..i + 1][..i] == ps[..i];
    if Record(ps[..i + 1], decode).Err? {
      RecordErrorStops(ps, decode, i + 1);
    }
  }

  /** The body of the loop: one part read and, when it carries a cookie,
      its value decoded and stored. */
  method AssignPart(out: map<string, string>, part: string, decode: string -> Option<string>) returns (r: Result<map<string, string>>)
    ensures r == Assign(out, PartText(part), decode)
  {
    var nv := PartText(part);
    if nv.None? {
      return Ok(out);
    }
    var v := decode(nv.value.1);
    if v.None? {
      return Err("URIError: URI malformed");
    }
    return Ok(out[nv.value.0 := v.value]);
  }

  lemma {:induction false} RecordErrorStops(ps: seq<Option<(string, string)>>, decode: string -> Option<string>, k: nat)
    requires 0 < k <= |ps| && Record(ps[..k], decode).Err?
    ensures Record(ps, decode) == Err("URIError: URI malformed")
    decreases |ps| - k
  {
    if k == |ps| {
      assert ps[..k] == ps;
      ErrorIsMalformed(ps, decode);
    } else {
      assert ps[..k + 1][..k] == ps[..k];
      RecordErrorStops(ps, decode, k + 1);
    }
  }

  lemma {:induction false} ErrorIsMalformed(ps: seq<Option<(string, string)>>, decode: string -> Option<string>)
    ensures Record(ps, decode).Err? ==> Record(ps, decode) == Err("URIError: URI malformed")
    decreases |ps|
  {
    if ps != [] {
      ErrorIsMalformed(ps[..|ps| - 1], decode);
    }
  }

  /** A value that fails to decode makes the whole parse fail, wherever
      it stands. */
  lemma {:induction false} UndecodableFails(ps: seq<Option<(string, string)>>, decode: string -> Option<string>, i: nat)
    requires i < |ps| && ps[i].Some? && decode(ps[i].value.1).None?
    ensures Record(ps, decode) == Err("URIError: URI malformed")
  {
    var pre := ps[..i + 1];
    assert pre[..i] == ps[..i];
    assert pre[i] == ps[i];
    assert Record(pre, decode).Err?;
    RecordErrorStops(ps, decode, i + 1);
  }

  /** When every value decodes, a name is a key exactly when some part
      carries it. */
  lemma {:induction false} RecordKeys(ps: seq<Option<(string, string)>>, decode: string -> Option<string>, n: string)
    requires forall s :: decode(s).Some?
    ensures Record(ps, decode).Ok?
    ensures n in Record(ps, decode).value <==>
      exists i :: 0 <= i < |ps| && ps[i].Some? && ps[i].value.0 == n
    decreases |ps|
  {
    if ps != [] {
      var k := |ps| - 1;
      RecordKeys(ps[..k], decode, n);
      if exists i :: 0 <= i < k && ps[..k][i].Some? && ps[..k][i].value.0 == n {
        var i :| 0 <= i < k && ps[..k][i].Some? && ps[..k][i].value.0 == n;
        assert ps[i] == ps[..k][i];
      }
      if exists i :: 0 <= i < |ps| && ps[i].Some? && ps[i].value.0 == n {
        var i :| 0 <= i < |ps| && ps[i].Some? && ps[i].value.0 == n;
        if i < k { assert ps[..k][i] == ps[i]; }
      }
    }
  }

  /** When every value decodes, a name takes the decoded value of the last
      part that carries it. */
  lemma {:induction false} RecordLastWins(ps: seq<Option<(string, string)>>, decode: string -> Option<string>, i: nat)
    requires forall s :: decode(s).Some?
    requires i < |ps| && ps[i].Some?
    requires forall m :: i < m < |ps| && ps[m].Some? ==> ps[m].value.0 != ps[i].value.0
    ensures Record(ps, decode).Ok?
    ensures ps[i].value.0 in Record(ps, decode).value
    ensures Record(ps, decode).value[ps[i].value.0] == decode(ps[i].value.1).value
    decreases |ps|
  {
    var k := |ps| - 1;
    RecordKeys(ps, decode, ps[i].value.0);
    if i < k {
      assert ps[..k][i] == ps[i];
      forall m | i < m < k && ps[..k][m].Some?
        ensures ps[..k][m].value.0 != ps[..k][i].value.0
      {
        assert ps[..k][m] == ps[m];
      }
      RecordLastWins(ps[..k], decode, i);
    } else {
      RecordKeys(ps[..k], decode, ps[i].value.0);
    }
  }

  // ---------------------------------------------------------------------
  // Headers

  /** A header value as Node gives it: a string, a list of strings, or
      anything else (`undefined`). */
  datatype HeaderValue = HStr(s: string) | HList(items: seq<string>) | HOther

  /** The flattened value of a header, if it is kept. */
  function Flatten(v: HeaderValue): Option<string> {
    match v
    case HList(items) => Some(Join(items, ", "))
    case HStr(s) => Some(s)
    case HOther => None
  }

  /** The record the header entries fill, in `Object.entries` order. */
  function HeaderRecord(entries: seq<(string, HeaderValue)>): map<string, string> {
    if entries == [] then map[]
    else
      var out := HeaderRecord(entries[..|entries| - 1]);
      var e := entries[|entries| - 1];
      match Flatten(e.1)
      case None => out
      case Some(s) => out[e.0 := s]
  }

  /** `Object.entries` lists each key once. */
  predicate DistinctKeys(entries: seq<(string, HeaderValue)>) {
    forall i, j :: 0 <= i < j < |entries| ==> entries[i].0 != entries[j].0
  }

  /** `headersToObject`. */
  method HeadersToObject(entries: seq<(string, HeaderValue)>) returns (out: map<string, string>)
    ensures out == HeaderRecord(entries)
  {
    out := map[];
    for i := 0 to |entries|
      invariant out == HeaderRecord(entries[..i])
    {
      assert entries[..i + 1][..i] == entries[..i];
      var (k, v) := entries[i];
      if v.HList? {
        out := out[k := Join(v.items, ", ")];
      } else if v.HStr? {
        out := out[k := v.s];
      }
    }
    assert entries[..|entries|] == entries;
  }

  /** Each header is kept exactly when its value is a string or a list,
      which is joined with `, `; nothing else appears. */
  lemma {:induction false} HeaderRecordMeaning(entries: seq<(string, HeaderValue)>)
    requires DistinctKeys(entries)
    ensures forall k :: k in HeaderRecord(entries) ==>
      exists i :: 0 <= i < |entries| && entries[i].0 == k && Flatten(entries[i].1).Some?
    ensures forall i :: 0 <= i < |entries| && Flatten(entries[i].1).Some? ==>
      entries[i].0 in HeaderRecord(entries) && HeaderRecord(entries)[entries[i].0] == Flatten(entries[i].1).value
    decreases |entries|
  {
    if entries != [] {
      var n := |entries| - 1;
      var init := entries[..n];
      assert DistinctKeys(init) by {
        forall i, j | 0 <= i < j < |init| ensures init[i].0 != init[j].0 {
          assert init[i] == entries[i] && init[j] == entries[j];
        }
      }
      HeaderRecordMeaning(init);
      forall k | k in HeaderRecord(entries)
        ensures exists i :: 0 <= i < |entries| && entries[i].0 == k && Flatten(entries[i].1).Some?
      {
        if k in HeaderRecord(init) && k != entries[n].0 {
          var i :| 0 <= i < |init| && init[i].0 == k && Flatten(init[i].1).Some?;
          assert entries[i] == init[i];
        }
      }
      forall i | 0 <= i < |entries| && Flatten(entries[i].1).Some?
        ensures entries[i].0 in HeaderRecord(entries) && HeaderRecord(entries)[entries[i].0] == Flatten(entries[i].1).value
      {
        if i < n {
          assert init[i] == entries[i];
          assert entries[i].0 != entries[n].0;
        }
      }
    }
  }
}
