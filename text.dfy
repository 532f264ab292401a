/** String primitives shared by the models: searching, splitting and joining,
    trimming under the JavaScript and the Rust notions of white space, ASCII
    case mapping, decimal rendering and JavaScript's `parseInt(s, 10)`.
    Strings are `seq<char>`. */
module Text {
  import opened Wrappers

  // ---------------------------------------------------------------------
  // Searching

  /** Index of the first `c` in `s`, or `|s|` when `s` has none. */
  function FirstIndexOf(s: string, c: char): (k: nat)
    ensures k <= |s|
    ensures forall j :: 0 <= j < k ==> s[j] != c
    ensures k < |s| ==> s[k] == c
    decreases |s|
  {
    if |s| == 0 || s[0] == c then 0 else 1 + FirstIndexOf(s[1..], c)
  }

  /** Index of the last `c` in `s`, if any. */
  function LastIndexOf(s: string, c: char): (r: Option<nat>)
    ensures r.Some? ==> r.value < |s| && s[r.value] == c
    ensures r.Some? ==> forall j :: r.value < j < |s| ==> s[j] != c
    ensures r.None? ==> forall j :: 0 <= j < |s| ==> s[j] != c
    decreases |s|
  {
    if |s| == 0 then None
    else if s[|s| - 1] == c then Some(|s| - 1)
    else LastIndexOf(s[..|s| - 1], c)
  }

  /** `t` occurs in `s` at index `k`. */
  predicate IsAt(s: string, t: string, k: nat) {
    k + |t| <= |s| && s[k..k + |t|] == t
  }

  lemma IsAtShift(s: string, t: string, j: nat)
    requires |s| > 0
    ensures IsAt(s, t, j + 1) <==> IsAt(s[1..], t, j)
  {
    if j + 1 + |t| <= |s| {
      assert s[j + 1..j + 1 + |t|] == s[1..][j..j + |t|];
    }
  }

  /** The first index at which `t` occurs in `s` (`indexOf`, `find`). */
  function Find(s: string, t: string): (r: Option<nat>)
    ensures r.Some? ==> IsAt(s, t, r.value)
    ensures r.Some? ==> forall j :: 0 <= j < r.value ==> !IsAt(s, t, j)
    ensures r.None? ==> forall j :: 0 <= j <= |s| ==> !IsAt(s, t, j)
    decreases |s|
  {
    if IsAt(s, t, 0) then Some(0)
    else if |s| == 0 then None
    else
      var rest := Find(s[1..], t);
      FindStep(s, t, rest);
      if rest.None? then None else Some(rest.value + 1)
  }

  lemma FindStep(s: string, t: string, rest: Option<nat>)
    requires |s| > 0 && !IsAt(s, t, 0)
    requires rest.Some? ==> IsAt(s[1..], t, rest.value)
    requires rest.Some? ==> forall j :: 0 <= j < rest.value ==> !IsAt(s[1..], t, j)
    requires rest.None? ==> forall j :: 0 <= j <= |s[1..]| ==> !IsAt(s[1..], t, j)
    ensures rest.Some? ==> IsAt(s, t, rest.value + 1)
    ensures rest.Some? ==> forall j :: 0 <= j < rest.value + 1 ==> !IsAt(s, t, j)
    ensures rest.None? ==> forall j :: 0 <= j <= |s| ==> !IsAt(s, t, j)
  {
    if rest.Some? {
      IsAtShift(s, t, rest.value);
      forall j | 0 <= j < rest.value + 1 ensures !IsAt(s, t, j) {
        if j > 0 { IsAtShift(s, t, j - 1); }
      }
    } else {
      forall j | 0 <= j <= |s| ensures !IsAt(s, t, j) {
        if j > 0 { IsAtShift(s, t, j - 1); }
      }
    }
  }

  /** `s.includes(t)` / `s.contains(t)`. */
  predicate Contains(s: string, t: string) {
    Find(s, t).Some?
  }

  predicate StartsWith(s: string, t: string) {
    t <= s
  }

  predicate EndsWith(s: string, t: string) {
    |t| <= |s| && s[|s| - |t|..] == t
  }

  /** What is appended after `a` leaves `a` as the prefix. */
  lemma AppendedPrefix(a: string, b: string, c: string)
    ensures (a + b + c)[..|a|] == a
  {
    assert (a + b + c)[..|a|] == (a + b)[..|a|];
  }

  /** `s.replace(pat, rep)` with a string pattern (`replacen(pat, rep, 1)`):
      the first occurrence of `pat` replaced, or `s` unchanged when there is
      none. */
  function ReplaceFirst(s: string, pat: string, rep: string): (r: string)
    ensures Find(s, pat).None? ==> r == s
    ensures Find(s, pat).Some? ==> var k := Find(s, pat).value;
      r == s[..k] + rep + s[k + |pat|..]
  {
    match Find(s, pat)
    case None => s
    case Some(k) => s[..k] + rep + s[k + |pat|..]
  }

  /** A pattern the text starts with is the one replaced. */
  lemma ReplaceAtStart(s: string, pat: string, rep: string)
    requires StartsWith(s, pat)
    ensures ReplaceFirst(s, pat, rep) == rep + s[|pat|..]
  {
    assert IsAt(s, pat, 0);
    assert Find(s, pat) == Some(0);
  }

  /** A pattern holding a character the text lacks is never found. */
  lemma ReplaceAbsent(s: string, pat: string, rep: string, c: char)
    requires c in pat && c !in s
    ensures ReplaceFirst(s, pat, rep) == s
  {
  }

  // ---------------------------------------------------------------------
  // Splitting and joining

  /** `s.split(c)` for a one-character separator, in JavaScript and Rust alike:
      the pieces between the separators, always at least one. */
  function Split(s: string, c: char): (r: seq<string>)
    ensures |r| >= 1
    ensures forall i :: 0 <= i < |r| ==> c !in r[i]
    decreases |s|
  {
    var k := FirstIndexOf(s, c);
    if k == |s| then [s] else [s[..k]] + Split(s[k + 1..], c)
  }

  /** `parts.join(sep)`. */
  function Join(parts: seq<string>, sep: string): string {
    if |parts| == 0 then ""
    else if |parts| == 1 then parts[0]
    else parts[0] + sep + Join(parts[1..], sep)
  }

  /** Joining a first piece and a non-empty rest: the piece, the separator,
      then the rest joined. */
  lemma JoinCons(x: string, t: seq<string>, sep: string)
    requires |t| > 0
    ensures Join([x] + t, sep) == x + sep + Join(t, sep)
  {
    assert ([x] + t)[1..] == t;
  }

  /** Joining the pieces of a split with the separator gives back the input. */
  lemma {:induction false} JoinSplit(s: string, c: char)
    ensures Join(Split(s, c), [c]) == s
    decreases |s|
  {
    var k := FirstIndexOf(s, c);
    if k < |s| {
      var rest := Split(s[k + 1..], c);
      JoinSplit(s[k + 1..], c);
      assert Split(s, c) == [s[..k]] + rest;
      assert Join(Split(s, c), [c]) == s[..k] + [c] + Join(rest, [c]);
      assert s == s[..k] + [c] + s[k + 1..];
    }
  }

  /** Splitting a join of separator-free pieces gives back the pieces. */
  lemma {:induction false} SplitJoin(parts: seq<string>, c: char)
    requires |parts| >= 1
    requires forall i :: 0 <= i < |parts| ==> c !in parts[i]
    ensures Split(Join(parts, [c]), c) == parts
    decreases |parts|
  {
    if |parts| > 1 {
      var tail := Join(parts[1..], [c]);
      assert Join(parts, [c]) == parts[0] + [c] + tail;
      SplitCons(parts[0], c, tail);
      SplitJoin(parts[1..], c);
      assert parts == [parts[0]] + parts[1..];
    } else {
      assert Join(parts, [c]) == parts[0];
    }
  }

  /** A separator-free piece, then the separator, splits off as the first
      piece. */
  lemma SplitCons(x: string, c: char, y: string)
    requires c !in x
    ensures Split(x + [c] + y, c) == [x] + Split(y, c)
  {
    FirstIndexAfter(x, c, y);
  }

  /** In `x`, the separator, then `y`, with no separator in `x`, the first
      separator is the one after `x`. */
  lemma FirstIndexAfter(x: string, c: char, y: string)
    requires c !in x
    ensures var s := x + [c] + y; FirstIndexOf(s, c) == |x| && s[..|x|] == x && s[|x| + 1..] == y
  {
    var s := x + [c] + y;
    assert s[|x|] == c;
    assert forall j :: 0 <= j < |x| ==> s[j] == x[j];
    assert s[..|x|] == x;
    assert s[|x| + 1..] == y;
  }

  /** A text holding the separator is the text before its first
      occurrence, the separator and the rest. */
  lemma FirstIndexSplits(s: string, c: char)
    requires c in s
    ensures var k := FirstIndexOf(s, c); k < |s| && s == s[..k] + [c] + s[k + 1..] && c !in s[..k]
  {
    var k := FirstIndexOf(s, c);
    assert s == s[..k] + [s[k]] + s[k + 1..];
  }

  /** Splitting at a first separator that follows separator-free text. */
  lemma SplitAtFirst(x: string, y: string, c: char)
    requires c !in x
    ensures Split(x + [c] + y, c) == [x] + Split(y, c)
  {
    FirstIndexAfter(x, c, y);
  }

  /** The first piece of a split is the text before the first separator;
      the others, joined again, are the text after it. */
  lemma SplitFirstRest(s: string, c: char)
    ensures Split(s, c)[0] == s[..FirstIndexOf(s, c)]
    ensures Join(Split(s, c)[1..], [c]) == if FirstIndexOf(s, c) < |s| then s[FirstIndexOf(s, c) + 1..] else ""
  {
    var k := FirstIndexOf(s, c);
    if k < |s| {
      assert Split(s, c)[1..] == Split(s[k + 1..], c);
      JoinSplit(s[k + 1..], c);
    }
  }

  /** `parts.filter(Boolean)` / `.filter(|x| !x.is_empty())`: the non-empty parts, in order. */
  function NonEmpty(parts: seq<string>): (r: seq<string>)
    ensures forall i :: 0 <= i < |r| ==> r[i] != ""
    ensures forall i :: 0 <= i < |r| ==> r[i] in parts
    ensures forall p :: p in parts && p != "" ==> p in r
    ensures |r| <= |parts|
  {
    if |parts| == 0 then []
    else if parts[0] == "" then NonEmpty(parts[1..])
    else [parts[0]] + NonEmpty(parts[1..])
  }

  /** Every occurrence of character `a` replaced by `b`. */
  function ReplaceChar(s: string, a: char, b: char): (r: string)
    ensures |r| == |s|
    ensures forall i :: 0 <= i < |s| ==> r[i] == (if s[i] == a then b else s[i])
  {
    seq(|s|, i requires 0 <= i < |s| => if s[i] == a then b else s[i])
  }

  /** `xs.map(f)`: one result per element, in order. */
  function Map<A, B>(xs: seq<A>, f: A -> B): (r: seq<B>)
    ensures |r| == |xs| && forall i :: 0 <= i < |xs| ==> r[i] == f(xs[i])
  {
    seq(|xs|, i requires 0 <= i < |xs| => f(xs[i]))
  }

  /** Mapping a prefix gives a prefix of the results. */
  lemma MapPrefix<A, B>(xs: seq<A>, f: A -> B, k: nat)
    requires k <= |xs|
    ensures Map(xs, f)[..k] == Map(xs[..k], f)
  {
  }

  // ---------------------------------------------------------------------
  // White space and trimming

  /** JavaScript's WhiteSpace and LineTerminator code points, which
      `String.prototype.trim` and `parseInt` skip. */
  predicate IsJsSpace(c: char) {
    c == '\t' || c == '\n' || c == '\U{000B}' || c == '\U{000C}' || c == '\r' || c == ' '
    || c == '\U{00A0}' || c == '\U{1680}' || ('\U{2000}' <= c <= '\U{200A}')
    || c == '\U{2028}' || c == '\U{2029}' || c == '\U{202F}' || c == '\U{205F}'
    || c == '\U{3000}' || c == '\U{FEFF}'
  }

  /** Unicode's White_Space property, which Rust's `char::is_whitespace`,
      `str::trim` and the regex class `\s` use. */
  predicate IsRustSpace(c: char) {
    ('\t' <= c <= '\r') || c == ' ' || c == '\U{0085}' || c == '\U{00A0}'
    || c == '\U{1680}' || ('\U{2000}' <= c <= '\U{200A}') || c == '\U{2028}'
    || c == '\U{2029}' || c == '\U{202F}' || c == '\U{205F}' || c == '\U{3000}'
  }

  /** `s` with its leading characters satisfying `ws` removed. */
  function TrimStart(s: string, ws: char -> bool): (r: string)
    ensures |r| <= |s| && r == s[|s| - |r|..]
    ensures forall j :: 0 <= j < |s| - |r| ==> ws(s[j])
    ensures r != [] ==> !ws(r[0])
  {
    if |s| > 0 && ws(s[0]) then
      var r := TrimStart(s[1..], ws);
      assert s[1..][|s| - 1 - |r|..] == s[|s| - |r|..];
      r
    else s
  }

  /** `s` with its trailing characters satisfying `ws` removed. */
  function TrimEnd(s: string, ws: char -> bool): (r: string)
    ensures |r| <= |s| && r == s[..|r|]
    ensures forall j :: |r| <= j < |s| ==> ws(s[j])
    ensures r != [] ==> !ws(r[|r| - 1])
  {
    if |s| > 0 && ws(s[|s| - 1]) then
      var r := TrimEnd(s[..|s| - 1], ws);
      assert s[..|s| - 1][..|r|] == s[..|r|];
      r
    else s
  }

  /** Both ends trimmed. */
  function Trim(s: string, ws: char -> bool): string {
    TrimEnd(TrimStart(s, ws), ws)
  }

  /** JavaScript's `s.trim()`. */
  function JsTrim(s: string): string {
    Trim(s, IsJsSpace)
  }

  /** Rust's `s.trim()`. */
  function RustTrim(s: string): string {
    Trim(s, IsRustSpace)
  }

  /** Trimming the start of `a + b` stops inside `a` when `a` ends with a
      character that is kept. */
  lemma {:induction false} TrimStartAppend(a: string, b: string, ws: char -> bool)
    requires |a| > 0 && !ws(a[|a| - 1])
    ensures TrimStart(a + b, ws) == TrimStart(a, ws) + b
    decreases |a|
  {
    if ws(a[0]) {
      assert (a + b)[1..] == a[1..] + b;
      TrimStartAppend(a[1..], b, ws);
    }
  }

  /** Trimming the end of `a + b` stops inside `b` when `b` starts with a
      character that is kept. */
  lemma {:induction false} TrimEndPrepend(a: string, b: string, ws: char -> bool)
    requires |b| > 0 && !ws(b[0])
    ensures TrimEnd(a + b, ws) == a + TrimEnd(b, ws)
    decreases |b|
  {
    if ws(b[|b| - 1]) {
      assert (a + b)[..|a + b| - 1] == a + b[..|b| - 1];
      TrimEndPrepend(a, b[..|b| - 1], ws);
    }
  }

  /** A kept last character survives trimming the start. */
  lemma TrimStartKeepsLast(s: string, ws: char -> bool)
    requires |s| > 0 && !ws(s[|s| - 1])
    ensures |TrimStart(s, ws)| > 0 && TrimStart(s, ws)[|TrimStart(s, ws)| - 1] == s[|s| - 1]
  {
    var r := TrimStart(s, ws);
    assert r[|r| - 1] == s[|s| - |r|..][|r| - 1];
  }

  /** A kept first character survives trimming the end. */
  lemma TrimEndKeepsFirst(s: string, ws: char -> bool)
    requires |s| > 0 && !ws(s[0])
    ensures |TrimEnd(s, ws)| > 0 && TrimEnd(s, ws)[0] == s[0]
  {
  }

  /** Trimming twice is trimming once. */
  lemma TrimIdempotent(s: string, ws: char -> bool)
    ensures Trim(Trim(s, ws), ws) == Trim(s, ws)
  {
    var r := Trim(s, ws);
    assert TrimStart(r, ws) == r;
    assert TrimEnd(r, ws) == r;
  }

  // ---------------------------------------------------------------------
  // Case and character classes

  predicate IsAsciiUpper(c: char) { 'A' <= c <= 'Z' }
  predicate IsAsciiLower(c: char) { 'a' <= c <= 'z' }
  predicate IsAsciiDigit(c: char) { '0' <= c <= '9' }
  predicate IsAsciiAlnum(c: char) { IsAsciiUpper(c) || IsAsciiLower(c) || IsAsciiDigit(c) }

  function AsciiLowerChar(c: char): (d: char)
    ensures IsAsciiUpper(c) ==> IsAsciiLower(d)
    ensures !IsAsciiUpper(c) ==> d == c
  {
    if IsAsciiUpper(c) then (c as int + 32) as char else c
  }

  /** Lower-casing restricted to ASCII letters. */
  function AsciiLower(s: string): (r: string)
    ensures |r| == |s|
    ensures forall i :: 0 <= i < |s| ==> r[i] == AsciiLowerChar(s[i])
  {
    seq(|s|, i requires 0 <= i < |s| => AsciiLowerChar(s[i]))
  }

  /** The identifier shape `^[a-zA-Z_$][a-zA-Z0-9_$]*$` that the router and
      the SQL driver both test. */
  predicate IsIdentifier(s: string) {
    |s| >= 1
    && (IsAsciiUpper(s[0]) || IsAsciiLower(s[0]) || s[0] == '_' || s[0] == '$')
    && forall i :: 0 <= i < |s| ==> IsAsciiAlnum(s[i]) || s[i] == '_' || s[i] == '$'
  }

  // ---------------------------------------------------------------------
  // Decimal numbers

  function DigitChar(d: nat): (c: char)
    requires d < 10
    ensures IsAsciiDigit(c) && c as int - '0' as int == d
  {
    ('0' as int + d) as char
  }

  /** Decimal digits of a natural number, no leading zeros. */
  function NatToDecimal(n: nat): (r: string)
    ensures |r| >= 1
    ensures forall i :: 0 <= i < |r| ==> IsAsciiDigit(r[i])
  {
    if n < 10 then [DigitChar(n)] else NatToDecimal(n / 10) + [DigitChar(n % 10)]
  }

  /** The text JavaScript's `String(n)` and Rust's `format!("{}", n)` give for an integer. */
  function IntToDecimal(n: int): string {
    if n < 0 then "-" + NatToDecimal(-n) else NatToDecimal(n)
  }

  function DigitValue(c: char): nat
    requires IsAsciiDigit(c)
  {
    c as int - '0' as int
  }

  /** The value of a string of decimal digits. */
  function DigitsValue(ds: string): nat
    requires forall i :: 0 <= i < |ds| ==> IsAsciiDigit(ds[i])
  {
    if |ds| == 0 then 0
    else 10 * DigitsValue(ds[..|ds| - 1]) + DigitValue(ds[|ds| - 1])
  }

  /** Length of the run of decimal digits at the start of `s`. */
  function DigitRun(s: string): (k: nat)
    ensures k <= |s|
    ensures forall i :: 0 <= i < k ==> IsAsciiDigit(s[i])
    ensures k < |s| ==> !IsAsciiDigit(s[k])
  {
    if |s| > 0 && IsAsciiDigit(s[0]) then 1 + DigitRun(s[1..]) else 0
  }

  /** JavaScript's `parseInt(s, 10)` on integers: leading white space, an
      optional sign, then the longest run of digits; `None` is NaN. */
  function ParseInt10(s: string): Option<int> {
    var t := TrimStart(s, IsJsSpace);
    var neg := |t| > 0 && t[0] == '-';
    var u := if |t| > 0 && (t[0] == '-' || t[0] == '+') then t[1..] else t;
    var k := DigitRun(u);
    if k == 0 then None
    else
      var v: int := DigitsValue(u[..k]);
      Some(if neg then -v else v)
  }

  lemma {:induction false} NatToDecimalValue(n: nat)
    ensures DigitsValue(NatToDecimal(n)) == n
  {
    if n >= 10 {
      var r := NatToDecimal(n);
      NatToDecimalValue(n / 10);
      assert r[..|r| - 1] == NatToDecimal(n / 10);
    }
  }

  lemma {:induction false} DigitRunAll(ds: string)
    requires forall i :: 0 <= i < |ds| ==> IsAsciiDigit(ds[i])
    ensures DigitRun(ds) == |ds|
    decreases |ds|
  {
    if |ds| > 0 {
      DigitRunAll(ds[1..]);
    }
  }

  /** `parseInt` reads back exactly the integer that decimal rendering wrote. */
  lemma ParseIntDecimal(n: int)
    ensures ParseInt10(IntToDecimal(n)) == Some(n)
  {
    if n < 0 {
      var ds := NatToDecimal(-n);
      NatToDecimalValue(-n);
      ParseNegativeDigits(ds);
      assert IntToDecimal(n) == "-" + ds;
    } else {
      var ds := NatToDecimal(n);
      NatToDecimalValue(n);
      ParseDigits(ds);
      assert IntToDecimal(n) == ds;
    }
  }

  /** A run of digits is read as its value. */
  lemma ParseDigits(ds: string)
    requires |ds| >= 1 && forall i :: 0 <= i < |ds| ==> IsAsciiDigit(ds[i])
    ensures ParseInt10(ds) == Some(DigitsValue(ds) as int)
  {
    DigitRunAll(ds);
    assert ds[..|ds|] == ds;
    assert !IsJsSpace(ds[0]) && ds[0] != '-' && ds[0] != '+';
    assert TrimStart(ds, IsJsSpace) == ds;
  }

  /** `-` and a run of digits is read as the negated value. */
  lemma ParseNegativeDigits(ds: string)
    requires |ds| >= 1 && forall i :: 0 <= i < |ds| ==> IsAsciiDigit(ds[i])
    ensures ParseInt10("-" + ds) == Some(-(DigitsValue(ds) as int))
  {
    var s := "-" + ds;
    DigitRunAll(ds);
    assert ds[..|ds|] == ds;
    assert !IsJsSpace(s[0]);
    assert TrimStart(s, IsJsSpace) == s;
    assert s[1..] == ds;
  }
}
