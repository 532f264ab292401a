/** The bundler's JavaScript minifier (`Minifier::minify_internal` and
    `Minifier::minify_js`, jenpack/src/minifier.rs): block comments are
    drained from the text in place, every line is cut at its first `//`,
    white space is collapsed and then removed around operators and before
    `(`, and the result is trimmed. */
module Minifier {
  import opened Wrappers
  import opened Text

  // ---------------------------------------------------------------------
  // Two-character searches

  /** The characters `a` and `b` stand side by side at `j`. */
  predicate PairAt(s: string, j: int, a: char, b: char) {
    0 <= j && j + 1 < |s| && s[j] == a && s[j + 1] == b
  }

  /** `find` of the two-character pattern `ab` in `s[from..]`, as an index
      into `s`: the first pair at or after `from`, or `None`. */
  function FindPair(s: string, a: char, b: char, from: nat): (r: Option<nat>)
    ensures r.Some? ==> from <= r.value && PairAt(s, r.value, a, b)
    ensures r.Some? ==> forall j :: from <= j < r.value ==> !PairAt(s, j, a, b)
    ensures r.None? ==> forall j :: from <= j ==> !PairAt(s, j, a, b)
    decreases |s| - from
  {
    if from + 1 >= |s| then None
    else if PairAt(s, from, a, b) then Some(from)
    else FindPair(s, a, b, from + 1)
  }

  /** No `ab` pair anywhere in `t`. */
  predicate NoPair(t: string, a: char, b: char) {
    forall j :: 0 <= j < |t| ==> !PairAt(t, j, a, b)
  }

  /** A pair inside a slice is a pair of the whole text. */
  lemma SlicePair(s: string, i: nat, k: nat, a: char, b: char)
    requires i <= k <= |s|
    requires forall j :: i <= j < k - 1 ==> !PairAt(s, j, a, b)
    ensures NoPair(s[i..k], a, b)
  {
    forall j | PairAt(s[i..k], j, a, b) ensures false {
      assert PairAt(s, i + j, a, b);
    }
  }

  // ---------------------------------------------------------------------
  // Block comments

  // No complete block comment is left: either there is no `/*`, or the
  // first one has no `*/` at or after it.
  predicate NoClosedBlock(r: string) {
    match FindPair(r, '/', '*', 0)
    case None => true
    case Some(st) => FindPair(r, '*', '/', st).None?
  }

  // The text after the block-comment loop: while there is a `/*`, the
  // first `*/` searched from that `/*` itself ends the comment, and the
  // loop stops at a `/*` with no `*/` after it.
  function BlockStripped(s: string): (r: string)
    ensures NoClosedBlock(r)
    ensures r == s || |r| < |s|
    ensures FindPair(s, '/', '*', 0).None? ==> r == s
    decreases |s|
  {
    match FindPair(s, '/', '*', 0)
    case None => s
    case Some(st) =>
      match FindPair(s, '*', '/', st)
      case None => s
      case Some(e) => BlockStripped(s[..st] + s[e + 2..])
  }

  // An unterminated first `/*` stops the loop and leaves the text as it
  // is, and indeed no `*/` follows it anywhere.
  lemma UnterminatedKept(s: string, st: nat)
    requires FindPair(s, '/', '*', 0) == Some(st) && FindPair(s, '*', '/', st).None?
    ensures BlockStripped(s) == s
    ensures forall j :: st <= j ==> !PairAt(s, j, '*', '/')
  {
  }

  // One round of the loop removes the leftmost `/*` through the first
  // `*/` at or after it, keeping what is before and after in order.
  lemma FirstBlockRemoved(s: string, st: nat, e: nat)
    requires FindPair(s, '/', '*', 0) == Some(st) && FindPair(s, '*', '/', st) == Some(e)
    ensures st <= e && e + 2 <= |s| && PairAt(s, st, '/', '*') && PairAt(s, e, '*', '/')
    ensures forall j :: 0 <= j < st ==> !PairAt(s, j, '/', '*')
    ensures BlockStripped(s) == BlockStripped(s[..st] + s[e + 2..])
  {
  }

  // The loop of `minify_internal`, with `drain` removing the comment from
  // `result` in place.
  method StripBlockComments(code: string) returns (result: string)
    ensures result == BlockStripped(code)
  {
    result := code;
    while true
      invariant BlockStripped(result) == BlockStripped(code)
      decreases |result|
    {
      var start := FindPair(result, '/', '*', 0);
      if start.None? {
        break;
      }
      var end := FindPair(result, '*', '/', start.value);
      if end.None? {
        break;
      }
      result := result[..start.value] + result[end.value + 2..];
    }
  }

  // A worked case of the end search starting at the `/*` itself: in
  // `a/*/b*/c` the `*/` that ends the comment is the one overlapping its
  // opening, so only `/*/` is removed and `b*/c` survives.
  lemma OverlappingCloseAsWritten()
    ensures BlockStripped("a/*/b*/c") == "ab*/c"
  {
    var s := "a/*/b*/c";
    assert FindPair(s, '/', '*', 0) == Some(1);
    assert FindPair(s, '*', '/', 1) == Some(2);
    var u := s[..1] + s[4..];
    assert u == "ab*/c";
    assert FindPair(u, '/', '*', 0).None?;
  }

  // The comment as JavaScript reads it: its closing `*/` is searched
  // from just after the opening `/*`, so the two never share a `*`.
  function ClosedStripped(s: string): (r: string)
    ensures r == s || |r| < |s|
    ensures FindPair(s, '/', '*', 0).None? ==> r == s
    decreases |s|
  {
    match FindPair(s, '/', '*', 0)
    case None => s
    case Some(st) =>
      match FindPair(s, '*', '/', st + 2)
      case None => s
      case Some(e) => ClosedStripped(s[..st] + s[e + 2..])
  }

  // Every comment the corrected loop removes is a whole one: `/*`, a body
  // with no `*/` in it, and `*/`, at least four characters in all.
  lemma ClosedRemovesWholeComment(s: string, st: nat, e: nat)
    requires FindPair(s, '/', '*', 0) == Some(st) && FindPair(s, '*', '/', st + 2) == Some(e)
    ensures st + 2 <= e && e + 2 <= |s|
    ensures s[st..e + 2] == "/*" + s[st + 2..e] + "*/"
    ensures NoPair(s[st + 2..e], '*', '/')
    ensures ClosedStripped(s) == ClosedStripped(s[..st] + s[e + 2..])
  {
    CommentSpan(s, st, e);
    SlicePair(s, st + 2, e, '*', '/');
  }

  lemma CommentSpan(s: string, st: nat, e: nat)
    requires st + 2 <= e && e + 2 <= |s| && PairAt(s, st, '/', '*') && PairAt(s, e, '*', '/')
    ensures s[st..e + 2] == "/*" + s[st + 2..e] + "*/"
  {
    assert s[st..e + 2] == s[st..st + 2] + s[st + 2..e] + s[e..e + 2];
  }

  // The corrected loop removes the whole of `/*/b*/`.
  lemma OverlappingCloseCorrected()
    ensures ClosedStripped("a/*/b*/c") == "ac"
  {
    var s := "a/*/b*/c";
    assert FindPair(s, '/', '*', 0) == Some(1);
    assert FindPair(s, '*', '/', 3) == Some(5);
    var u := s[..1] + s[7..];
    assert u == "ac";
    assert FindPair(u, '/', '*', 0).None?;
  }

  // ---------------------------------------------------------------------
  // Line comments

  /** Rust's `str::lines`: the pieces between `\n`s, each without a `\r`
      just before its `\n`, and no empty last piece after a final `\n`. */
  function RustLines(s: string): (ls: seq<string>)
    ensures forall i :: 0 <= i < |ls| ==> '\n' !in ls[i]
    ensures |ls| == 0 <==> |s| == 0
    decreases |s|
  {
    if |s| == 0 then []
    else
      var k := FirstIndexOf(s, '\n');
      if k == |s| then [s]
      else [DropCr(s[..k])] + RustLines(s[k + 1..])
  }

  function DropCr(line: string): (r: string)
    ensures r == line || r + "\r" == line
  {
    if |line| > 0 && line[|line| - 1] == '\r' then line[..|line| - 1] else line
  }

  /** A line cut at its first `//`: a prefix with no `//` in it that is
      either the whole line or stops right at a `//`, which makes it the
      longest such prefix. */
  function CutLineComment(line: string): (r: string)
    ensures |r| <= |line| && r == line[..|r|]
    ensures NoPair(r, '/', '/')
    ensures r == line || PairAt(line, |r|, '/', '/')
  {
    match FindPair(line, '/', '/', 0)
    case None => line
    case Some(k) =>
      SlicePair(line, 0, k, '/', '/');
      assert line[..k] == line[0..k];
      line[..k]
  }

  function CutAll(ls: seq<string>): (r: seq<string>)
    ensures |r| == |ls|
    ensures forall i :: 0 <= i < |ls| ==> r[i] == CutLineComment(ls[i])
  {
    seq(|ls|, i requires 0 <= i < |ls| => CutLineComment(ls[i]))
  }

  /** The line-comment pass: `lines`, each cut at its `//`, joined by `\n`. */
  function LinePass(s: string): string {
    Join(CutAll(RustLines(s)), "\n")
  }

  lemma {:induction false} JoinKeepsNoSlashes(parts: seq<string>)
    requires forall i :: 0 <= i < |parts| ==> NoPair(parts[i], '/', '/')
    ensures NoPair(Join(parts, "\n"), '/', '/')
  {
    if |parts| > 1 {
      var rest := Join(parts[1..], "\n");
      JoinKeepsNoSlashes(parts[1..]);
      var p := parts[0];
      var joined := p + "\n" + rest;
      forall j | PairAt(joined, j, '/', '/') ensures false {
        if j + 1 < |p| {
          assert PairAt(p, j, '/', '/');
        } else if j > |p| {
          assert PairAt(rest, j - |p| - 1, '/', '/');
        }
      }
    }
  }

  /** After the line pass no `//` is left anywhere. */
  lemma LinePassNoSlashes(s: string)
    ensures NoPair(LinePass(s), '/', '/')
  {
    JoinKeepsNoSlashes(CutAll(RustLines(s)));
  }

  /** A line containing `//` loses at least that `//`, and the trailing `\n`
      is dropped, so the line pass never lengthens the text and shortens
      any text with a `//` in it. */
  lemma {:induction false} LinePassLength(s: string)
    ensures |LinePass(s)| <= |s|
    ensures !NoPair(s, '/', '/') ==> |LinePass(s)| < |s|
    decreases |s|
  {
    if |s| > 0 {
      var k := FirstIndexOf(s, '\n');
      if k == |s| {
        LinePassLast(s);
      } else {
        var line := DropCr(s[..k]);
        var rest := s[k + 1..];
        LinePassStep(s);
        if !NoPair(s, '/', '/') {
          LinePairSplits(s, k);
        }
        if |rest| > 0 {
          LinePassLength(rest);
        }
      }
    }
  }

  /** A text without `\n` is one line, cut at its first `//`. */
  lemma LinePassLast(s: string)
    requires |s| > 0 && FirstIndexOf(s, '\n') == |s|
    ensures LinePass(s) == CutLineComment(s)
  {
    assert RustLines(s) == [s];
  }

  /** The first line is cut, then `\n` and the pass over the rest follow
      when there is a rest. */
  lemma LinePassStep(s: string)
    requires FirstIndexOf(s, '\n') < |s|
    ensures var k := FirstIndexOf(s, '\n'); var x := CutLineComment(DropCr(s[..k])); var rest := s[k + 1..];
      LinePass(s) == if |rest| == 0 then x else x + "\n" + LinePass(rest)
  {
    var k := FirstIndexOf(s, '\n');
    var line, rest := DropCr(s[..k]), s[k + 1..];
    var x, cs := CutLineComment(line), CutAll(RustLines(rest));
    assert RustLines(s) == [line] + RustLines(rest);
    CutAllCons(line, RustLines(rest));
    assert LinePass(s) == Join([x] + cs, "\n");
    if |rest| > 0 {
      assert |cs| > 0;
      JoinCons(x, cs, "\n");
    } else {
      assert [x] + cs == [x];
    }
  }

  lemma CutAllCons(l: string, ls: seq<string>)
    ensures CutAll([l] + ls) == [CutLineComment(l)] + CutAll(ls)
  {
  }

  /** A `//` in the text lies in the first line or in the rest: it cannot
      straddle the `\n`, and dropping a `\r` before it keeps it. */
  lemma LinePairSplits(s: string, k: nat)
    requires k == FirstIndexOf(s, '\n') && k < |s| && !NoPair(s, '/', '/')
    ensures !NoPair(DropCr(s[..k]), '/', '/') || !NoPair(s[k + 1..], '/', '/')
  {
    var line := DropCr(s[..k]);
    var rest := s[k + 1..];
    var j :| 0 <= j < |s| && PairAt(s, j, '/', '/');
    assert s[k] == '\n';
    if j + 1 < k {
      var p := s[..k];
      assert p[j] == '/' && p[j + 1] == '/';
      if line != p {
        assert line == p[..k - 1] && j + 1 < k - 1;
        assert line[j] == p[j] && line[j + 1] == p[j + 1];
      }
      assert PairAt(line, j, '/', '/');
    } else if k < j {
      assert rest[j - k - 1] == s[j] && rest[j - k] == s[j + 1];
      assert PairAt(rest, j - k - 1, '/', '/');
    }
  }

  // ---------------------------------------------------------------------
  // White space

  /** The length of the white-space run at the start of `s`. */
  function WhiteRun(s: string): (k: nat)
    ensures k <= |s|
    ensures forall i :: 0 <= i < k ==> IsRustSpace(s[i])
    ensures k < |s| ==> !IsRustSpace(s[k])
    decreases |s|
  {
    if |s| > 0 && IsRustSpace(s[0]) then 1 + WhiteRun(s[1..]) else 0
  }

  /** The characters of `s` that are not white space, in order: what the
      white-space passes must keep. */
  function Visible(s: string): (r: string)
    ensures |r| <= |s|
    ensures forall i :: 0 <= i < |r| ==> !IsRustSpace(r[i])
    decreases |s|
  {
    if |s| == 0 then ""
    else if IsRustSpace(s[0]) then Visible(s[1..])
    else [s[0]] + Visible(s[1..])
  }

  lemma {:induction false} VisibleAppend(a: string, b: string)
    ensures Visible(a + b) == Visible(a) + Visible(b)
    decreases |a|
  {
    if |a| > 0 {
      assert (a + b)[1..] == a[1..] + b;
      VisibleAppend(a[1..], b);
    } else {
      assert a + b == b;
    }
  }

  lemma {:induction false} VisibleOfWhite(w: string)
    requires forall i :: 0 <= i < |w| ==> IsRustSpace(w[i])
    ensures Visible(w) == ""
    decreases |w|
  {
    if |w| > 0 {
      VisibleOfWhite(w[1..]);
    }
  }

  /** Dropping a white run keeps the visible characters. */
  lemma VisibleAfterRun(s: string)
    ensures Visible(s) == Visible(s[WhiteRun(s)..])
  {
    var k := WhiteRun(s);
    assert s == s[..k] + s[k..];
    VisibleAppend(s[..k], s[k..]);
    VisibleOfWhite(s[..k]);
  }

  /** Every white character is a plain space and no two are adjacent. */
  predicate Collapsed(r: string) {
    (forall i :: 0 <= i < |r| && IsRustSpace(r[i]) ==> r[i] == ' ')
    && forall i :: 0 <= i < |r| - 1 ==> !(IsRustSpace(r[i]) && IsRustSpace(r[i + 1]))
  }

  /** `\s+` replaced by one space. */
  function Collapse(s: string): (r: string)
    ensures |r| <= |s|
    ensures Collapsed(r)
    ensures |r| > 0 <==> |s| > 0
    ensures |r| > 0 ==> (IsRustSpace(r[0]) <==> IsRustSpace(s[0]))
    decreases |s|
  {
    if |s| == 0 then ""
    else if IsRustSpace(s[0]) then
      " " + Collapse(s[WhiteRun(s)..])
    else
      [s[0]] + Collapse(s[1..])
  }

  lemma {:induction false} CollapseVisible(s: string)
    ensures Visible(Collapse(s)) == Visible(s)
    decreases |s|
  {
    if |s| > 0 {
      var r := Collapse(s);
      VisibleAppend([r[0]], r[1..]);
      assert r == [r[0]] + r[1..];
      if IsRustSpace(s[0]) {
        CollapseVisible(s[WhiteRun(s)..]);
        VisibleAfterRun(s);
      } else {
        CollapseVisible(s[1..]);
      }
    }
  }

  // The operator class `[{};,=+\-*/:]`.
  predicate IsOperator(c: char) {
    c == '{' || c == '}' || c == ';' || c == ',' || c == '=' || c == '+'
    || c == '-' || c == '*' || c == '/' || c == ':'
  }

  /** No white space next to an operator, on either side. */
  predicate Tight(r: string) {
    forall i :: 0 <= i < |r| - 1 ==>
      !(IsOperator(r[i]) && IsRustSpace(r[i + 1])) && !(IsRustSpace(r[i]) && IsOperator(r[i + 1]))
  }

  lemma TightCons(c: char, t: string)
    requires Tight(t)
    requires |t| > 0 ==> !(IsOperator(c) && IsRustSpace(t[0])) && !(IsRustSpace(c) && IsOperator(t[0]))
    ensures Tight([c] + t)
  {
    var r := [c] + t;
    forall i | 1 <= i < |r| - 1 ensures r[i] == t[i - 1] && r[i + 1] == t[i] {
    }
  }

  lemma TightRun(w: string, t: string)
    requires forall i :: 0 <= i < |w| ==> IsRustSpace(w[i])
    requires Tight(t) && (|t| > 0 ==> !IsOperator(t[0]))
    ensures Tight(w + t)
  {
    var r := w + t;
    forall i | 0 <= i < |r| - 1
      ensures !(IsOperator(r[i]) && IsRustSpace(r[i + 1])) && !(IsRustSpace(r[i]) && IsOperator(r[i + 1]))
    {
      if i >= |w| {
        assert r[i] == t[i - |w|] && r[i + 1] == t[i - |w| + 1];
      }
    }
  }

  // `\s*([{};,=+\-*/:])\s*` replaced by the operator alone: a white run
  // goes when an operator stands right before it (`afterOp`) or right
  // after it, and stays otherwise.
  function Tighten(s: string, afterOp: bool): (r: string)
    ensures |r| <= |s|
    ensures forall c :: c in r ==> c in s
    ensures |s| > 0 && !IsRustSpace(s[0]) ==> |r| > 0 && r[0] == s[0]
    ensures afterOp && |r| > 0 ==> !IsRustSpace(r[0])
    ensures Tight(r)
    decreases |s|
  {
    if |s| == 0 then ""
    else if IsRustSpace(s[0]) then
      var k := WhiteRun(s);
      var rest := Tighten(s[k..], false);
      if afterOp || (k < |s| && IsOperator(s[k])) then rest
      else
        TightRun(s[..k], rest);
        s[..k] + rest
    else
      var rest := Tighten(s[1..], IsOperator(s[0]));
      TightCons(s[0], rest);
      [s[0]] + rest
  }

  lemma {:induction false} TightenVisible(s: string, afterOp: bool)
    ensures Visible(Tighten(s, afterOp)) == Visible(s)
    decreases |s|
  {
    if |s| > 0 {
      if IsRustSpace(s[0]) {
        var k := WhiteRun(s);
        TightenVisible(s[k..], false);
        VisibleAfterRun(s);
        VisibleAppend(s[..k], Tighten(s[k..], false));
        VisibleOfWhite(s[..k]);
      } else {
        TightenVisible(s[1..], IsOperator(s[0]));
        VisibleAppend([s[0]], Tighten(s[1..], IsOperator(s[0])));
      }
    }
  }

  /** No white space right before a `(`. */
  predicate NoSpaceBeforeParen(r: string) {
    forall i :: 0 <= i < |r| - 1 ==> !(IsRustSpace(r[i]) && r[i + 1] == '(')
  }

  /** `\s+\(` replaced by `(`: a white run goes exactly when a `(` follows
      it. */
  function Unparen(s: string): (r: string)
    ensures |r| <= |s|
    ensures forall c :: c in r ==> c in s
    ensures |s| > 0 && !IsRustSpace(s[0]) ==> |r| > 0 && r[0] == s[0]
    ensures NoSpaceBeforeParen(r)
    ensures |s| > 0 && IsRustSpace(s[0]) && |r| > 0 ==> IsRustSpace(r[0]) || r[0] == '('
    decreases |s|
  {
    if |s| == 0 then ""
    else if IsRustSpace(s[0]) then
      var k := WhiteRun(s);
      var rest := Unparen(s[k..]);
      if k < |s| && s[k] == '(' then rest
      else
        assert forall i :: |s[..k]| <= i < |s[..k] + rest| ==> (s[..k] + rest)[i] == rest[i - k];
        s[..k] + rest
    else
      var rest := Unparen(s[1..]);
      assert forall i :: 1 <= i < |[s[0]] + rest| ==> ([s[0]] + rest)[i] == rest[i - 1];
      [s[0]] + rest
  }

  lemma {:induction false} UnparenVisible(s: string)
    ensures Visible(Unparen(s)) == Visible(s)
    decreases |s|
  {
    if |s| > 0 {
      if IsRustSpace(s[0]) {
        var k := WhiteRun(s);
        UnparenVisible(s[k..]);
        VisibleAfterRun(s);
        VisibleAppend(s[..k], Unparen(s[k..]));
        VisibleOfWhite(s[..k]);
      } else {
        UnparenVisible(s[1..]);
        VisibleAppend([s[0]], Unparen(s[1..]));
      }
    }
  }

  /** Removing the white space before a `(` puts no white space next to
      an operator. */
  lemma {:induction false} UnparenTight(s: string)
    requires Tight(s)
    ensures Tight(Unparen(s))
    decreases |s|
  {
    if |s| > 0 {
      if IsRustSpace(s[0]) {
        var k := WhiteRun(s);
        TightSuffix(s, k);
        UnparenTight(s[k..]);
        var rest := Unparen(s[k..]);
        if !(k < |s| && s[k] == '(') {
          if k < |s| {
            assert s[k - 1] == s[..k][k - 1];
            assert !IsOperator(s[k]);
          }
          TightRun(s[..k], rest);
        }
      } else {
        TightSuffix(s, 1);
        UnparenTight(s[1..]);
        var rest := Unparen(s[1..]);
        if |rest| > 0 {
          assert |s| > 1;
          if !IsRustSpace(s[1]) {
            assert rest[0] == s[1];
          }
        }
        TightCons(s[0], rest);
      }
    }
  }

  lemma TightSuffix(s: string, k: nat)
    requires Tight(s) && k <= |s|
    ensures Tight(s[k..])
  {
    assert forall i :: 0 <= i < |s| - k ==> s[k..][i] == s[k + i];
  }

  /** Trimming keeps a text free of white space next to operators. */
  lemma TrimTight(u: string)
    requires Tight(u)
    ensures Tight(RustTrim(u))
  {
    var a := TrimStart(u, IsRustSpace);
    assert a == u[|u| - |a|..];
    TightSuffix(u, |u| - |a|);
    var r := RustTrim(u);
    assert r == a[..|r|];
    TightPrefix(a, |r|);
  }

  lemma TightPrefix(s: string, k: nat)
    requires Tight(s) && k <= |s|
    ensures Tight(s[..k])
  {
    assert forall i :: 0 <= i < k ==> s[..k][i] == s[i];
  }

  /** Trimming removes white space only. */
  lemma TrimStartVisible(u: string)
    ensures Visible(TrimStart(u, IsRustSpace)) == Visible(u)
  {
    var a := TrimStart(u, IsRustSpace);
    var n := |u| - |a|;
    assert u == u[..n] + a;
    VisibleAppend(u[..n], a);
    VisibleOfWhite(u[..n]);
  }

  lemma TrimEndVisible(a: string)
    ensures Visible(TrimEnd(a, IsRustSpace)) == Visible(a)
  {
    var b := TrimEnd(a, IsRustSpace);
    assert a == b + a[|b|..];
    VisibleAppend(b, a[|b|..]);
    VisibleOfWhite(a[|b|..]);
  }

  /** The only white space is plain spaces. */
  predicate SpacesOnly(u: string) {
    forall i :: 0 <= i < |u| && IsRustSpace(u[i]) ==> u[i] == ' '
  }

  /** Plain single spaces and no space before `(` survive trimming, and
      the trimmed text has no white space at either end. */
  lemma TrimShape(u: string)
    requires SpacesOnly(u) && NoSpaceBeforeParen(u)
    ensures var r := RustTrim(u);
      && (|r| > 0 ==> !IsRustSpace(r[0]) && !IsRustSpace(r[|r| - 1]))
      && SpacesOnly(r) && NoSpaceBeforeParen(r)
  {
    TrimStartShape(u);
    TrimEndShape(TrimStart(u, IsRustSpace));
  }

  lemma TrimStartShape(u: string)
    requires SpacesOnly(u) && NoSpaceBeforeParen(u)
    ensures var a := TrimStart(u, IsRustSpace); SpacesOnly(a) && NoSpaceBeforeParen(a)
  {
    var a := TrimStart(u, IsRustSpace);
    var n := |u| - |a|;
    assert forall i :: 0 <= i < |a| ==> a[i] == u[n + i];
  }

  lemma TrimEndShape(a: string)
    requires SpacesOnly(a) && NoSpaceBeforeParen(a)
    ensures var r := TrimEnd(a, IsRustSpace);
      && SpacesOnly(r) && NoSpaceBeforeParen(r)
      && (|r| > 0 ==> r[0] == a[0] && !IsRustSpace(r[|r| - 1]))
  {
    var r := TrimEnd(a, IsRustSpace);
    assert forall i :: 0 <= i < |r| ==> r[i] == a[i];
  }

  // ---------------------------------------------------------------------
  // The whole minifier

  /** What `minify_internal` returns for `code`. */
  function Minified(code: string): string {
    RustTrim(Unparen(Tighten(Collapse(LinePass(BlockStripped(code))), false)))
  }

  /** `minify_internal`: the block-comment loop on `result`, then the line
      and white-space passes and `trim`. */
  method MinifyInternal(code: string) returns (result: string)
    ensures result == Minified(code)
  {
    result := StripBlockComments(code);
    result := LinePass(result);
    result := Collapse(result);
    result := Tighten(result, false);
    result := Unparen(result);
    result := RustTrim(result);
  }

  /** `minify_js`: never an error, and exactly `minify_internal`. */
  method MinifyJs(code: string) returns (r: Result<string>)
    ensures r == Ok(Minified(code))
  {
    var minified := MinifyInternal(code);
    r := Ok(minified);
  }

  /** The output is trimmed, its only white space is single plain spaces,
      no space stands before a `(`, and none next to an operator. */
  lemma MinifiedShape(code: string)
    ensures var r := Minified(code);
      && (|r| > 0 ==> !IsRustSpace(r[0]) && !IsRustSpace(r[|r| - 1]))
      && SpacesOnly(r) && NoSpaceBeforeParen(r) && Tight(r)
  {
    var c := Collapse(LinePass(BlockStripped(code)));
    var u := Unparen(Tighten(c, false));
    OnlySpaces(c);
    TrimShape(u);
    UnparenTight(Tighten(c, false));
    TrimTight(u);
  }

  lemma OnlySpaces(c: string)
    requires Collapsed(c)
    ensures SpacesOnly(Unparen(Tighten(c, false)))
  {
    var t := Tighten(c, false);
    var u := Unparen(t);
    forall i | 0 <= i < |u| && IsRustSpace(u[i]) ensures u[i] == ' ' {
      assert u[i] in u;
      assert u[i] in t;
      assert u[i] in c;
    }
  }

  /** The white-space passes and `trim` keep every other character, in
      order: only comments are ever removed. */
  lemma MinifiedVisible(code: string)
    ensures Visible(Minified(code)) == Visible(LinePass(BlockStripped(code)))
  {
    var l := LinePass(BlockStripped(code));
    CollapseVisible(l);
    TightenVisible(Collapse(l), false);
    UnparenVisible(Tighten(Collapse(l), false));
    TrimStartVisible(Unparen(Tighten(Collapse(l), false)));
    TrimEndVisible(TrimStart(Unparen(Tighten(Collapse(l), false)), IsRustSpace));
  }

  /** Minifying never lengthens the code, and code with a `//` in it comes
      out strictly shorter. */
  lemma MinifiedLength(code: string)
    ensures |Minified(code)| <= |code|
    ensures !NoPair(code, '/', '/') ==> |Minified(code)| < |code|
  {
    var b := BlockStripped(code);
    LinePassLength(b);
    var u := Unparen(Tighten(Collapse(LinePass(b)), false));
    assert |TrimStart(u, IsRustSpace)| <= |u|;
  }

  /** The line pass leaves no `//`, but the later passes can make one: a
      line ending in `/` followed by a line starting with `/` comes out
      joined. */
  lemma SlashesRejoined()
    ensures Minified("a/\n/b") == "a//b"
  {
    var s := "a/\n/b";
    assert FindPair(s, '/', '*', 0).None?;
    SampleLines();
    SampleSpaces();
  }

  lemma SampleLines()
    ensures LinePass("a/\n/b") == "a/\n/b"
  {
    var s := "a/\n/b";
    assert FirstIndexOf(s, '\n') == 2;
    assert s[..2] == "a/" && s[3..] == "/b";
    assert DropCr("a/") == "a/";
    assert FirstIndexOf("/b", '\n') == 2;
    assert RustLines("/b") == ["/b"];
    assert RustLines(s) == ["a/", "/b"];
    assert FindPair("a/", '/', '/', 0).None?;
    assert FindPair("/b", '/', '/', 0).None?;
    assert CutAll(RustLines(s)) == ["a/", "/b"];
  }

  lemma SampleSpaces()
    ensures RustTrim(Unparen(Tighten(Collapse("a/\n/b"), false))) == "a//b"
  {
    SampleCollapse();
    SampleTighten();
    SampleRest();
  }

  lemma SampleCollapse()
    ensures Collapse("a/\n/b") == "a/ /b"
  {
    CollapseVisibleHead('b', "");
    assert "b" == ['b'] + "";
    CollapseVisibleHead('/', "b");
    assert "/b" == ['/'] + "b";
    var w := "\n/b";
    assert WhiteRun(w) == 1 && w[1..] == "/b";
    assert Collapse(w) == " /b";
    CollapseVisibleHead('/', w);
    CollapseVisibleHead('a', ['/'] + w);
    assert "a/\n/b" == ['a'] + (['/'] + w);
  }

  /** A visible first character is kept as it is. */
  lemma CollapseVisibleHead(c: char, rest: string)
    requires !IsRustSpace(c)
    ensures Collapse([c] + rest) == [c] + Collapse(rest)
  {
    assert ([c] + rest)[1..] == rest;
  }

  lemma SampleTighten()
    ensures Tighten("a/ /b", false) == "a//b"
  {
    var c := "a/ /b";
    assert !IsRustSpace('a') && !IsRustSpace('/') && !IsRustSpace('b') && IsRustSpace(' ');
    assert !IsOperator('a') && IsOperator('/') && !IsOperator('b');
    assert c[1..] == "/ /b" && c[2..] == " /b";
    assert WhiteRun(" /b") == 1;
    assert " /b"[1..] == "/b";
    assert Tighten("/b", false) == "/b";
    assert Tighten(" /b", true) == "/b";
  }

  lemma SampleRest()
    ensures RustTrim(Unparen("a//b")) == "a//b"
  {
    var u := "a//b";
    assert !IsRustSpace('a') && !IsRustSpace('/') && !IsRustSpace('b');
    assert u[1..] == "//b" && u[2..] == "/b" && "/b"[1..] == "b";
    assert Unparen("b") == "b";
    assert Unparen("/b") == "/b";
    assert Unparen("//b") == "//b";
    assert Unparen(u) == u;
    assert TrimStart(u, IsRustSpace) == u;
    assert TrimEnd(u, IsRustSpace) == u;
  }

  // ---------------------------------------------------------------------
  // What the white-space passes keep

  /** A character that is neither white space nor one of the operators. */
  predicate WordChar(c: char) {
    !IsRustSpace(c) && !IsOperator(c)
  }

  predicate AllWhite(w: string) {
    forall i :: 0 <= i < |w| ==> IsRustSpace(w[i])
  }

  /** In a text ending with a visible character the leading white run
      stops inside it, whatever follows. */
  lemma {:induction false} WhiteRunAppend(a: string, b: string)
    requires |a| > 0 && !IsRustSpace(a[|a| - 1])
    ensures WhiteRun(a + b) == WhiteRun(a) < |a|
    decreases |a|
  {
    if IsRustSpace(a[0]) {
      assert (a + b)[1..] == a[1..] + b;
      WhiteRunAppend(a[1..], b);
    }
  }

  /** A white run followed by a visible character is all of the run. */
  lemma {:induction false} WhiteRunOfRun(w: string, y: string)
    requires AllWhite(w)
    requires |y| > 0 && !IsRustSpace(y[0])
    ensures WhiteRun(w + y) == |w|
    decreases |w|
  {
    if |w| > 0 {
      assert (w + y)[1..] == w[1..] + y;
      WhiteRunOfRun(w[1..], y);
    } else {
      assert w + y == y;
    }
  }

  /** Slicing a concatenation inside its first part. */
  lemma SliceOfAppend(a: string, b: string, k: nat)
    requires k < |a|
    ensures (a + b)[k..] == a[k..] + b
    ensures (a + b)[..k] == a[..k]
    ensures (a + b)[k] == a[k]
    ensures a[k..][|a[k..]| - 1] == a[|a| - 1]
  {
  }

  /** One step of `Collapse` over a leading white run. */
  lemma CollapseWhiteStep(s: string)
    requires |s| > 0 && IsRustSpace(s[0])
    ensures Collapse(s) == " " + Collapse(s[WhiteRun(s)..])
  {
  }

  /** One step of `Collapse` over a visible character. */
  lemma CollapseWordStep(s: string)
    requires |s| > 0 && !IsRustSpace(s[0])
    ensures Collapse(s) == [s[0]] + Collapse(s[1..])
  {
  }

  /** Concatenation regroups. */
  lemma Regroup(u: string, v: string, w: string)
    ensures u + (v + w) == (u + v) + w
  {
  }

  /** Collapsing works piece by piece after a visible character. */
  lemma {:induction false} CollapseAppend(a: string, b: string)
    requires |a| > 0 && !IsRustSpace(a[|a| - 1])
    ensures Collapse(a + b) == Collapse(a) + Collapse(b)
    decreases |a|
  {
    if IsRustSpace(a[0]) {
      WhiteRunAppend(a, b);
      var k := WhiteRun(a);
      SliceOfAppend(a, b, k);
      CollapseAppend(a[k..], b);
      CollapseWhiteStep(a + b);
      CollapseWhiteStep(a);
      Regroup(" ", Collapse(a[k..]), Collapse(b));
    } else if |a| == 1 {
      CollapseWordStep(a + b);
      assert (a + b)[1..] == b;
      CollapseWordStep(a);
      assert a[1..] == "";
    } else {
      SliceOfAppend(a, b, 1);
      CollapseAppend(a[1..], b);
      CollapseWordStep(a + b);
      CollapseWordStep(a);
      Regroup([a[0]], Collapse(a[1..]), Collapse(b));
    }
  }

  /** A white run before a visible character becomes one space. */
  lemma CollapseRun(w: string, y: string)
    requires |w| > 0 && AllWhite(w)
    requires |y| > 0 && !IsRustSpace(y[0])
    ensures Collapse(w + y) == " " + Collapse(y)
  {
    WhiteRunOfRun(w, y);
    assert (w + y)[|w|..] == y;
    assert (w + y)[0] == w[0];
  }

  /** A white run between two visible characters becomes exactly one
      space, and the text on either side is collapsed on its own. */
  lemma CollapseSplit(x: string, w: string, y: string)
    requires |x| > 0 && !IsRustSpace(x[|x| - 1])
    requires |w| > 0 && AllWhite(w)
    requires |y| > 0 && !IsRustSpace(y[0])
    ensures Collapse(x + (w + y)) == Collapse(x) + (" " + Collapse(y))
  {
    CollapseAppend(x, w + y);
    CollapseRun(w, y);
  }

  /** Collapsing keeps a visible first or last character in its place. */
  lemma CollapseEnds(s: string)
    requires |s| > 0
    ensures !IsRustSpace(s[0]) ==> |Collapse(s)| > 0 && Collapse(s)[0] == s[0]
    ensures !IsRustSpace(s[|s| - 1]) ==> |Collapse(s)| > 0 && Collapse(s)[|Collapse(s)| - 1] == s[|s| - 1]
  {
    if !IsRustSpace(s[0]) {
      CollapseWordStep(s);
    }
    if !IsRustSpace(s[|s| - 1]) {
      CollapseLast(s);
    }
  }

  lemma {:induction false} CollapseLast(s: string)
    requires |s| > 0 && !IsRustSpace(s[|s| - 1])
    ensures |Collapse(s)| > 0 && Collapse(s)[|Collapse(s)| - 1] == s[|s| - 1]
    decreases |s|
  {
    if IsRustSpace(s[0]) {
      var k := WhiteRun(s);
      assert k < |s|;
      CollapseLast(s[k..]);
      CollapseWhiteStep(s);
    } else if |s| == 1 {
      CollapseWordStep(s);
      assert s[1..] == "";
    } else {
      CollapseLast(s[1..]);
      CollapseWordStep(s);
    }
  }

  /** One step of `Tighten` over a leading white run. */
  lemma TightenWhiteStep(s: string, afterOp: bool)
    requires |s| > 0 && IsRustSpace(s[0])
    ensures var k := WhiteRun(s);
      Tighten(s, afterOp) ==
        if afterOp || (k < |s| && IsOperator(s[k])) then Tighten(s[k..], false)
        else s[..k] + Tighten(s[k..], false)
  {
  }

  /** One step of `Tighten` over a visible character. */
  lemma TightenWordStep(s: string, afterOp: bool)
    requires |s| > 0 && !IsRustSpace(s[0])
    ensures Tighten(s, afterOp) == [s[0]] + Tighten(s[1..], IsOperator(s[0]))
  {
  }

  /** Removing the spaces around operators works piece by piece after a
      visible character, which tells the rest whether an operator stands
      before it. */
  lemma {:induction false} TightenAppend(a: string, b: string, afterOp: bool)
    requires |a| > 0 && !IsRustSpace(a[|a| - 1])
    ensures Tighten(a + b, afterOp) == Tighten(a, afterOp) + Tighten(b, IsOperator(a[|a| - 1]))
    decreases |a|
  {
    if IsRustSpace(a[0]) {
      WhiteRunAppend(a, b);
      var k := WhiteRun(a);
      SliceOfAppend(a, b, k);
      TightenAppend(a[k..], b, false);
      TightenWhiteStep(a + b, afterOp);
      TightenWhiteStep(a, afterOp);
      Regroup(a[..k], Tighten(a[k..], false), Tighten(b, IsOperator(a[|a| - 1])));
    } else if |a| == 1 {
      TightenWordStep(a + b, afterOp);
      assert (a + b)[1..] == b;
      TightenWordStep(a, afterOp);
      assert a[1..] == "";
    } else {
      SliceOfAppend(a, b, 1);
      TightenAppend(a[1..], b, IsOperator(a[0]));
      TightenWordStep(a + b, afterOp);
      TightenWordStep(a, afterOp);
      Regroup([a[0]], Tighten(a[1..], IsOperator(a[0])), Tighten(b, IsOperator(a[|a| - 1])));
    }
  }

  /** A white run with no operator before or after it stays as it is. */
  lemma TightenRun(w: string, y: string)
    requires |w| > 0 && AllWhite(w)
    requires |y| > 0 && WordChar(y[0])
    ensures Tighten(w + y, false) == w + Tighten(y, false)
  {
    WhiteRunOfRun(w, y);
    assert (w + y)[|w|..] == y;
    assert (w + y)[..|w|] == w;
    assert (w + y)[|w|] == y[0];
    assert (w + y)[0] == w[0];
  }

  /** A white run between two word characters survives the operator pass. */
  lemma TightenSplit(x: string, w: string, y: string, afterOp: bool)
    requires |x| > 0 && WordChar(x[|x| - 1])
    requires |w| > 0 && AllWhite(w)
    requires |y| > 0 && WordChar(y[0])
    ensures Tighten(x + (w + y), afterOp) == Tighten(x, afterOp) + (w + Tighten(y, false))
  {
    TightenAppend(x, w + y, afterOp);
    TightenRun(w, y);
  }

  /** The operator pass keeps a visible last character in its place. */
  lemma {:induction false} TightenEnds(s: string, afterOp: bool)
    requires |s| > 0 && !IsRustSpace(s[|s| - 1])
    ensures |Tighten(s, afterOp)| > 0 && Tighten(s, afterOp)[|Tighten(s, afterOp)| - 1] == s[|s| - 1]
    decreases |s|
  {
    if IsRustSpace(s[0]) {
      var k := WhiteRun(s);
      assert k < |s|;
      TightenEnds(s[k..], false);
      TightenWhiteStep(s, afterOp);
    } else if |s| == 1 {
      TightenWordStep(s, afterOp);
      assert s[1..] == "";
    } else {
      TightenEnds(s[1..], IsOperator(s[0]));
      TightenWordStep(s, afterOp);
    }
  }

  /** One step of `Unparen` over a leading white run. */
  lemma UnparenWhiteStep(s: string)
    requires |s| > 0 && IsRustSpace(s[0])
    ensures var k := WhiteRun(s);
      Unparen(s) == if k < |s| && s[k] == '(' then Unparen(s[k..]) else s[..k] + Unparen(s[k..])
  {
  }

  /** One step of `Unparen` over a visible character. */
  lemma UnparenWordStep(s: string)
    requires |s| > 0 && !IsRustSpace(s[0])
    ensures Unparen(s) == [s[0]] + Unparen(s[1..])
  {
  }

  /** Removing the spaces before `(` works piece by piece after a visible
      character. */
  lemma {:induction false} UnparenAppend(a: string, b: string)
    requires |a| > 0 && !IsRustSpace(a[|a| - 1])
    ensures Unparen(a + b) == Unparen(a) + Unparen(b)
    decreases |a|
  {
    if IsRustSpace(a[0]) {
      WhiteRunAppend(a, b);
      var k := WhiteRun(a);
      SliceOfAppend(a, b, k);
      UnparenAppend(a[k..], b);
      UnparenWhiteStep(a + b);
      UnparenWhiteStep(a);
      Regroup(a[..k], Unparen(a[k..]), Unparen(b));
    } else if |a| == 1 {
      UnparenWordStep(a + b);
      assert (a + b)[1..] == b;
      UnparenWordStep(a);
      assert a[1..] == "";
    } else {
      SliceOfAppend(a, b, 1);
      UnparenAppend(a[1..], b);
      UnparenWordStep(a + b);
      UnparenWordStep(a);
      Regroup([a[0]], Unparen(a[1..]), Unparen(b));
    }
  }

  /** A white run before a visible character other than `(` stays. */
  lemma UnparenRun(w: string, y: string)
    requires |w| > 0 && AllWhite(w)
    requires |y| > 0 && !IsRustSpace(y[0]) && y[0] != '('
    ensures Unparen(w + y) == w + Unparen(y)
  {
    WhiteRunOfRun(w, y);
    assert (w + y)[|w|..] == y;
    assert (w + y)[..|w|] == w;
    assert (w + y)[|w|] == y[0];
    assert (w + y)[0] == w[0];
  }

  /** A white run between two visible characters, the second not `(`,
      survives the paren pass. */
  lemma UnparenSplit(x: string, w: string, y: string)
    requires |x| > 0 && !IsRustSpace(x[|x| - 1])
    requires |w| > 0 && AllWhite(w)
    requires |y| > 0 && !IsRustSpace(y[0]) && y[0] != '('
    ensures Unparen(x + (w + y)) == Unparen(x) + (w + Unparen(y))
  {
    UnparenAppend(x, w + y);
    UnparenRun(w, y);
  }

  /** The paren pass keeps a visible last character in its place. */
  lemma {:induction false} UnparenEnds(s: string)
    requires |s| > 0 && !IsRustSpace(s[|s| - 1])
    ensures |Unparen(s)| > 0 && Unparen(s)[|Unparen(s)| - 1] == s[|s| - 1]
    decreases |s|
  {
    if IsRustSpace(s[0]) {
      var k := WhiteRun(s);
      assert k < |s|;
      UnparenEnds(s[k..]);
      UnparenWhiteStep(s);
    } else if |s| == 1 {
      UnparenWordStep(s);
      assert s[1..] == "";
    } else {
      UnparenEnds(s[1..]);
      UnparenWordStep(s);
    }
  }

  /** Trimming `p + " " + q` with visible characters around the space
      trims only the outer ends. */
  lemma TrimAroundSpace(u: string, v: string)
    requires |u| > 0 && !IsRustSpace(u[|u| - 1])
    requires |v| > 0 && !IsRustSpace(v[0])
    ensures RustTrim(u + (" " + v)) == TrimStart(u, IsRustSpace) + (" " + TrimEnd(v, IsRustSpace))
    ensures var p := TrimStart(u, IsRustSpace); |p| > 0 && p[|p| - 1] == u[|u| - 1]
    ensures var q := TrimEnd(v, IsRustSpace); |q| > 0 && q[0] == v[0]
  {
    var p := TrimStart(u, IsRustSpace);
    var q := TrimEnd(v, IsRustSpace);
    TrimStartAppend(u, " " + v, IsRustSpace);
    Regroup(p, " ", v);
    TrimEndPrepend(p + " ", v, IsRustSpace);
    Regroup(p, " ", q);
    TrimStartKeepsLast(u, IsRustSpace);
    TrimEndKeepsFirst(v, IsRustSpace);
  }

  /** A white run between two word characters, the second not `(`, comes
      out of the white-space passes and `trim` as exactly one plain space,
      with the visible characters on either side kept, in order. */
  lemma WhitePassesKeepSpace(x: string, w: string, y: string) returns (p: string, q: string)
    requires |x| > 0 && WordChar(x[|x| - 1])
    requires |w| > 0 && AllWhite(w)
    requires |y| > 0 && WordChar(y[0]) && y[0] != '('
    ensures RustTrim(Unparen(Tighten(Collapse(x + (w + y)), false))) == p + (" " + q)
    ensures |p| > 0 && p[|p| - 1] == x[|x| - 1] && Visible(p) == Visible(x)
    ensures |q| > 0 && q[0] == y[0] && Visible(q) == Visible(y)
  {
    CollapseSplit(x, w, y);
    var cx, cy := Collapse(x), Collapse(y);
    CollapseEnds(x);
    CollapseEnds(y);
    TightenSplit(cx, " ", cy, false);
    var tx, ty := Tighten(cx, false), Tighten(cy, false);
    TightenEnds(cx, false);
    UnparenSplit(tx, " ", ty);
    var ux, uy := Unparen(tx), Unparen(ty);
    UnparenEnds(tx);
    TrimAroundSpace(ux, uy);
    p, q := TrimStart(ux, IsRustSpace), TrimEnd(uy, IsRustSpace);
    CollapseVisible(x);
    TightenVisible(cx, false);
    UnparenVisible(tx);
    TrimStartVisible(ux);
    CollapseVisible(y);
    TightenVisible(cy, false);
    UnparenVisible(ty);
    TrimEndVisible(uy);
  }

  /** The same for the minifier: a white run left after comment removal
      between two word characters, the second not `(`, becomes exactly one
      space in the output. */
  lemma MinifiedKeepsSpace(code: string, x: string, w: string, y: string) returns (p: string, q: string)
    requires LinePass(BlockStripped(code)) == x + (w + y)
    requires |x| > 0 && WordChar(x[|x| - 1])
    requires |w| > 0 && AllWhite(w)
    requires |y| > 0 && WordChar(y[0]) && y[0] != '('
    ensures Minified(code) == p + (" " + q)
    ensures |p| > 0 && p[|p| - 1] == x[|x| - 1] && Visible(p) == Visible(x)
    ensures |q| > 0 && q[0] == y[0] && Visible(q) == Visible(y)
  {
    p, q := WhitePassesKeepSpace(x, w, y);
  }

  /** So `return x` is not run together into `returnx`. */
  lemma ReturnKeepsSpace()
    ensures ' ' in RustTrim(Unparen(Tighten(Collapse("return" + (" " + "x")), false)))
  {
    assert WordChar('n') && WordChar('x') && IsRustSpace(' ');
    var p, q := WhitePassesKeepSpace("return", " ", "x");
    assert (p + (" " + q))[|p|] == ' ';
  }
}
