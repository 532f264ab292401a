/** The licence-header tool (scripts/add-gpl-header.js): the header text in
    block or hash comments, and the directory walk that puts it in front of
    every source file that does not mention the licence yet. The file tree
    is a value; the walk returns the tree as it is after the writes. */
module GplHeader {
  import opened Wrappers
  import opened Text

  /** The settings at the top of the script: the project name and the
      author the header names. */
  datatype Config = Config(projectName: string, author: string)

  const Default := Config("Jen.js", "oopsio")

  /** The phrase whose presence marks a file as done. */
  const Phrase := "GNU General Public License"

  // The header text, cut at the three places where the phrase occurs.
  function Text1(cfg: Config): string {
    "This file is part of " + cfg.projectName + ".\n" + "Copyright (C) 2026 " + cfg.author + "\n\n"
    + "This program is free software: you can redistribute it and/or modify\n" + "it under the terms of the "
  }
  const Text2 := " as published by\n" + "the Free Software Foundation, either version 3 of the License, or\n"
    + "(at your option) any later version.\n\n"
    + "This program is distributed in the hope that it will be useful,\n"
    + "but WITHOUT ANY WARRANTY; without even the implied warranty of\n"
    + "MERCHANTABILITY or FITNESS FOR A PARTICULAR PURPOSE. See the\n"
  const Text3 := " for more details.\n\n" + "You should have received a copy of the "
  const Text4 := "\n" + "along with this program. If not, see <https://www.gnu.org/licenses/>."

  /** What follows the first mention of the phrase. */
  const Rest := Text2 + Phrase + Text3 + Phrase + Text4

  /** The text of the header, before it is put in comments. */
  function HeaderText(cfg: Config): string {
    Text1(cfg) + (Phrase + Rest)
  }

  // ---------------------------------------------------------------------
  // makeHeader

  /** `lines.map(l => prefix + l)`. */
  function PrefixEach(lines: seq<string>, prefix: string): (r: seq<string>)
    ensures |r| == |lines| && forall i :: 0 <= i < |r| ==> r[i] == prefix + lines[i]
  {
    seq(|lines|, i requires 0 <= i < |lines| => prefix + lines[i])
  }

  /** `makeHeader(style)`. */
  function MakeHeader(cfg: Config, style: string): string {
    Commented(HeaderText(cfg), style)
  }

  /** The `switch` of `makeHeader` on any text. */
  function Commented(text: string, style: string): string {
    var lines := Split(text, '\n');
    if style == "block" then "/*\n" + Join(PrefixEach(lines, " * "), "\n") + "\n */\n\n"
    else if style == "hash" then Join(PrefixEach(lines, "# "), "\n") + "\n\n"
    else ""
  }

  /** `s` with `p` written after every line break. */
  function AfterBreaks(s: string, p: string): (r: string)
    ensures |r| >= |s|
    decreases |s|
  {
    if |s| == 0 then ""
    else (if s[0] == '\n' then "\n" + p else [s[0]]) + AfterBreaks(s[1..], p)
  }

  lemma {:induction false} AfterBreaksAppend(a: string, b: string, p: string)
    ensures AfterBreaks(a + b, p) == AfterBreaks(a, p) + AfterBreaks(b, p)
    decreases |a|
  {
    if |a| > 0 {
      assert (a + b)[0] == a[0] && (a + b)[1..] == a[1..] + b;
      var h := if a[0] == '\n' then "\n" + p else [a[0]];
      assert AfterBreaks(a + b, p) == h + AfterBreaks(a[1..] + b, p);
      AfterBreaksAppend(a[1..], b, p);
    } else {
      assert a + b == b;
    }
  }

  lemma {:induction false} AfterBreaksPlain(s: string, p: string)
    requires forall i :: 0 <= i < |s| ==> s[i] != '\n'
    ensures AfterBreaks(s, p) == s
    decreases |s|
  {
    if |s| > 0 {
      AfterBreaksPlain(s[1..], p);
      assert s == [s[0]] + s[1..];
    }
  }

  lemma PrefixEachCons(x: string, t: seq<string>, p: string)
    ensures PrefixEach([x] + t, p) == [p + x] + PrefixEach(t, p)
  {
  }

  lemma Regroup(p: string, a: string, n: string, x: string)
    ensures (p + a) + n + (p + x) == p + (a + ((n + p) + x))
  {
  }

  /** A single line gets the prefix once. */
  lemma PrefixedLine(s: string, p: string)
    requires forall i :: 0 <= i < |s| ==> s[i] != '\n'
    ensures Join(PrefixEach(Split(s, '\n'), p), "\n") == p + AfterBreaks(s, p)
  {
    AfterBreaksPlain(s, p);
    assert Split(s, '\n') == [s];
    assert PrefixEach([s], p) == [p + s];
  }

  /** One more line in front keeps the two forms equal. */
  lemma PrefixedLinesStep(a: string, rest: string, p: string)
    requires forall i :: 0 <= i < |a| ==> a[i] != '\n'
    requires Join(PrefixEach(Split(rest, '\n'), p), "\n") == p + AfterBreaks(rest, p)
    ensures Join(PrefixEach(Split(a + "\n" + rest, '\n'), p), "\n") == p + AfterBreaks(a + "\n" + rest, p)
  {
    var tail := PrefixEach(Split(rest, '\n'), p);
    assert '\n' !in a;
    SplitAtFirst(a, rest, '\n');
    PrefixEachCons(a, Split(rest, '\n'), p);
    JoinCons(p + a, tail, "\n");
    AfterBreaksPlain(a, p);
    assert a + "\n" + rest == a + ("\n" + rest);
    AfterBreaksAppend(a, "\n" + rest, p);
    assert ("\n" + rest)[0] == '\n' && ("\n" + rest)[1..] == rest;
    assert AfterBreaks("\n" + rest, p) == ("\n" + p) + AfterBreaks(rest, p);
    Regroup(p, a, "\n", AfterBreaks(rest, p));
  }

  /** Splitting into lines, prefixing each and joining them again is
      writing the prefix first and after every line break. */
  lemma {:induction false} PrefixedLines(s: string, p: string)
    ensures Join(PrefixEach(Split(s, '\n'), p), "\n") == p + AfterBreaks(s, p)
    decreases |s|
  {
    var k := FirstIndexOf(s, '\n');
    if k == |s| {
      PrefixedLine(s, p);
    } else {
      var a, rest := s[..k], s[k + 1..];
      assert s == a + "\n" + rest;
      PrefixedLines(rest, p);
      PrefixedLinesStep(a, rest, p);
    }
  }

  lemma PhrasePlain()
    ensures forall i :: 0 <= i < |Phrase| ==> Phrase[i] != '\n'
  {
  }

  /** A piece without line breaks comes through `AfterBreaks` unchanged,
      between what the text around it becomes. */
  lemma PieceSurvives(a: string, ph: string, b: string, p: string)
    requires forall i :: 0 <= i < |ph| ==> ph[i] != '\n'
    ensures AfterBreaks(a + (ph + b), p) == AfterBreaks(a, p) + ph + AfterBreaks(b, p)
  {
    AfterBreaksAppend(a, ph + b, p);
    AfterBreaksAppend(ph, b, p);
    AfterBreaksPlain(ph, p);
  }

  /** The block comment is `/*`, the text with ` * ` at the start of every
      line, and the closing `*/` with a blank line; the hash comment is the
      text with `# ` at the start of every line and a blank line; any other
      style gives nothing. */
  lemma CommentedLayout(text: string, style: string)
    ensures style == "block" ==> Commented(text, style) == "/*\n * " + AfterBreaks(text, " * ") + "\n */\n\n"
    ensures style == "hash" ==> Commented(text, style) == "# " + AfterBreaks(text, "# ") + "\n\n"
    ensures style != "block" && style != "hash" ==> Commented(text, style) == ""
  {
    if style == "block" {
      PrefixedLines(text, " * ");
    } else if style == "hash" {
      PrefixedLines(text, "# ");
    }
  }

  lemma ContainsAt(s: string, t: string, k: nat)
    requires IsAt(s, t, k)
    ensures Contains(s, t)
  {
  }

  /** A text `open + a + t + rest` contains `t`. */
  lemma ContainsMiddle(open: string, a: string, t: string, rest: string)
    ensures Contains((open + a) + t + rest, t)
  {
    var s := (open + a) + t + rest;
    assert s[|open + a|..|open + a| + |t|] == t;
    ContainsAt(s, t, |open + a|);
  }

  /** A piece of one line of the text is still there once the text is
      commented, and so in every file the comment is put in front of. */
  lemma CommentedKeeps(a: string, ph: string, b: string, style: string, content: string)
    requires forall i :: 0 <= i < |ph| ==> ph[i] != '\n'
    requires style == "block" || style == "hash"
    ensures Contains(Commented(a + (ph + b), style) + content, ph)
  {
    var text := a + (ph + b);
    CommentedLayout(text, style);
    var p := if style == "block" then " * " else "# ";
    var open := if style == "block" then "/*\n * " else "# ";
    var close := if style == "block" then "\n */\n\n" else "\n\n";
    assert Commented(text, style) == open + AfterBreaks(text, p) + close;
    PieceSurvives(a, ph, b, p);
    Sandwich(open, AfterBreaks(text, p), close, content, AfterBreaks(a, p), ph, AfterBreaks(b, p));
    ContainsMiddle(open, AfterBreaks(a, p), ph, AfterBreaks(b, p) + close + content);
  }

  lemma Sandwich(open: string, x: string, close: string, content: string, a: string, ph: string, b: string)
    requires x == a + ph + b
    ensures open + x + close + content == (open + a) + ph + (b + close + content)
  {
  }

  /** The header, block or hash, follows the layout of `Commented`. */
  lemma HeaderLayout(cfg: Config, style: string)
    ensures style == "block" ==> MakeHeader(cfg, style) == "/*\n * " + AfterBreaks(HeaderText(cfg), " * ") + "\n */\n\n"
    ensures style == "hash" ==> MakeHeader(cfg, style) == "# " + AfterBreaks(HeaderText(cfg), "# ") + "\n\n"
    ensures style != "block" && style != "hash" ==> MakeHeader(cfg, style) == ""
  {
    CommentedLayout(HeaderText(cfg), style);
  }

  /** Both headers mention the licence, and so does every file they are
      put in front of. */
  lemma HeaderHasPhrase(cfg: Config, style: string, content: string)
    requires style == "block" || style == "hash"
    ensures Contains(MakeHeader(cfg, style) + content, Phrase)
  {
    PhrasePlain();
    CommentedKeeps(Text1(cfg), Phrase, Rest, style, content);
  }

  /** A header text that mentions the licence on one of its lines. */
  ghost predicate Marked(text: string) {
    exists a, b :: text == a + (Phrase + b)
  }

  /** The script's text is such a text, whatever the project and author. */
  lemma HeaderMarked(cfg: Config)
    ensures Marked(HeaderText(cfg))
  {
    assert HeaderText(cfg) == Text1(cfg) + (Phrase + Rest);
  }

  /** A marked text, once commented, puts the phrase into every file it is
      put in front of. */
  lemma MarkedKeeps(text: string, style: string, content: string)
    requires Marked(text)
    requires style == "block" || style == "hash"
    ensures Contains(Commented(text, style) + content, Phrase)
  {
    var a, b :| text == a + (Phrase + b);
    PhrasePlain();
    CommentedKeeps(a, Phrase, b, style, content);
  }

  // ---------------------------------------------------------------------
  // Extensions

  /** `path.extname(name)` for a directory entry's name (which has no `/`):
      from the last `.` on, or nothing when there is no `.`, when the only
      `.` that counts starts the name, or for `..`. */
  function Extname(name: string): (r: string)
    ensures r != "" ==> r[0] == '.' && EndsWith(name, r) && |r| < |name|
  {
    match LastIndexOf(name, '.')
    case None => ""
    case Some(d) => if d == 0 || name == ".." then "" else name[d..]
  }

  /** The `commentStyles` table, as written. */
  function CommentStyles(ext: string): (r: Option<string>)
    ensures r.Some? ==> r.value == "block" || r.value == "hash"
  {
    match ext
    case ".c" => Some("block")
    case ".cc" => Some("block")
    case ".cpp" => Some("block")
    case ".h" => Some("block")
    case ".hh" => Some("block")
    case ".cs" => Some("block")
    case ".ts" => Some("block")
    case ".tsx" => Some("block")
    case ".js" => Some("block")
    case ".jsx" => Some("block")
    case ".mjs" => Some("block")
    case ".mts" => Some("block")
    case ".py" => Some("hash")
    case ".rb" => Some("hash")
    case ".rs" => Some("hash")
    case ".lua" => Some("hash")
    case ".php" => Some("hash")
    case ".svelte" => Some("block")
    case ".vue" => Some("block")
    case ".astro" => Some("block")
    case ".coffee" => Some("block")
    case _ => None
  }

  /** The extensions of languages in which `#` starts a comment. */
  const HashCommented: set<string> := {".py", ".rb", ".lua", ".php"}

  /** As written, a Rust file gets the hash style: every line of its
      header starts with `#`, which Rust reads as the start of an
      attribute, not of a comment. */
  lemma RustHashAsWritten(text: string)
    ensures CommentStyles(".rs") == Some("hash")
    ensures ".rs" !in HashCommented
    ensures var h := Commented(text, "hash"); |h| >= 2 && h[..2] == "# "
  {
    var lines := Split(text, '\n');
    var ps := PrefixEach(lines, "# ");
    assert ps[0] == "# " + lines[0];
    if |ps| > 1 {
      assert ps == [ps[0]] + ps[1..];
      JoinCons(ps[0], ps[1..], "\n");
    }
    var h := Commented(text, "hash");
    assert h == Join(ps, "\n") + "\n\n";
    assert Join(ps, "\n")[..2] == "# ";
  }

  /** The table the licence tool evidently means: Rust, whose comments are
      those of C, gets the block style; every other entry is as written. */
  function StyleFor(ext: string): (r: Option<string>)
    ensures r.Some? ==> r.value == "block" || r.value == "hash"
  {
    if ext == ".rs" then Some("block") else CommentStyles(ext)
  }

  /** With the corrected table only languages in which `#` starts a
      comment get the hash style, and only the Rust entry changed. */
  lemma HashOnlyWhereCommented(ext: string)
    ensures StyleFor(ext) == Some("hash") ==> ext in HashCommented
    ensures ext != ".rs" ==> StyleFor(ext) == CommentStyles(ext)
    ensures StyleFor(".rs") == Some("block")
  {
  }

  /** A table that gives only the two styles the script knows. */
  ghost predicate Styled(table: string -> Option<string>) {
    forall ext :: table(ext).Some? ==> table(ext).value == "block" || table(ext).value == "hash"
  }

  /** Both tables, as written and corrected, are such tables. */
  lemma TablesStyled()
    ensures Styled(CommentStyles)
    ensures Styled(StyleFor)
  {
    forall ext ensures CommentStyles(ext).Some? ==> CommentStyles(ext).value == "block" || CommentStyles(ext).value == "hash" {
    }
    forall ext ensures StyleFor(ext).Some? ==> StyleFor(ext).value == "block" || StyleFor(ext).value == "hash" {
    }
  }

  /** The comment style a table gives a file, from its lower-cased
      extension; the script looks its files up in `CommentStyles`. */
  function StyleOfFile(table: string -> Option<string>, name: string): Option<string> {
    table(AsciiLower(Extname(name)))
  }

  /** Only the last extension counts: a name `base + ext`, `ext` being a
      `.` and no other `.`, has extension `ext`, unless `base` is empty or
      the name is `..`. */
  lemma LastExtension(base: string, ext: string)
    requires |ext| > 0 && ext[0] == '.' && forall i :: 0 < i < |ext| ==> ext[i] != '.'
    ensures Extname(base + ext) == (if base == "" || base + ext == ".." then "" else ext)
  {
    var name := base + ext;
    assert name[|base|] == '.';
    forall j | |base| < j < |name|
      ensures name[j] != '.'
    {
      assert name[j] == ext[j - |base|];
    }
    if base == "" {
      assert name == ext;
    } else {
      assert name[|base|..] == ext;
    }
  }

  /** A name without a `.` has no extension. */
  lemma NoExtension(name: string)
    requires forall i :: 0 <= i < |name| ==> name[i] != '.'
    ensures Extname(name) == ""
  {
  }

  /** Case does not matter. */
  lemma UpperCaseExtension()
    ensures StyleOfFile(CommentStyles, "App" + ".TSX") == Some("block")
  {
    LastExtension("App", ".TSX");
    assert AsciiLower(".TSX") == ".tsx";
  }

  /** A dot-file has no extension. */
  lemma DotFile()
    ensures StyleOfFile(CommentStyles, "" + ".ts") == None
  {
    LastExtension("", ".ts");
  }

  /** Only the last extension counts. */
  lemma InnerExtension()
    ensures StyleOfFile(CommentStyles, "notes.rs" + ".md") == None
  {
    LastExtension("notes.rs", ".md");
    assert AsciiLower(".md") == ".md";
  }

  // ---------------------------------------------------------------------
  // walk
  //
  // The walk is stated for any style table `table` and any header text
  // `text`; the script's own walk is the one with `table == CommentStyles`
  // and `text == HeaderText(cfg)`, whose commented form is
  // `MakeHeader(cfg, style)`. The walk with `table == StyleFor` is the
  // corrected one.

  /** A directory entry: a file with its text, a directory with its
      entries, or anything else (a link, a socket, ...), which the walk
      passes over. */
  datatype Node = File(name: string, content: string) | Dir(name: string, entries: seq<Node>) | Other(name: string)

  /** The directories the walk never enters. */
  predicate Skipped(name: string) {
    name == "node_modules" || name == "dist" || name == ".git"
  }

  /** A file's text after the walk: the header in front when its extension
      has a style and it does not mention the licence yet. */
  function Processed(table: string -> Option<string>, text: string, name: string, content: string): (r: string)
    ensures EndsWith(r, content)
  {
    match StyleOfFile(table, name)
    case None => content
    case Some(style) => if Contains(content, Phrase) then content else Commented(text, style) + content
  }

  /** `walk(dir)` on one entry. */
  function WalkNode(table: string -> Option<string>, text: string, n: Node): Node
    decreases n
  {
    match n
    case Dir(name, entries) => if Skipped(name) then n else Dir(name, WalkAll(table, text, entries))
    case File(name, content) => File(name, Processed(table, text, name, content))
    case Other(_) => n
  }

  /** `walk(dir)` on the entries of a directory. */
  function WalkAll(table: string -> Option<string>, text: string, entries: seq<Node>): (r: seq<Node>)
    ensures |r| == |entries|
    ensures forall i :: 0 <= i < |entries| ==> r[i] == WalkNode(table, text, entries[i])
    decreases entries
  {
    seq(|entries|, i requires 0 <= i < |entries| => WalkNode(table, text, entries[i]))
  }

  /** The branch of `walk` for a file: the text it has once the walk has
      been past it. */
  method ProcessFile(table: string -> Option<string>, text: string, name: string, content: string) returns (updated: string)
    ensures updated == Processed(table, text, name, content)
  {
    updated := content;
    var ext := AsciiLower(Extname(name));
    var style := table(ext);
    if style.Some? {
      if !Contains(content, Phrase) {
        var header := Commented(text, style.value);
        updated := header + content;
      }
    }
  }

  /** `walk`: the loop over the entries of a directory, recursing into the
      directories that are not skipped and rewriting the files that need a
      header. */
  method Walk(table: string -> Option<string>, text: string, entries: seq<Node>) returns (result: seq<Node>)
    ensures result == WalkAll(table, text, entries)
    decreases entries, 1
  {
    result := [];
    for i := 0 to |entries|
      invariant result == WalkAll(table, text, entries)[..i]
    {
      var updated := WalkEntry(table, text, entries[i]);
      WalkAllPrefix(table, text, entries, i, updated);
      result := result + [updated];
    }
    WalkAllPrefix(table, text, entries, |entries|, Other(""));
  }

  /** The walked entries, one more at a time. */
  lemma WalkAllPrefix(table: string -> Option<string>, text: string, entries: seq<Node>, i: nat, updated: Node)
    requires i <= |entries|
    requires i < |entries| ==> updated == WalkNode(table, text, entries[i])
    ensures i < |entries| ==> WalkAll(table, text, entries)[..i + 1] == WalkAll(table, text, entries)[..i] + [updated]
    ensures WalkAll(table, text, entries)[..|entries|] == WalkAll(table, text, entries)
  {
    var w := WalkAll(table, text, entries);
    if i < |entries| {
      assert w[i] == updated;
      assert w[..i + 1] == w[..i] + [w[i]];
    }
    assert w[..|entries|] == w;
  }

  /** The body of the loop, for one entry. */
  method WalkEntry(table: string -> Option<string>, text: string, entry: Node) returns (r: Node)
    ensures r == WalkNode(table, text, entry)
    decreases entry, 0
  {
    if entry.Dir? && !Skipped(entry.name) {
      var sub := Walk(table, text, entry.entries);
      r := Dir(entry.name, sub);
    } else if entry.File? {
      var updated := ProcessFile(table, text, entry.name, entry.content);
      r := File(entry.name, updated);
    } else {
      r := entry;
    }
  }

  /** A file changes exactly when it has a style and does not mention the
      licence; the old text always stays, at the end. */
  lemma ProcessedChanges(table: string -> Option<string>, text: string, name: string, content: string)
    requires Marked(text)
    requires Styled(table)
    ensures Processed(table, text, name, content) != content <==> StyleOfFile(table, name).Some? && !Contains(content, Phrase)
  {
    if StyleOfFile(table, name).Some? && !Contains(content, Phrase) {
      MarkedKeeps(text, StyleOfFile(table, name).value, content);
    }
  }

  /** A second look at a processed file changes nothing. */
  lemma ProcessedIdempotent(table: string -> Option<string>, text: string, name: string, content: string)
    requires Marked(text)
    requires Styled(table)
    ensures Processed(table, text, name, Processed(table, text, name, content)) == Processed(table, text, name, content)
  {
    if StyleOfFile(table, name).Some? && !Contains(content, Phrase) {
      MarkedKeeps(text, StyleOfFile(table, name).value, content);
    }
  }

  /** Running the tool a second time changes nothing. */
  lemma {:induction false} WalkIdempotent(table: string -> Option<string>, text: string, n: Node)
    requires Marked(text)
    requires Styled(table)
    ensures WalkNode(table, text, WalkNode(table, text, n)) == WalkNode(table, text, n)
    decreases n
  {
    match n
    case Dir(name, entries) =>
      if !Skipped(name) {
        forall i | 0 <= i < |entries|
          ensures WalkNode(table, text, WalkNode(table, text, entries[i])) == WalkNode(table, text, entries[i])
        {
          WalkIdempotent(table, text, entries[i]);
        }
        assert WalkAll(table, text, WalkAll(table, text, entries)) == WalkAll(table, text, entries);
      }
    case File(name, content) => ProcessedIdempotent(table, text, name, content);
    case Other(_) =>
  }

  /** The names and the shape of the tree: what the walk never changes. */
  datatype Shape = FileShape(name: string) | DirShape(name: string, entries: seq<Shape>) | OtherShape(name: string)

  function ShapeOf(n: Node): Shape
    decreases n
  {
    match n
    case File(name, _) => FileShape(name)
    case Dir(name, entries) => DirShape(name, seq(|entries|, i requires 0 <= i < |entries| => ShapeOf(entries[i])))
    case Other(name) => OtherShape(name)
  }

  /** The walk only rewrites file texts: no entry is added, removed,
      renamed or moved, and a skipped directory is left whole. */
  lemma {:induction false} WalkKeepsShape(table: string -> Option<string>, text: string, n: Node)
    ensures ShapeOf(WalkNode(table, text, n)) == ShapeOf(n)
    ensures n.Dir? && Skipped(n.name) ==> WalkNode(table, text, n) == n
    decreases n
  {
    match n
    case Dir(name, entries) =>
      if !Skipped(name) {
        forall i | 0 <= i < |entries|
          ensures ShapeOf(WalkNode(table, text, entries[i])) == ShapeOf(entries[i])
        {
          WalkKeepsShape(table, text, entries[i]);
        }
        var w := WalkAll(table, text, entries);
        assert seq(|w|, i requires 0 <= i < |w| => ShapeOf(w[i]))
            == seq(|entries|, i requires 0 <= i < |entries| => ShapeOf(entries[i]));
      }
    case File(_, _) =>
    case Other(_) =>
  }

  /** The script as it stands, with its own table: its header text is
      marked, so a second run over the tree it leaves changes nothing, and
      no entry moves. */
  lemma ScriptIdempotent(cfg: Config, n: Node)
    ensures WalkNode(CommentStyles, HeaderText(cfg), WalkNode(CommentStyles, HeaderText(cfg), n)) == WalkNode(CommentStyles, HeaderText(cfg), n)
    ensures ShapeOf(WalkNode(CommentStyles, HeaderText(cfg), n)) == ShapeOf(n)
  {
    HeaderMarked(cfg);
    TablesStyled();
    WalkIdempotent(CommentStyles, HeaderText(cfg), n);
    WalkKeepsShape(CommentStyles, HeaderText(cfg), n);
  }

  /** The same holds with the corrected table. */
  lemma CorrectedScriptIdempotent(cfg: Config, n: Node)
    ensures WalkNode(StyleFor, HeaderText(cfg), WalkNode(StyleFor, HeaderText(cfg), n)) == WalkNode(StyleFor, HeaderText(cfg), n)
    ensures ShapeOf(WalkNode(StyleFor, HeaderText(cfg), n)) == ShapeOf(n)
  {
    HeaderMarked(cfg);
    TablesStyled();
    WalkIdempotent(StyleFor, HeaderText(cfg), n);
    WalkKeepsShape(StyleFor, HeaderText(cfg), n);
  }

  /** `main.rs` has the extension `.rs`. */
  lemma MainRsStyles()
    ensures StyleOfFile(CommentStyles, "main.rs") == Some("hash")
    ensures StyleOfFile(StyleFor, "main.rs") == Some("block")
  {
    LastExtension("main", ".rs");
    assert "main" + ".rs" == "main.rs";
    assert AsciiLower(".rs") == ".rs";
  }

  /** As written, the walk puts a `#` header in front of a Rust file that
      does not mention the licence; with the corrected table the header is
      a block comment. */
  lemma RustFileAsWritten(cfg: Config, content: string)
    requires !Contains(content, Phrase)
    ensures var r := WalkNode(CommentStyles, HeaderText(cfg), File("main.rs", content)).content; |r| >= 2 && r[..2] == "# "
    ensures var r := WalkNode(StyleFor, HeaderText(cfg), File("main.rs", content)).content; |r| >= 2 && r[..2] == "/*"
  {
    RustFileHeaders(HeaderText(cfg), content);
  }

  /** The same for any header text. */
  lemma RustFileHeaders(text: string, content: string)
    requires !Contains(content, Phrase)
    ensures var r := Processed(CommentStyles, text, "main.rs", content); |r| >= 2 && r[..2] == "# "
    ensures var r := Processed(StyleFor, text, "main.rs", content); |r| >= 2 && r[..2] == "/*"
  {
    MainRsStyles();
    RustHashAsWritten(text);
    var h := Commented(text, "hash");
    assert (h + content)[..2] == h[..2];
    var b := Commented(text, "block");
    assert b[..2] == "/*";
    assert (b + content)[..2] == b[..2];
  }
}
