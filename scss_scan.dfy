/** Where an SCSS `@import` may find its file
    (native/stylepack/src/scss/scan.rs). */
module ScssScan {
  import opened Wrappers
  import opened Text

  /** `partialize`: a `_` inserted just after the last `/`, or at the front
      when there is none, naming the partial. */
  function Partialize(p: string): (r: string)
    ensures |r| == |p| + 1
    ensures var j := PartialIndex(p);
      j <= |p| && r[j] == '_' && r[..j] == p[..j] && r[j + 1..] == p[j..]
  {
    var j := PartialIndex(p);
    p[..j] + "_" + p[j..]
  }

  /** Where `partialize` inserts its `_`. */
  function PartialIndex(p: string): (j: nat)
    ensures j <= |p|
    ensures j == 0 || p[j - 1] == '/'
    ensures forall m :: j <= m < |p| ==> p[m] != '/'
  {
    match LastIndexOf(p, '/')
    case Some(k) => k + 1
    case None => 0
  }

  predicate HasStyleExtension(p: string) {
    EndsWith(p, ".scss") || EndsWith(p, ".sass") || EndsWith(p, ".css")
  }

  /** `import_candidates`: with backslashes turned into `/`, a path that
      already names a style file yields itself and its partial; any other
      yields `path.scss`, its partial, `path/index.scss` and its partial. */
  method ImportCandidates(path: string) returns (out: seq<string>)
    ensures var raw := ReplaceChar(path, '\\', '/');
      && (HasStyleExtension(raw) ==> out == [raw, Partialize(raw)])
      && (!HasStyleExtension(raw) ==>
            out == [raw + ".scss", Partialize(raw + ".scss"), raw + "/index.scss", Partialize(raw + "/index.scss")])
    ensures |out| == 2 || |out| == 4
    ensures forall k :: 0 <= k < |out| ==> '\\' !in out[k] && HasStyleExtension(out[k])
  {
    var raw := ReplaceChar(path, '\\', '/');
    NoBackslashLeft(path);
    if HasStyleExtension(raw) {
      PartialKeepsShape(raw);
      out := [raw];
      out := out + [Partialize(raw)];
      return;
    }
    var a := raw + ".scss";
    var b := raw + "/index.scss";
    WithStyleExtension(raw, ".scss");
    WithStyleExtension(raw, "/index.scss");
    PartialKeepsShape(a);
    PartialKeepsShape(b);
    out := [a];
    out := out + [Partialize(a)];
    out := out + [b];
    out := out + [Partialize(b)];
  }

  lemma NoBackslashLeft(path: string)
    ensures '\\' !in ReplaceChar(path, '\\', '/')
  {
    var r := ReplaceChar(path, '\\', '/');
    forall m | 0 <= m < |r| ensures r[m] != '\\' { }
  }

  lemma WithStyleExtension(raw: string, ext: string)
    requires ext == ".scss" || ext == "/index.scss"
    requires '\\' !in raw
    ensures '\\' !in raw + ext && HasStyleExtension(raw + ext)
  {
    var p := raw + ext;
    assert p[|p| - 5..] == ".scss";
  }

  lemma InsertKeepsSuffix(p: string, e: string, j: nat)
    requires EndsWith(p, e) && '/' !in e
    requires j <= |p| && (j == 0 || p[j - 1] == '/')
    ensures EndsWith(p[..j] + "_" + p[j..], e)
  {
    forall m | |p| - |e| <= m < |p| ensures p[m] != '/' {
      assert p[m] == e[m - (|p| - |e|)];
    }
    var r := p[..j] + "_" + p[j..];
    assert r[|r| - |e|..] == p[|p| - |e|..];
  }

  /** The partial of a style path without backslashes is one too: the `_`
      goes before the file name, so the extension survives. */
  lemma PartialKeepsShape(p: string)
    requires '\\' !in p
    requires HasStyleExtension(p)
    ensures '\\' !in Partialize(p) && HasStyleExtension(Partialize(p))
  {
    var r := Partialize(p);
    var j := PartialIndex(p);
    assert r == p[..j] + "_" + p[j..];
    forall c | c in r ensures c in p || c == '_' {
      var m :| 0 <= m < |r| && r[m] == c;
      if m < j { assert r[m] == p[m]; }
      else if m > j { assert r[m] == p[m - 1]; }
    }
    if EndsWith(p, ".scss") { InsertKeepsSuffix(p, ".scss", j); }
    if EndsWith(p, ".sass") { InsertKeepsSuffix(p, ".sass", j); }
    if EndsWith(p, ".css") { InsertKeepsSuffix(p, ".css", j); }
  }

  lemma PartializeExamples()
    ensures Partialize("a/b/c.scss") == "a/b/_c.scss"
    ensures Partialize("c.scss") == "_c.scss"
  {
    var p := "a/b/c.scss";
    assert p[3] == '/';
    assert PartialIndex(p) == 4;
    assert p[..4] + "_" + p[4..] == "a/b/_c.scss";
    var q := "c.scss";
    assert '/' !in q;
    assert PartialIndex(q) == 0;
  }
}
