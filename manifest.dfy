/** The client-component manifest of the server-components compiler
    (preactsc/src/shared/manifest.js): which client paths are accepted, the
    id, name and path each entry gets, the component id of a path, and the
    records `serializeManifest` hands to `JSON.stringify`. */
module Manifest {
  import opened Wrappers
  import opened Text
  import JsValues

  datatype Entry = Entry(id: string, name: string, path: string, props: seq<(string, JsValues.Value)>)

  // ---------------------------------------------------------------------
  // Names

  /** Node's POSIX `path.basename`: the text after the last `/`, once
      trailing `/`s are dropped. */
  function Basename(p: string): (r: string)
    ensures '/' !in r
    ensures |r| <= |p|
    decreases |p|
  {
    if |p| > 0 && p[|p| - 1] == '/' then Basename(p[..|p| - 1])
    else
      match LastIndexOf(p, '/')
      case None => p
      case Some(k) => p[k + 1..]
  }

  /** `.replace(/\.[jt]sx?$/, "")`: one trailing `.js`, `.ts`, `.jsx` or
      `.tsx` removed. */
  function StripScriptExtension(name: string): (r: string)
    ensures |r| <= |name| && r == name[..|r|]
    ensures r != name ==> name[|r|..] in {".js", ".ts", ".jsx", ".tsx"}
    ensures r == name ==>
      !EndsWith(name, ".js") && !EndsWith(name, ".ts") && !EndsWith(name, ".jsx") && !EndsWith(name, ".tsx")
  {
    if EndsWith(name, ".jsx") || EndsWith(name, ".tsx") then name[..|name| - 4]
    else if EndsWith(name, ".js") || EndsWith(name, ".ts") then name[..|name| - 3]
    else name
  }

  predicate IsNameChar(c: char) {
    IsAsciiAlnum(c) || c == '_' || c == '-'
  }

  /** `.replace(/[^a-z0-9_-]/gi, "_")`. */
  function SanitizeName(name: string): (r: string)
    ensures |r| == |name|
    ensures forall i :: 0 <= i < |r| ==> IsNameChar(r[i])
    ensures forall i :: 0 <= i < |r| ==> (IsNameChar(name[i]) <==> r[i] == name[i])
  {
    seq(|name|, i requires 0 <= i < |name| => if IsNameChar(name[i]) then name[i] else '_')
  }

  /** `filePath.replace(/\\/g, "/")`. */
  function NormalizeSlashes(p: string): (r: string)
    ensures |r| == |p| && '\\' !in r
  {
    ReplaceChar(p, '\\', '/')
  }

  /** `client-${index}`. */
  function ClientId(index: nat): string {
    "client-" + NatToDecimal(index)
  }

  /** Different input positions never share an id. */
  lemma ClientIdInjective(a: nat, b: nat)
    requires ClientId(a) == ClientId(b)
    ensures a == b
  {
    assert ClientId(a)[7..] == NatToDecimal(a);
    assert ClientId(b)[7..] == NatToDecimal(b);
    NatToDecimalValue(a);
    NatToDecimalValue(b);
  }

  // ---------------------------------------------------------------------
  // createManifest

  /** A client path is kept when it is a non-empty string whose normalised
      form starts with `.` or `/`. */
  predicate Accepted(v: JsValues.Value) {
    JsValues.Truthy(v) && v.Str?
    && (StartsWith(NormalizeSlashes(v.s), ".") || StartsWith(NormalizeSlashes(v.s), "/"))
  }

  /** The entry for an accepted path at input position `index`; the name
      comes from the path as given, before normalisation. */
  function EntryFor(filePath: string, index: nat): Entry {
    Entry(ClientId(index), SanitizeName(StripScriptExtension(Basename(filePath))), NormalizeSlashes(filePath), [])
  }

  /** The manifest built from the first `n` client paths. */
  function ManifestOf(paths: seq<JsValues.Value>, n: nat): seq<Entry>
    requires n <= |paths|
  {
    if n == 0 then []
    else if Accepted(paths[n - 1]) then ManifestOf(paths, n - 1) + [EntryFor(paths[n - 1].s, n - 1)]
    else ManifestOf(paths, n - 1)
  }

  /** The input positions of the accepted paths among the first `n`. */
  function AcceptedPositions(paths: seq<JsValues.Value>, n: nat): (ks: seq<nat>)
    requires n <= |paths|
    ensures forall j :: 0 <= j < |ks| ==> ks[j] < n && Accepted(paths[ks[j]])
    ensures forall j, l :: 0 <= j < l < |ks| ==> ks[j] < ks[l]
    ensures forall k :: 0 <= k < n && Accepted(paths[k]) ==> k in ks
  {
    if n == 0 then []
    else if Accepted(paths[n - 1]) then AcceptedPositions(paths, n - 1) + [n - 1]
    else AcceptedPositions(paths, n - 1)
  }

  /** Entry `j` comes from the `j`-th accepted path, keeps its input
      position in its id, and the entries follow the input order. */
  lemma {:induction false} ManifestFromPositions(paths: seq<JsValues.Value>, n: nat)
    requires n <= |paths|
    ensures var m := ManifestOf(paths, n); var ks := AcceptedPositions(paths, n);
      |m| == |ks| && forall j :: 0 <= j < |m| ==> m[j] == EntryFor(paths[ks[j]].s, ks[j])
  {
    if n > 0 {
      ManifestFromPositions(paths, n - 1);
    }
  }

  /** The ids of a manifest are pairwise distinct, every path is
      normalised and starts with `.` or `/`, every name is made of
      `[A-Za-z0-9_-]`, and every props object is empty. */
  lemma ManifestWellFormed(paths: seq<JsValues.Value>)
    ensures var m := ManifestOf(paths, |paths|);
      (forall j, l :: 0 <= j < l < |m| ==> m[j].id != m[l].id)
      && forall j :: 0 <= j < |m| ==>
        && '\\' !in m[j].path && (StartsWith(m[j].path, ".") || StartsWith(m[j].path, "/"))
        && (forall i :: 0 <= i < |m[j].name| ==> IsNameChar(m[j].name[i]))
        && m[j].props == []
  {
    var m := ManifestOf(paths, |paths|);
    var ks := AcceptedPositions(paths, |paths|);
    ManifestFromPositions(paths, |paths|);
    forall j, l | 0 <= j < l < |m| ensures m[j].id != m[l].id {
      if m[j].id == m[l].id {
        ClientIdInjective(ks[j], ks[l]);
      }
    }
  }

  /** `createManifest`: the `forEach` over the client paths, pushing onto
      `manifest` and recording ids in `seenIds`. The duplicate-id branch is
      kept as the source has it; the ids are made from distinct positions,
      so it never fires. `outDir` is not used. */
  method CreateManifest(clientPaths: seq<JsValues.Value>, outDir: string) returns (manifest: seq<Entry>)
    ensures manifest == ManifestOf(clientPaths, |clientPaths|)
  {
    manifest := [];
    var seenIds: set<string> := {};
    for index := 0 to |clientPaths|
      invariant manifest == ManifestOf(clientPaths, index)
      invariant forall x :: x in seenIds ==> exists k :: 0 <= k < index && x == ClientId(k)
    {
      var filePath := clientPaths[index];
      if !JsValues.Truthy(filePath) || !filePath.Str? {
        continue;
      }
      var normalizedPath := NormalizeSlashes(filePath.s);
      if !StartsWith(normalizedPath, ".") && !StartsWith(normalizedPath, "/") {
        continue;
      }
      var id := ClientId(index);
      if id in seenIds {
        var k :| 0 <= k < index && id == ClientId(k);
        ClientIdInjective(k, index);
        assert false;
        continue;
      }
      seenIds := seenIds + {id};
      var name := StripScriptExtension(Basename(filePath.s));
      manifest := manifest + [Entry(id, SanitizeName(name), normalizedPath, [])];
    }
  }

  /** Rejected inputs leave a gap in the ids: with a rejected path first,
      the first entry's id is `client-1`. */
  lemma GapsInIds(bad: JsValues.Value, good: string)
    requires !Accepted(bad) && Accepted(JsValues.Str(good))
    ensures ManifestOf([bad, JsValues.Str(good)], 2) == [EntryFor(good, 1)]
    ensures EntryFor(good, 1).id == "client-1"
  {
    assert ManifestOf([bad, JsValues.Str(good)], 1) == [];
  }

  // ---------------------------------------------------------------------
  // createComponentId and serializeManifest

  /** `createComponentId`: the lower-cased basename without its script
      extension. */
  function ComponentId(filePath: string): (r: string)
    ensures '/' !in r
    ensures forall i :: 0 <= i < |r| ==> !IsAsciiUpper(r[i])
  {
    var whole := Basename(filePath);
    var base := StripScriptExtension(whole);
    var lower := AsciiLower(base);
    assert forall i :: 0 <= i < |base| ==> base[i] == whole[i] && whole[i] in whole;
    lower
  }

  /** The directory part plays no role in the component id. */
  lemma ComponentIdIgnoresDirectory(dir: string, file: string)
    requires file != "" && '/' !in file
    ensures ComponentId(dir + "/" + file) == ComponentId(file)
  {
    var p := dir + "/" + file;
    assert p[|p| - 1] == file[|file| - 1];
    assert LastIndexOf(p, '/') == Some(|dir|) by {
      assert p[|dir|] == '/';
      forall j | |dir| < j < |p| ensures p[j] != '/' {
        assert p[j] == file[j - |dir| - 1];
      }
    }
    assert p[|dir| + 1..] == file;
    assert LastIndexOf(file, '/') == None;
  }

  /** A component as `serializeManifest` reads it. */
  datatype Component = Component(path: JsValues.Value, name: JsValues.Value, props: JsValues.Value)

  /** The record written for one component. */
  datatype Serialized = Serialized(id: nat, path: JsValues.Value, name: JsValues.Value, props: JsValues.Value)

  /** A fresh `{}`; its identity plays no part in the JSON text. */
  const EmptyObject: JsValues.Value := JsValues.Obj(0, [])

  /** `serializeManifest` before `JSON.stringify`: each component's list
      position is its id, path and name are copied, and falsy props become
      `{}`. */
  function SerializeManifest(components: seq<Component>): (r: seq<Serialized>)
    ensures |r| == |components|
    ensures forall i :: 0 <= i < |r| ==>
      r[i].id == i && r[i].path == components[i].path && r[i].name == components[i].name
    ensures forall i :: 0 <= i < |r| ==>
      r[i].props == (if JsValues.Truthy(components[i].props) then components[i].props else EmptyObject)
  {
    seq(|components|, i requires 0 <= i < |components| =>
      var c := components[i];
      Serialized(i, c.path, c.name, if JsValues.Truthy(c.props) then c.props else EmptyObject))
  }
}
