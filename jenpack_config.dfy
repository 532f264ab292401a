/** The bundler's configuration (jenpack/src/config.rs): defaults, alias
    resolution and the external-module test. Loading the TOML file is I/O
    and is not part of this model. */
module JenpackConfig {
  import opened Text

  datatype JenPackConfig = JenPackConfig(
    entry: seq<string>,
    outdir: string,
    minify: bool,
    sourcemap: bool,
    watch: bool,
    verbose: bool,
    externals: seq<string>,
    aliases: map<string, string>)

  /** `JenPackConfig::default()`. */
  function Default(): (c: JenPackConfig)
    ensures c.entry == ["src/index.ts"] && c.outdir == "dist"
    ensures !c.minify && c.sourcemap && !c.watch && !c.verbose
    ensures c.externals == [] && c.aliases == map[]
  {
    JenPackConfig(["src/index.ts"], "dist", false, true, false, false, [], map[])
  }

  /** `resolve_alias`: the mapped name when `name` is an alias, otherwise
      `name` itself. */
  function ResolveAlias(c: JenPackConfig, name: string): (r: string)
    ensures name in c.aliases ==> r == c.aliases[name]
    ensures name !in c.aliases ==> r == name
  {
    if name in c.aliases then c.aliases[name] else name
  }

  /** `externals.iter().any(|e| module.starts_with(e))`, over the first `n`
      externals. */
  function AnyPrefix(externals: seq<string>, modulePath: string, n: nat): (b: bool)
    requires n <= |externals|
    ensures b <==> exists i :: 0 <= i < n && StartsWith(modulePath, externals[i])
  {
    if n == 0 then false
    else AnyPrefix(externals, modulePath, n - 1) || StartsWith(modulePath, externals[n - 1])
  }

  /** `is_external`: some configured external is a prefix of `module`. */
  function IsExternal(c: JenPackConfig, modulePath: string): (b: bool)
    ensures b <==> exists i :: 0 <= i < |c.externals| && StartsWith(modulePath, c.externals[i])
  {
    AnyPrefix(c.externals, modulePath, |c.externals|)
  }

  /** Under the defaults nothing is external and every name resolves to
      itself. */
  lemma DefaultsAreInert(modulePath: string, name: string)
    ensures !IsExternal(Default(), modulePath)
    ensures ResolveAlias(Default(), name) == name
  {
  }

  /** Prefix matching, not equality: an external covers every module path
      that extends it, so `react` also covers `react-dom`, and an empty
      external covers everything. */
  lemma ExternalCoversExtensions(c: JenPackConfig, i: nat, suffix: string)
    requires i < |c.externals|
    ensures IsExternal(c, c.externals[i] + suffix)
    ensures "" in c.externals ==> forall m :: IsExternal(c, m)
  {
    assert StartsWith(c.externals[i] + suffix, c.externals[i]);
    if "" in c.externals {
      var k :| 0 <= k < |c.externals| && c.externals[k] == "";
      forall m ensures IsExternal(c, m) {
        assert StartsWith(m, c.externals[k]);
      }
    }
  }

  /** Resolution is one lookup, not a chain: an alias whose target is
      itself an alias is not followed further. */
  lemma AliasOneStep(c: JenPackConfig, a: string, b: string, t: string)
    requires c.aliases == map[a := b, b := t] && a != b
    ensures ResolveAlias(c, a) == b
  {
  }
}
