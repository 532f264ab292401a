/** The documentation site's `defineConfig`
    (packages/jenpress/src/node/config.ts): defaults for the optional keys,
    then the caller's own keys spread over them. */
module JenpressConfig {
  import opened Wrappers
  import opened JsValues

  /** A `SiteConfig` object. Each of the keys `defineConfig` handles is
      `None` when the object does not have it and `Some(v)` when it does,
      `v` being `Undefined` for a key set to `undefined`. `others` holds
      the remaining keys (`icon`, `logo`, `head`, `themeConfig`,
      `markdown`, ...). */
  datatype SiteConfig = SiteConfig(
    title: Option<Value>,
    description: Option<Value>,
    base: Option<Value>,
    lang: Option<Value>,
    srcDir: Option<Value>,
    outDir: Option<Value>,
    cacheDir: Option<Value>,
    cleanUrls: Option<Value>,
    others: map<string, Value>)

  /** Reading a key: `undefined` when it is missing. */
  function Get(key: Option<Value>): Value {
    key.GetOr(Undefined)
  }

  /** `value || fallback`. */
  function OrElse(key: Option<Value>, fallback: string): (r: Value)
    ensures Truthy(Get(key)) ==> r == Get(key)
    ensures !Truthy(Get(key)) ==> r == Str(fallback)
  {
    if Truthy(Get(key)) then Get(key) else Str(fallback)
  }

  /** `{ ...{ key: computed }, ...config }` for one key. */
  function Spread(computed: Value, given: Option<Value>): (r: Option<Value>)
    ensures r.Some?
  {
    Some(given.GetOr(computed))
  }

  /** `defineConfig`. */
  function DefineConfig(config: SiteConfig): (r: SiteConfig)
    ensures r.others == config.others
  {
    SiteConfig(
      Spread(Get(config.title), config.title),
      Spread(OrElse(config.description, ""), config.description),
      Spread(OrElse(config.base, "/"), config.base),
      Spread(OrElse(config.lang, "en"), config.lang),
      Spread(OrElse(config.srcDir, "docs"), config.srcDir),
      Spread(OrElse(config.outDir, "dist"), config.outDir),
      Spread(OrElse(config.cacheDir, ".jenpress-cache"), config.cacheDir),
      Spread(Bool(!StrictEq(Get(config.cleanUrls), Bool(false))), config.cleanUrls),
      config.others)
  }

  /** A key that is there keeps the caller's value, and a missing key gets
      `fallback`. */
  predicate SpreadOver(r: Option<Value>, given: Option<Value>, fallback: Value) {
    r == Some(if given.Some? then given.value else fallback)
  }

  /** Because `...config` comes last, the `||` and `!== false` tests never
      decide anything: each key holds the caller's value whenever it is
      present, even `undefined`, `''` or `false`, and its default only when
      it is missing; the title is the caller's title or `undefined`. */
  lemma SpreadDecides(config: SiteConfig)
    ensures var r := DefineConfig(config);
      && SpreadOver(r.title, config.title, Undefined)
      && SpreadOver(r.description, config.description, Str(""))
      && SpreadOver(r.base, config.base, Str("/"))
      && SpreadOver(r.lang, config.lang, Str("en"))
      && SpreadOver(r.srcDir, config.srcDir, Str("docs"))
      && SpreadOver(r.outDir, config.outDir, Str("dist"))
      && SpreadOver(r.cacheDir, config.cacheDir, Str(".jenpress-cache"))
      && SpreadOver(r.cleanUrls, config.cleanUrls, Bool(true))
      && r.others == config.others
  {
  }

  /** Every key `defineConfig` handles is present in its result. */
  predicate Complete(c: SiteConfig) {
    && c.title.Some? && c.description.Some? && c.base.Some? && c.lang.Some?
    && c.srcDir.Some? && c.outDir.Some? && c.cacheDir.Some? && c.cleanUrls.Some?
  }

  /** The result is complete, and a complete configuration is left as it
      is, so applying `defineConfig` twice is applying it once. */
  lemma DefineConfigIdempotent(config: SiteConfig)
    ensures Complete(DefineConfig(config))
    ensures Complete(config) ==> DefineConfig(config) == config
    ensures DefineConfig(DefineConfig(config)) == DefineConfig(config)
  {
  }

  /** A key passed as `undefined` stays `undefined` instead of taking its
      default. */
  lemma UndefinedOverrides(config: SiteConfig)
    requires config.base == Some(Undefined) && config.cleanUrls == Some(Undefined)
    ensures DefineConfig(config).base == Some(Undefined)
    ensures DefineConfig(config).cleanUrls == Some(Undefined)
  {
  }

  /** `loadConfig`'s fallback when no configuration module loads. */
  lemma FallbackConfig()
    ensures DefineConfig(SiteConfig(Some(Str("My Documentation")), None, None, None, None, None, None, None, map[]))
      == SiteConfig(Some(Str("My Documentation")), Some(Str("")), Some(Str("/")), Some(Str("en")),
                    Some(Str("docs")), Some(Str("dist")), Some(Str(".jenpress-cache")), Some(Bool(true)), map[])
  {
  }
}
