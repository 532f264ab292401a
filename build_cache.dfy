/** The bundler's hash-validated build cache (jenpack/src/cache/index.ts):
    entries by file path, a set of paths changed since the last save, and
    the saved index file. */
module BuildCache {
  import opened Wrappers

  datatype CacheEntry = CacheEntry(hash: string, code: string, sourceMap: Option<string>, timestamp: int)

  /** `get`: the entry for `path` when its stored hash is `hash`. */
  function Lookup(cache: map<string, CacheEntry>, path: string, hash: string): (r: Option<CacheEntry>)
    ensures r.Some? <==> path in cache && cache[path].hash == hash
    ensures r.Some? ==> r.value == cache[path]
  {
    if path in cache && cache[path].hash == hash then Some(cache[path]) else None
  }

  /** `has`. */
  predicate Holds(cache: map<string, CacheEntry>, path: string, hash: string) {
    path in cache && cache[path].hash == hash
  }

  /** `has` holds exactly when `get` gives an entry, and a stored entry is
      found again under its own hash and under no other. */
  lemma HasIsGet(cache: map<string, CacheEntry>, path: string, hash: string, e: CacheEntry)
    ensures Holds(cache, path, hash) <==> Lookup(cache, path, hash).Some?
    ensures Lookup(cache[path := e], path, e.hash) == Some(e)
    ensures hash != e.hash ==> Lookup(cache[path := e], path, hash).None?
    ensures Lookup(cache - {path}, path, hash).None?
  {
  }

  /** What an index file holds: `None` when there is none (or it could
      not be read), otherwise the entries it lists. */
  function Entries(index: Option<map<string, CacheEntry>>): map<string, CacheEntry> {
    index.GetOr(map[])
  }

  /** The cache agrees with the saved index away from the dirty paths. */
  ghost predicate InSync(cache: map<string, CacheEntry>, dirty: set<string>, index: Option<map<string, CacheEntry>>) {
    forall p :: p !in dirty ==> (p in cache <==> p in Entries(index)) && (p in cache ==> cache[p] == Entries(index)[p])
  }

  /** With no dirty path the index already holds exactly the cache, so a
      save that does nothing loses nothing. */
  lemma CleanMeansSaved(cache: map<string, CacheEntry>, index: Option<map<string, CacheEntry>>)
    requires InSync(cache, {}, index)
    ensures cache == Entries(index)
  {
    assert cache.Keys == Entries(index).Keys;
  }

  /** Marking the written path dirty keeps the cache in sync whatever was
      written or removed there. */
  lemma WriteKeepsSync(cache: map<string, CacheEntry>, dirty: set<string>, index: Option<map<string, CacheEntry>>,
                       path: string, e: CacheEntry)
    requires InSync(cache, dirty, index)
    ensures InSync(cache[path := e], dirty + {path}, index)
    ensures InSync(cache - {path}, dirty + {path}, index)
  {
  }

  class Cache {
    const cacheDir: string
    var cache: map<string, CacheEntry>
    var dirty: set<string>
    /** The index file in the cache directory. */
    var index: Option<map<string, CacheEntry>>

    ghost predicate Valid()
      reads this
    {
      InSync(cache, dirty, index)
    }

    /** Loads the entries of the index file `stored`, or starts empty when
        there is none. */
    constructor (cacheDir: string, stored: Option<map<string, CacheEntry>>)
      ensures this.cacheDir == cacheDir
      ensures cache == Entries(stored) && dirty == {} && index == stored
      ensures Valid()
    {
      this.cacheDir := cacheDir;
      cache := Entries(stored);
      dirty := {};
      index := stored;
    }

    function Get(filePath: string, fileHash: string): (r: Option<CacheEntry>)
      reads this
      ensures r == Lookup(cache, filePath, fileHash)
    {
      Lookup(cache, filePath, fileHash)
    }

    function Has(filePath: string, fileHash: string): (b: bool)
      reads this
      ensures b <==> Get(filePath, fileHash).Some?
    {
      Holds(cache, filePath, fileHash)
    }

    method Set(filePath: string, entry: CacheEntry)
      requires Valid()
      modifies this
      ensures cache == old(cache)[filePath := entry] && dirty == old(dirty) + {filePath}
      ensures index == old(index)
      ensures Valid()
    {
      WriteKeepsSync(cache, dirty, index, filePath, entry);
      cache := cache[filePath := entry];
      dirty := dirty + {filePath};
    }

    method Invalidate(filePath: string)
      requires Valid()
      modifies this
      ensures cache == old(cache) - {filePath} && dirty == old(dirty) + {filePath}
      ensures index == old(index)
      ensures Valid()
    {
      WriteKeepsSync(cache, dirty, index, filePath, CacheEntry("", "", None, 0));
      cache := cache - {filePath};
      dirty := dirty + {filePath};
    }

    /** `save`: nothing when no path is dirty; otherwise the whole cache is
        written to the index and the dirty set emptied. Either way the index
        then holds exactly the cache. */
    method Save()
      requires Valid()
      modifies this
      ensures old(dirty) == {} ==> index == old(index)
      ensures old(dirty) != {} ==> index == Some(old(cache))
      ensures cache == old(cache) && dirty == {}
      ensures Entries(index) == cache
      ensures Valid()
    {
      if |dirty| == 0 {
        CleanMeansSaved(cache, index);
        return;
      }
      index := Some(cache);
      dirty := {};
    }

    /** `clear`: empties the entries and removes the cache directory with
        its index; the dirty set is left as it was. */
    method Clear()
      modifies this
      ensures cache == map[] && index == None && dirty == old(dirty)
      ensures Valid()
    {
      cache := map[];
      index := None;
    }

    /** `getStats`: the number of entries and of dirty paths. */
    function Stats(): (r: (nat, nat))
      reads this
      ensures r.0 == |cache.Keys| && r.1 == |dirty|
    {
      (|cache.Keys|, |dirty|)
    }
  }
}
