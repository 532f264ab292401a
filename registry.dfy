/** The middleware registry (src/middleware/registry.js): middleware
    stored by name, named groups of middleware names, and one shared
    instance. */
module Registry {
  import opened Wrappers

  /** `map.get(name)`: the value stored under `name`, or `undefined`. */
  function Lookup<M>(mws: map<string, M>, name: string): (r: Option<M>)
    ensures r.Some? <==> name in mws
    ensures r.Some? ==> r.value == mws[name]
  {
    if name in mws then Some(mws[name]) else None
  }

  /** The names among `names` that are registered, in list order. */
  function Known<M>(names: seq<string>, mws: map<string, M>): (r: seq<string>)
    ensures |r| <= |names|
    ensures forall i :: 0 <= i < |r| ==> r[i] in mws
    decreases |names|
  {
    if |names| == 0 then []
    else
      var last := names[|names| - 1];
      Known(names[..|names| - 1], mws) + (if last in mws then [last] else [])
  }

  /** `names.map(get).filter(m => !!m)`: the middleware registered under
      `names`, in list order, with unknown names dropped. */
  function Resolve<M>(names: seq<string>, mws: map<string, M>): (r: seq<M>)
    decreases |names|
  {
    if |names| == 0 then []
    else
      var rest := Resolve(names[..|names| - 1], mws);
      match Lookup(mws, names[|names| - 1])
      case Some(m) => rest + [m]
      case None => rest
  }

  /** The group's middleware are those of its registered names, one for
      one and in the same order. */
  lemma {:induction false} ResolveIsKnown<M>(names: seq<string>, mws: map<string, M>)
    ensures |Resolve(names, mws)| == |Known(names, mws)|
    ensures forall i :: 0 <= i < |Known(names, mws)| ==> Resolve(names, mws)[i] == mws[Known(names, mws)[i]]
    decreases |names|
  {
    if |names| > 0 {
      ResolveIsKnown(names[..|names| - 1], mws);
    }
  }

  /** With every name registered nothing is dropped. */
  lemma {:induction false} AllKnownKept<M>(names: seq<string>, mws: map<string, M>)
    requires forall i :: 0 <= i < |names| ==> names[i] in mws
    ensures Known(names, mws) == names
    decreases |names|
  {
    if |names| > 0 {
      AllKnownKept(names[..|names| - 1], mws);
      assert names[..|names| - 1] + [names[|names| - 1]] == names;
    }
  }

  /** Unregistered names contribute nothing. */
  lemma {:induction false} UnknownDropped<M>(names: seq<string>, mws: map<string, M>)
    requires forall i :: 0 <= i < |names| ==> names[i] !in mws
    ensures Resolve(names, mws) == []
    decreases |names|
  {
    if |names| > 0 {
      UnknownDropped(names[..|names| - 1], mws);
    }
  }

  /** Resolving a concatenation resolves each part. */
  lemma {:induction false} ResolveAppend<M>(a: seq<string>, b: seq<string>, mws: map<string, M>)
    ensures Resolve(a + b, mws) == Resolve(a, mws) + Resolve(b, mws)
    decreases |b|
  {
    if |b| > 0 {
      var b' := b[..|b| - 1];
      assert (a + b)[..|a + b| - 1] == a + b';
      assert (a + b)[|a + b| - 1] == b[|b| - 1];
      ResolveAppend(a, b', mws);
    } else {
      assert a + b == a;
    }
  }

  /** Registering a name makes `get` return the new middleware, whatever
      was there before, and leaves every other name as it was. */
  lemma RegisterThenGet<M>(mws: map<string, M>, name: string, mw: M, other: string)
    ensures Lookup(mws[name := mw], name) == Some(mw)
    ensures other != name ==> Lookup(mws[name := mw], other) == Lookup(mws, other)
  {
  }

  class MiddlewareRegistry<M> {
    var middleware: map<string, M>
    var groups: map<string, seq<string>>

    constructor ()
      ensures middleware == map[] && groups == map[]
    {
      middleware := map[];
      groups := map[];
    }

    /** `register`: stores `mw` under `name`, replacing any earlier one. */
    method Register(name: string, mw: M)
      modifies this
      ensures middleware == old(middleware)[name := mw]
      ensures groups == old(groups)
    {
      middleware := middleware[name := mw];
    }

    function Get(name: string): (r: Option<M>)
      reads this
      ensures r.Some? <==> name in middleware
      ensures r.Some? ==> r.value == middleware[name]
    {
      Lookup(middleware, name)
    }

    /** `group`: sets the group's name list, replacing any earlier one. */
    method Group(groupName: string, middlewareNames: seq<string>)
      modifies this
      ensures groups == old(groups)[groupName := middlewareNames]
      ensures middleware == old(middleware)
    {
      groups := groups[groupName := middlewareNames];
    }

    /** The names of a group, `[]` for an unknown group. */
    function GroupNames(groupName: string): (names: seq<string>)
      reads this
      ensures groupName !in groups ==> names == []
      ensures groupName in groups ==> names == groups[groupName]
    {
      if groupName in groups then groups[groupName] else []
    }

    /** `getGroup`: the group's registered middleware in list order; an
        unknown group gives `[]`. */
    function GetGroup(groupName: string): (r: seq<M>)
      reads this
      ensures groupName !in groups ==> r == []
      ensures |r| == |Known(GroupNames(groupName), middleware)|
      ensures forall i :: 0 <= i < |r| ==> r[i] == middleware[Known(GroupNames(groupName), middleware)[i]]
    {
      ResolveIsKnown(GroupNames(groupName), middleware);
      Resolve(GroupNames(groupName), middleware)
    }
  }

  /** The class-level `instance` slot behind the static `get`. */
  class Shared<M> {
    var instance: Option<MiddlewareRegistry<M>>

    constructor ()
      ensures instance == None
    {
      instance := None;
    }

    /** The static `get`: creates the registry on first use and returns
        that same one ever after. */
    method Get() returns (r: MiddlewareRegistry<M>)
      modifies this
      ensures old(instance).Some? ==> r == old(instance).value && instance == old(instance)
      ensures old(instance).None? ==> fresh(r) && r.middleware == map[] && r.groups == map[]
      ensures instance == Some(r)
    {
      if instance.None? {
        var created := new MiddlewareRegistry();
        instance := Some(created);
      }
      r := instance.value;
    }
  }

  /** Two uses of the static `get` give the same registry. */
  method SameInstance<M>(shared: Shared<M>) returns (a: MiddlewareRegistry<M>, b: MiddlewareRegistry<M>)
    modifies shared
    ensures a == b
  {
    a := shared.Get();
    b := shared.Get();
  }
}
