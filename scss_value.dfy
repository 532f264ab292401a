/** SCSS variable bindings and `$name` substitution in property values
    (native/stylepack/src/scss/value.rs). */
module ScssValue {
  import opened Wrappers
  import opened ScssParser

  /** End of the run of identifier characters `[A-Za-z0-9_-]` at `k`. */
  function IdentEnd(s: string, k: nat): (j: nat)
    requires k <= |s|
    ensures k <= j <= |s|
    ensures forall m :: k <= m < j ==> IsIdentChar(s[m])
    ensures j < |s| ==> !IsIdentChar(s[j])
    decreases |s| - k
  {
    if k < |s| && IsIdentChar(s[k]) then IdentEnd(s, k + 1) else k
  }

  /** `read_ident`: the identifier starting at `k` and the index after it. */
  method ReadIdent(s: string, k: nat) returns (name: string, next: nat)
    requires k <= |s|
    ensures next == IdentEnd(s, k)
    ensures name == s[k..next]
  {
    next := k;
    while next < |s| && IsIdentChar(s[next])
      invariant k <= next <= |s|
      invariant IdentEnd(s, next) == IdentEnd(s, k)
    {
      next := next + 1;
    }
    name := s[k..next];
  }

  /** The text `resolve_value` produces from index `k` on: each `$name`
      whose name is bound is replaced by its value, an unbound one is kept
      as written, and every other character is copied. Scanning resumes
      after the name, so substituted text is never rescanned. */
  function ResolveFrom(s: string, vars: map<string, string>, k: nat): string
    requires k <= |s|
    decreases |s| - k
  {
    if k == |s| then ""
    else if s[k] == '$' && IdentEnd(s, k + 1) > k + 1 then
      var next := IdentEnd(s, k + 1);
      var name := s[k + 1..next];
      (if name in vars then vars[name] else "$" + name) + ResolveFrom(s, vars, next)
    else [s[k]] + ResolveFrom(s, vars, k + 1)
  }

  function Resolve(s: string, vars: map<string, string>): string {
    ResolveFrom(s, vars, 0)
  }

  /** The variable table. */
  class Vars {
    var bindings: map<string, string>

    constructor ()
      ensures bindings == map[]
    {
      bindings := map[];
    }

    /** `set`: binds `k` to `v`, replacing any earlier binding. */
    method Set(k: string, v: string)
      modifies this
      ensures bindings == old(bindings)[k := v]
    {
      bindings := bindings[k := v];
    }

    /** `get`: the latest value bound to `k`. */
    function Get(k: string): (r: Option<string>)
      reads this
      ensures r.Some? <==> k in bindings
      ensures r.Some? ==> r.value == bindings[k]
    {
      if k in bindings then Some(bindings[k]) else None
    }

    /** `resolve_value`. */
    method ResolveValue(s: string) returns (out: string)
      ensures out == Resolve(s, bindings)
    {
      out := "";
      var k := 0;
      while k < |s|
        invariant 0 <= k <= |s|
        invariant out + ResolveFrom(s, bindings, k) == Resolve(s, bindings)
        decreases |s| - k
      {
        if s[k] == '$' {
          var name, next := ReadIdent(s, k + 1);
          if name != [] {
            var v := Get(name);
            if v.Some? {
              out := out + v.value;
            } else {
              out := out + "$" + name;
            }
            k := next;
            continue;
          }
        }
        out := out + [s[k]];
        k := k + 1;
      }
    }
  }

  /** Text without a `$` comes back unchanged. */
  lemma {:induction false} NoDollarUnchanged(s: string, vars: map<string, string>, k: nat)
    requires k <= |s|
    requires '$' !in s
    ensures ResolveFrom(s, vars, k) == s[k..]
    decreases |s| - k
  {
    if k < |s| {
      NoDollarUnchanged(s, vars, k + 1);
    }
  }

  /** With nothing bound, every reference is kept as written, so the text
      comes back unchanged. */
  lemma {:induction false} UnboundUnchanged(s: string, k: nat)
    requires k <= |s|
    ensures ResolveFrom(s, map[], k) == s[k..]
    decreases |s| - k
  {
    if k < |s| {
      if s[k] == '$' && IdentEnd(s, k + 1) > k + 1 {
        var next := IdentEnd(s, k + 1);
        UnboundUnchanged(s, next);
        assert s[k..] == "$" + s[k + 1..next] + s[next..];
      } else {
        UnboundUnchanged(s, k + 1);
      }
    }
  }

  /** A bound reference is replaced, a `$` before a non-identifier character
      stays, and the substituted value is not scanned again. */
  lemma SubstitutionExamples()
    ensures Resolve("1px $c", map["c" := "red"]) == "1px red"
    ensures Resolve("$ 5", map["c" := "red"]) == "$ 5"
    ensures Resolve("$a", map["a" := "$b", "b" := "x"]) == "$b"
  {
    var s1 := "1px $c";
    assert IdentEnd(s1, 5) == 6;
    assert s1[5..6] == "c";
    var s2 := "$ 5";
    assert IdentEnd(s2, 1) == 1;
    var s3 := "$a";
    assert IdentEnd(s3, 1) == 2;
    assert s3[1..2] == "a";
  }
}
