/** The document store's query matcher and update applier, `matchFilter` and
    `applyUpdate` of src/jdb/utils.ts. */
module JdbUtils {
  import opened Wrappers
  import opened Text
  import opened JsValues
  import opened JdbTypes

  /** What the matcher leaves to the JavaScript runtime: how a string
      converts to a number (`None` for NaN), and `new RegExp(target).test(val)`. */
  datatype Env = Env(toNumber: string -> Option<int>, regexTest: (Value, Value) -> bool)

  // ---------------------------------------------------------------------
  // Matching

  /** `target.includes(val)` needs a target that has an `includes` method:
      an array or a string. On anything else the source throws. */
  predicate IncludesTarget(target: Value) { target.Arr? || target.Str? }

  predicate OpWellFormed(op: string, target: Value) {
    (op == "$in" || op == "$nin") ==> IncludesTarget(target)
  }

  predicate FilterWellFormed(f: Filter)
    decreases f, 1
  {
    forall i :: 0 <= i < |f.clauses| ==> ClauseWellFormed(f.clauses[i])
  }

  predicate ClauseWellFormed(c: Clause)
    decreases c, 0
  {
    match c
    case OrClause(subs) => forall j :: 0 <= j < |subs| ==> FilterWellFormed(subs[j])
    case AndClause(subs) => forall j :: 0 <= j < |subs| ==> FilterWellFormed(subs[j])
    case FieldClause(key, cond) =>
      IsFieldKey(key)
      && (cond.Obj? ==> forall i :: 0 <= i < |cond.fields| ==> OpWellFormed(cond.fields[i].0, cond.fields[i].1))
  }

  /** `target.includes(val)`: an array tests its elements with `===`, a
      string tests for `String(val)` as a substring. */
  function TargetIncludes(target: Value, val: Value): (r: bool)
    requires IncludesTarget(target)
    ensures target.Arr? ==> (r <==> exists i :: 0 <= i < |target.items| && StrictEq(target.items[i], val))
    ensures target.Str? ==> (r <==> Contains(target.s, ToStr(val)))
  {
    if target.Arr? then Includes(target.items, val) else Contains(target.s, ToStr(val))
  }

  /** One operator of an operator object, applied to the document's value.
      A key that names no operator constrains nothing. */
  function OpHolds(env: Env, val: Value, op: string, target: Value): bool
    requires OpWellFormed(op, target)
  {
    match FilterOpOfKey(op)
    case None => true
    case Some(o) =>
      match o
      case Eq => StrictEq(val, target)
      case Ne => !StrictEq(val, target)
      case Gt => Compare(val, target, env.toNumber) == Some(1)
      case Gte => Compare(val, target, env.toNumber) in {Some(0), Some(1)}
      case Lt => Compare(val, target, env.toNumber) == Some(-1)
      case Lte => Compare(val, target, env.toNumber) in {Some(-1), Some(0)}
      case In => TargetIncludes(target, val)
      case Nin => !TargetIncludes(target, val)
      case Regex => env.regexTest(target, val)
  }

  /** The loop over an operator object's keys, which stops at the first
      operator that fails. */
  function OpsHoldFrom(env: Env, val: Value, ops: seq<(string, Value)>, k: nat): bool
    requires k <= |ops|
    requires forall i :: 0 <= i < |ops| ==> OpWellFormed(ops[i].0, ops[i].1)
    decreases |ops| - k
  {
    if k == |ops| then true
    else if !OpHolds(env, val, ops[k].0, ops[k].1) then false
    else OpsHoldFrom(env, val, ops, k + 1)
  }

  /** `matchFilter(doc, filter)`: the loop over the filter's keys, which
      stops at the first one that fails. */
  function MatchFilter(env: Env, doc: Fields, f: Filter): bool
    requires FilterWellFormed(f)
    decreases f, 2
  {
    MatchFrom(env, doc, f, 0)
  }

  function MatchFrom(env: Env, doc: Fields, f: Filter, k: nat): bool
    requires FilterWellFormed(f) && k <= |f.clauses|
    decreases f, 1, |f.clauses| - k
  {
    if k == |f.clauses| then true
    else if !ClauseHolds(env, doc, f.clauses[k]) then false
    else MatchFrom(env, doc, f, k + 1)
  }

  /** One key of a filter: `$or` needs some sub-filter to match (`some`),
      `$and` needs every one to (`every`); a field key reads `doc[key]` and
      applies an operator object to it, or compares it with `===`. */
  function ClauseHolds(env: Env, doc: Fields, c: Clause): bool
    requires ClauseWellFormed(c)
    decreases c, 2
  {
    match c
    case OrClause(subs) => SomeFrom(env, doc, c, 0)
    case AndClause(subs) => EveryFrom(env, doc, c, 0)
    case FieldClause(key, cond) =>
      var val := Get(doc, key);
      if cond.Obj? then OpsHoldFrom(env, val, cond.fields, 0) else StrictEq(val, cond)
  }

  function SomeFrom(env: Env, doc: Fields, c: Clause, j: nat): bool
    requires c.OrClause? && ClauseWellFormed(c) && j <= |c.subs|
    decreases c, 1, |c.subs| - j
  {
    if j == |c.subs| then false
    else if MatchFilter(env, doc, c.subs[j]) then true
    else SomeFrom(env, doc, c, j + 1)
  }

  function EveryFrom(env: Env, doc: Fields, c: Clause, j: nat): bool
    requires c.AndClause? && ClauseWellFormed(c) && j <= |c.subs|
    decreases c, 1, |c.subs| - j
  {
    if j == |c.subs| then true
    else if !MatchFilter(env, doc, c.subs[j]) then false
    else EveryFrom(env, doc, c, j + 1)
  }

  /** A filter is the conjunction of its keys; in particular `{}` matches
      every document. */
  lemma {:induction false} MatchFilterIsConjunction(env: Env, doc: Fields, f: Filter)
    requires FilterWellFormed(f)
    ensures MatchFilter(env, doc, f) <==>
      forall i :: 0 <= i < |f.clauses| ==> ClauseHolds(env, doc, f.clauses[i])
  {
    MatchFromIsConjunction(env, doc, f, 0);
  }

  lemma {:induction false} MatchFromIsConjunction(env: Env, doc: Fields, f: Filter, k: nat)
    requires FilterWellFormed(f) && k <= |f.clauses|
    ensures MatchFrom(env, doc, f, k) <==>
      forall i :: k <= i < |f.clauses| ==> ClauseHolds(env, doc, f.clauses[i])
    decreases |f.clauses| - k
  {
    if k < |f.clauses| {
      MatchFromIsConjunction(env, doc, f, k + 1);
    }
  }

  /** `$or` holds exactly when some sub-filter matches; an empty `$or`
      therefore matches nothing. */
  lemma {:induction false} OrIsDisjunction(env: Env, doc: Fields, subs: seq<Filter>)
    requires ClauseWellFormed(OrClause(subs))
    ensures ClauseHolds(env, doc, OrClause(subs)) <==>
      exists j :: 0 <= j < |subs| && MatchFilter(env, doc, subs[j])
  {
    SomeFromIsDisjunction(env, doc, OrClause(subs), 0);
  }

  lemma {:induction false} SomeFromIsDisjunction(env: Env, doc: Fields, c: Clause, j: nat)
    requires c.OrClause? && ClauseWellFormed(c) && j <= |c.subs|
    ensures SomeFrom(env, doc, c, j) <==>
      exists i :: j <= i < |c.subs| && MatchFilter(env, doc, c.subs[i])
    decreases |c.subs| - j
  {
    if j < |c.subs| {
      SomeFromIsDisjunction(env, doc, c, j + 1);
    }
  }

  /** `$and` holds exactly when every sub-filter matches; an empty `$and`
      therefore matches everything. */
  lemma {:induction false} AndIsConjunction(env: Env, doc: Fields, subs: seq<Filter>)
    requires ClauseWellFormed(AndClause(subs))
    ensures ClauseHolds(env, doc, AndClause(subs)) <==>
      forall j :: 0 <= j < |subs| ==> MatchFilter(env, doc, subs[j])
  {
    EveryFromIsConjunction(env, doc, AndClause(subs), 0);
  }

  lemma {:induction false} EveryFromIsConjunction(env: Env, doc: Fields, c: Clause, j: nat)
    requires c.AndClause? && ClauseWellFormed(c) && j <= |c.subs|
    ensures EveryFrom(env, doc, c, j) <==>
      forall i :: j <= i < |c.subs| ==> MatchFilter(env, doc, c.subs[i])
    decreases |c.subs| - j
  {
    if j < |c.subs| {
      EveryFromIsConjunction(env, doc, c, j + 1);
    }
  }

  /** An operator object holds exactly when each of its operators does. */
  lemma {:induction false} OpsHoldIsConjunction(env: Env, val: Value, ops: seq<(string, Value)>, k: nat)
    requires k <= |ops|
    requires forall i :: 0 <= i < |ops| ==> OpWellFormed(ops[i].0, ops[i].1)
    ensures OpsHoldFrom(env, val, ops, k) <==>
      forall i :: k <= i < |ops| ==> OpHolds(env, val, ops[i].0, ops[i].1)
    decreases |ops| - k
  {
    if k < |ops| {
      OpsHoldIsConjunction(env, val, ops, k + 1);
    }
  }

  /** A field key whose condition is a plain object holds when every
      operator in it holds; any other condition is compared with `===`, so
      an array condition matches only that very array. */
  lemma FieldClauseMeaning(env: Env, doc: Fields, key: string, cond: Value)
    requires ClauseWellFormed(FieldClause(key, cond))
    ensures cond.Obj? ==> (ClauseHolds(env, doc, FieldClause(key, cond)) <==>
      forall i :: 0 <= i < |cond.fields| ==> OpHolds(env, Get(doc, key), cond.fields[i].0, cond.fields[i].1))
    ensures !cond.Obj? ==> (ClauseHolds(env, doc, FieldClause(key, cond)) <==> StrictEq(Get(doc, key), cond))
  {
    if cond.Obj? {
      OpsHoldIsConjunction(env, Get(doc, key), cond.fields, 0);
    }
  }

  /** An object condition none of whose keys is an operator matches every
      document: nested objects are not compared field by field. */
  lemma NonOperatorObjectMatchesAll(env: Env, doc: Fields, key: string, r: nat, fields: seq<(string, Value)>)
    requires IsFieldKey(key)
    requires forall i :: 0 <= i < |fields| ==> FilterOpOfKey(fields[i].0).None?
    ensures ClauseWellFormed(FieldClause(key, Obj(r, fields)))
    ensures ClauseHolds(env, doc, FieldClause(key, Obj(r, fields)))
  {
    OpsHoldIsConjunction(env, Get(doc, key), fields, 0);
  }

  /** `$ne` is the negation of `$eq`, and `$nin` of `$in`. */
  lemma NegatedOperators(env: Env, val: Value, t: Value)
    requires IncludesTarget(t)
    ensures OpHolds(env, val, "$ne", t) == !OpHolds(env, val, "$eq", t)
    ensures OpHolds(env, val, "$nin", t) == !OpHolds(env, val, "$in", t)
  {
    assert FilterOpOfKey("$ne") == Some(Ne) && FilterOpOfKey("$eq") == Some(Eq);
    assert FilterOpOfKey("$nin") == Some(Nin) && FilterOpOfKey("$in") == Some(In);
  }

  /** `$gt`/`$lt` and `$gte`/`$lte` are mirror images of each other. */
  lemma MirroredOperators(env: Env, val: Value, u: Value)
    ensures OpHolds(env, val, "$gt", u) == OpHolds(env, u, "$lt", val)
    ensures OpHolds(env, val, "$gte", u) == OpHolds(env, u, "$lte", val)
  {
    assert FilterOpOfKey("$gt") == Some(Gt) && FilterOpOfKey("$lt") == Some(Lt);
    assert FilterOpOfKey("$gte") == Some(Gte) && FilterOpOfKey("$lte") == Some(Lte);
    CompareAntisymmetric(val, u, env.toNumber);
  }

  /** A missing field is `undefined`: every relational operator fails on
      it, and `$ne` with any defined value holds. */
  lemma MissingFieldComparisons(env: Env, doc: Fields, key: string, t: Value)
    requires key !in doc
    ensures !OpHolds(env, Get(doc, key), "$gt", t) && !OpHolds(env, Get(doc, key), "$gte", t)
    ensures !OpHolds(env, Get(doc, key), "$lt", t) && !OpHolds(env, Get(doc, key), "$lte", t)
    ensures !t.Undefined? ==> OpHolds(env, Get(doc, key), "$ne", t)
  {
  }

  /** `{age: {$gte: 18, $lt: 65}}` keeps ages in [18, 65) and nothing else
      numeric. */
  lemma AgeRangeExample(env: Env, age: int)
    ensures var f := Filter([FieldClause("age", Obj(0, [("$gte", Num(18)), ("$lt", Num(65))]))]);
      FilterWellFormed(f) && (MatchFilter(env, map["age" := Num(age)], f) <==> 18 <= age < 65)
  {
    var f := Filter([FieldClause("age", Obj(0, [("$gte", Num(18)), ("$lt", Num(65))]))]);
    var doc := map["age" := Num(age)];
    MatchFilterIsConjunction(env, doc, f);
    FieldClauseMeaning(env, doc, "age", f.clauses[0].cond);
  }

  /** Arrays are compared by identity: an equal-looking array condition does
      not match a document's own array. */
  lemma ArrayConditionIsIdentity(env: Env)
    ensures var doc := map["tags" := Arr(1, [Str("a")])];
      && MatchFilter(env, doc, Filter([FieldClause("tags", Arr(1, [Str("a")]))]))
      && !MatchFilter(env, doc, Filter([FieldClause("tags", Arr(2, [Str("a")]))]))
  {
  }

  // ---------------------------------------------------------------------
  // Updates

  /** JavaScript `a + b` where neither side is `undefined`: after making
      both primitive, a string on either side concatenates, otherwise the
      numbers add. */
  function Plus(a: Value, b: Value): (r: Value)
    requires !a.Undefined? && !b.Undefined?
    ensures a.Num? && b.Num? ==> r == Num(a.n + b.n)
    ensures a.Str? ==> r == Str(a.s + ToStr(b))
    ensures (a.Arr? || a.Obj?) ==> r == Str(ToStr(a) + ToStr(b))
  {
    var pa, pb := ToPrimitive(a), ToPrimitive(b);
    if pa.Str? || pb.Str? then Str(ToStr(pa) + ToStr(pb))
    else Num(ToNumeric(pa, _ => None).value + ToNumeric(pb, _ => None).value)
  }

  /** `$inc`: `(doc[key] || 0) + val`. */
  function IncValue(cur: Value, delta: Value): (r: Value)
    requires !delta.Undefined?
    ensures delta.Num? && (cur.Num? || cur.Undefined? || cur.Null?) ==>
      r == Num((if cur.Num? then cur.n else 0) + delta.n)
    ensures !Truthy(cur) ==> r == Plus(Num(0), delta)
    ensures delta.Num? && cur.Str? && cur.s != "" ==> r == Str(cur.s + IntToDecimal(delta.n))
  {
    Plus(if Truthy(cur) then cur else Num(0), delta)
  }

  /** `items.filter(item => item !== val)`. */
  function Without(items: seq<Value>, val: Value): (r: seq<Value>)
    ensures |r| <= |items|
    ensures forall i :: 0 <= i < |r| ==> !StrictEq(r[i], val)
    ensures forall x :: multiset(r)[x] == if StrictEq(x, val) then 0 else multiset(items)[x]
  {
    if |items| == 0 then []
    else
      var rest := Without(items[1..], val);
      assert items == [items[0]] + items[1..];
      if StrictEq(items[0], val) then rest else [items[0]] + rest
  }

  /** The document's fields while an update runs, and the next fresh array
      identity. */
  datatype UpdState = UpdState(fields: Fields, next: nat)

  predicate FieldsIncSafe(op: string, fields: seq<(string, Value)>) {
    op == "$inc" ==> forall i :: 0 <= i < |fields| ==> !fields[i].1.Undefined?
  }

  /** An `$inc` amount is never `undefined` (which would make the field NaN). */
  predicate UpdateIncSafe(u: Update) {
    forall i :: 0 <= i < |u.ops| ==> FieldsIncSafe(u.ops[i].0, u.ops[i].1)
  }

  /** One `key: val` pair under operator `op`. `$push` onto a non-array
      first stores a new empty array; `$pull` stores a new filtered array;
      an unknown operator does nothing. */
  function ApplyField(st: UpdState, op: string, key: string, val: Value): UpdState
    requires op == "$inc" ==> !val.Undefined?
  {
    match UpdateOpOfKey(op)
    case None => st
    case Some(o) =>
      match o
      case Set => st.(fields := st.fields[key := val])
      case Unset => st.(fields := st.fields - {key})
      case Inc => st.(fields := st.fields[key := IncValue(Get(st.fields, key), val)])
      case Push =>
        var cur := Get(st.fields, key);
        if cur.Arr? then st.(fields := st.fields[key := Arr(cur.ref, cur.items + [val])])
        else UpdState(st.fields[key := Arr(st.next, [val])], st.next + 1)
      case Pull =>
        var cur := Get(st.fields, key);
        if cur.Arr? then UpdState(st.fields[key := Arr(st.next, Without(cur.items, val))], st.next + 1)
        else st
  }

  /** The pairs of one operator, in order. */
  function ApplyFields(st: UpdState, op: string, fields: seq<(string, Value)>): UpdState
    requires FieldsIncSafe(op, fields)
    decreases |fields|
  {
    if |fields| == 0 then st
    else
      var last := fields[|fields| - 1];
      ApplyField(ApplyFields(st, op, fields[..|fields| - 1]), op, last.0, last.1)
  }

  /** The operators of an update, in order. */
  function ApplyOps(st: UpdState, ops: seq<(string, seq<(string, Value)>)>): UpdState
    requires forall i :: 0 <= i < |ops| ==> FieldsIncSafe(ops[i].0, ops[i].1)
    decreases |ops|
  {
    if |ops| == 0 then st
    else
      var last := ops[|ops| - 1];
      ApplyFields(ApplyOps(st, ops[..|ops| - 1]), last.0, last.1)
  }

  /** A document being updated in place. */
  class DocumentObject {
    var fields: Fields

    constructor (init: Fields)
      ensures fields == init
    {
      fields := init;
    }
  }

  /** `applyUpdate(doc, update)`: stamps `_updated` with the current time
      `now`, then applies every operator's pairs in order. New arrays take
      identities from `firstRef` on; the next unused one is returned. */
  method ApplyUpdate(doc: DocumentObject, update: Update, now: int, firstRef: nat) returns (nextRef: nat)
    requires UpdateIncSafe(update)
    modifies doc
    ensures UpdState(doc.fields, nextRef) == ApplyOps(UpdState(old(doc.fields)["_updated" := Num(now)], firstRef), update.ops)
  {
    doc.fields := doc.fields["_updated" := Num(now)];
    nextRef := firstRef;
    ghost var start := UpdState(doc.fields, nextRef);
    var i := 0;
    while i < |update.ops|
      invariant 0 <= i <= |update.ops|
      invariant UpdState(doc.fields, nextRef) == ApplyOps(start, update.ops[..i])
    {
      var op, fields := update.ops[i].0, update.ops[i].1;
      ghost var before := UpdState(doc.fields, nextRef);
      var j := 0;
      while j < |fields|
        invariant 0 <= j <= |fields|
        invariant UpdState(doc.fields, nextRef) == ApplyFields(before, op, fields[..j])
      {
        var key, val := fields[j].0, fields[j].1;
        ghost var pre := UpdState(doc.fields, nextRef);
        if op == "$set" {
          assert UpdateOpOfKey(op) == Some(Set);
          doc.fields := doc.fields[key := val];
        } else if op == "$unset" {
          assert UpdateOpOfKey(op) == Some(Unset);
          doc.fields := doc.fields - {key};
        } else if op == "$inc" {
          assert UpdateOpOfKey(op) == Some(Inc);
          doc.fields := doc.fields[key := IncValue(Get(doc.fields, key), val)];
        } else if op == "$push" {
          assert UpdateOpOfKey(op) == Some(Push);
          var cur := Get(doc.fields, key);
          if !cur.Arr? {
            doc.fields := doc.fields[key := Arr(nextRef, [])];
            nextRef := nextRef + 1;
          }
          var arr := doc.fields[key];
          assert arr.items + [val] == if cur.Arr? then cur.items + [val] else [val];
          doc.fields := doc.fields[key := Arr(arr.ref, arr.items + [val])];
        } else if op == "$pull" {
          assert UpdateOpOfKey(op) == Some(Pull);
          var cur := Get(doc.fields, key);
          if cur.Arr? {
            doc.fields := doc.fields[key := Arr(nextRef, Without(cur.items, val))];
            nextRef := nextRef + 1;
          }
        } else {
          assert UpdateOpOfKey(op) == None;
        }
        assert UpdState(doc.fields, nextRef) == ApplyField(pre, op, key, val);
        assert fields[..j + 1][..j] == fields[..j];
        j := j + 1;
      }
      assert fields[..j] == fields;
      assert update.ops[..i + 1][..i] == update.ops[..i];
      i := i + 1;
    }
    assert update.ops[..i] == update.ops;
  }

  // ---------------------------------------------------------------------
  // Properties of updates

  /** Does some pair under a known operator name field `k`? */
  predicate OpsNameKey(ops: seq<(string, seq<(string, Value)>)>, k: string) {
    exists i, j :: 0 <= i < |ops| && 0 <= j < |ops[i].1| && UpdateOpOfKey(ops[i].0).Some? && ops[i].1[j].0 == k
  }

  lemma {:induction false} ApplyFieldsFrame(st: UpdState, op: string, fields: seq<(string, Value)>, k: string)
    requires FieldsIncSafe(op, fields)
    requires UpdateOpOfKey(op).None? || forall j :: 0 <= j < |fields| ==> fields[j].0 != k
    ensures Get(ApplyFields(st, op, fields).fields, k) == Get(st.fields, k)
    ensures st.next <= ApplyFields(st, op, fields).next
    decreases |fields|
  {
    if |fields| > 0 {
      ApplyFieldsFrame(st, op, fields[..|fields| - 1], k);
    }
  }

  /** Fields that no pair names keep their values, and array identities are
      only ever taken fresh. */
  lemma {:induction false} ApplyOpsFrame(st: UpdState, ops: seq<(string, seq<(string, Value)>)>, k: string)
    requires forall i :: 0 <= i < |ops| ==> FieldsIncSafe(ops[i].0, ops[i].1)
    requires !OpsNameKey(ops, k)
    ensures Get(ApplyOps(st, ops).fields, k) == Get(st.fields, k)
    ensures st.next <= ApplyOps(st, ops).next
    decreases |ops|
  {
    if |ops| > 0 {
      var pre := ops[..|ops| - 1];
      var last := ops[|ops| - 1];
      forall i, j | 0 <= i < |pre| && 0 <= j < |pre[i].1| && UpdateOpOfKey(pre[i].0).Some?
        ensures pre[i].1[j].0 != k
      {
        assert pre[i] == ops[i];
      }
      ApplyOpsFrame(st, pre, k);
      ApplyFieldsFrame(ApplyOps(st, pre), last.0, last.1, k);
    }
  }

  /** After `applyUpdate`, `_updated` holds the current time unless the
      update itself writes `_updated`; every other field that no pair names
      is unchanged. */
  lemma UpdateStampsAndFrames(fields: Fields, update: Update, now: int, firstRef: nat, k: string)
    requires UpdateIncSafe(update)
    requires !OpsNameKey(update.ops, k)
    ensures var r := ApplyOps(UpdState(fields["_updated" := Num(now)], firstRef), update.ops);
      && Get(r.fields, k) == (if k == "_updated" then Num(now) else Get(fields, k))
      && firstRef <= r.next
  {
    ApplyOpsFrame(UpdState(fields["_updated" := Num(now)], firstRef), update.ops, k);
  }

  /** `$inc` on a number adds; on a missing field it starts from 0. */
  lemma IncExamples()
    ensures ApplyField(UpdState(map["count" := Num(10)], 0), "$inc", "count", Num(5)).fields["count"] == Num(15)
    ensures ApplyField(UpdState(map[], 0), "$inc", "count", Num(5)).fields["count"] == Num(5)
  {
  }

  /** `$push` appends to the array already there, keeping its identity. */
  lemma PushOntoArray()
    ensures var s := ApplyField(UpdState(map["tags" := Arr(3, [Str("a")])], 7), "$push", "tags", Str("b"));
      s.fields["tags"] == Arr(3, [Str("a"), Str("b")]) && s.next == 7
  {
    assert UpdateOpOfKey("$push") == Some(Push);
  }

  /** `$push` onto a missing field stores a new one-element array. */
  lemma PushOntoMissing()
    ensures var s := ApplyField(UpdState(map[], 7), "$push", "tags", Str("b"));
      s.fields["tags"] == Arr(7, [Str("b")]) && s.next == 8
  {
    assert UpdateOpOfKey("$push") == Some(Push);
  }

  /** `$pull` removes every element `===` the value, into a new array. */
  lemma PullEveryOccurrence()
    ensures ApplyField(UpdState(map["tags" := Arr(3, [Str("a"), Str("b"), Str("a")])], 7), "$pull", "tags", Str("a")).fields["tags"]
      == Arr(7, [Str("b")])
  {
    assert UpdateOpOfKey("$pull") == Some(Pull);
    var xs := [Str("a"), Str("b"), Str("a")];
    assert xs[1..] == [Str("b"), Str("a")];
    assert xs[1..][1..] == [Str("a")];
    assert Without([Str("a")], Str("a")) == [];
    assert Without([Str("b"), Str("a")], Str("a")) == [Str("b")];
  }

  /** Nothing protects the reserved fields: `$set` on `_id` replaces it, and
      a non-string `_id` leaves a value that is no longer a document. */
  lemma ReservedFieldsUnprotected(d: Document, now: int)
    ensures var r := ApplyOps(UpdState(d["_updated" := Num(now)], 0), [("$set", [("_id", Num(1))])]);
      !IsDocument(r.fields)
  {
    var ops: seq<(string, seq<(string, Value)>)> := [("$set", [("_id", Num(1))])];
    assert ops[..0] == [];
    assert ops[0].1[..0] == [];
  }
}
