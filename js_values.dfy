/** The JavaScript values that documents, filters, updates and request
    bodies carry. Numbers are integers. Arrays and objects carry a reference
    tag: two composite values are the same JavaScript object exactly when
    their tags agree, which is what `===` compares. */
module JsValues {
  import opened Wrappers
  import opened Text

  datatype Value =
    | Undefined
    | Null
    | Bool(b: bool)
    | Num(n: int)
    | Str(s: string)
    | Arr(ref: nat, items: seq<Value>)
    | Obj(ref: nat, fields: seq<(string, Value)>)

  /** JavaScript `===`: primitives by value, arrays and objects by identity. */
  predicate StrictEq(a: Value, b: Value) {
    match (a, b)
    case (Arr(r1, _), Arr(r2, _)) => r1 == r2
    case (Obj(r1, _), Obj(r2, _)) => r1 == r2
    case (Arr(_, _), _) => false
    case (Obj(_, _), _) => false
    case (_, Arr(_, _)) => false
    case (_, Obj(_, _)) => false
    case _ => a == b
  }

  lemma StrictEqSymmetric(a: Value, b: Value)
    ensures StrictEq(a, b) == StrictEq(b, a)
  {
  }

  /** `===` is reflexive in this domain (there is no NaN). */
  lemma StrictEqReflexive(a: Value)
    ensures StrictEq(a, a)
  {
  }

  /** JavaScript truthiness. */
  predicate Truthy(v: Value) {
    match v
    case Undefined => false
    case Null => false
    case Bool(b) => b
    case Num(n) => n != 0
    case Str(s) => s != ""
    case Arr(_, _) => true
    case Obj(_, _) => true
  }

  /** One key of an object spread `{ ...defaults, ...given }`: a key the
      caller gives, even as `undefined`, replaces the default. `None` is
      `undefined`; the outer `None` of `given` is a key not given. */
  function Override<T>(default: Option<T>, given: Option<Option<T>>): (r: Option<T>)
    ensures given.None? ==> r == default
    ensures given.Some? ==> r == given.value
  {
    if given.Some? then given.value else default
  }

  /** `Array.isArray`. */
  predicate IsArray(v: Value) { v.Arr? }

  /** `arr.includes(v)` (SameValueZero, which is `===` without NaN). */
  predicate Includes(items: seq<Value>, v: Value) {
    exists i :: 0 <= i < |items| && StrictEq(items[i], v)
  }

  /** JavaScript `String(v)`: arrays join their elements with "," (with
      `undefined` and `null` elements written as ""), plain objects give
      "[object Object]". */
  function ToStr(v: Value): string
    decreases v
  {
    match v
    case Undefined => "undefined"
    case Null => "null"
    case Bool(b) => if b then "true" else "false"
    case Num(n) => IntToDecimal(n)
    case Str(s) => s
    case Arr(_, items) => JoinElements(items)
    case Obj(_, _) => "[object Object]"
  }

  function JoinElements(items: seq<Value>): string
    decreases items
  {
    if |items| == 0 then ""
    else
      var first := if items[0].Undefined? || items[0].Null? then "" else ToStr(items[0]);
      if |items| == 1 then first else first + "," + JoinElements(items[1..])
  }

  /** Lexicographic order on strings, as JavaScript compares them. */
  predicate StrLess(a: string, b: string)
    decreases |a|
  {
    if |a| == 0 then |b| > 0
    else if |b| == 0 then false
    else if a[0] != b[0] then a[0] < b[0]
    else StrLess(a[1..], b[1..])
  }

  lemma {:induction false} StrLessIrreflexive(a: string)
    ensures !StrLess(a, a)
    decreases |a|
  {
    if |a| > 0 {
      StrLessIrreflexive(a[1..]);
    }
  }

  lemma {:induction false} StrLessAsymmetric(a: string, b: string)
    ensures StrLess(a, b) ==> !StrLess(b, a)
    decreases |a|
  {
    if |a| > 0 && |b| > 0 && a[0] == b[0] {
      StrLessAsymmetric(a[1..], b[1..]);
    }
  }

  lemma {:induction false} StrLessTotal(a: string, b: string)
    ensures a != b ==> StrLess(a, b) || StrLess(b, a)
    decreases |a|
  {
    if |a| > 0 && |b| > 0 && a[0] == b[0] {
      StrLessTotal(a[1..], b[1..]);
      if a[1..] == b[1..] {
        assert a == [a[0]] + a[1..] && b == [b[0]] + b[1..];
      }
    }
  }

  predicate IsPrimitive(v: Value) { !v.Arr? && !v.Obj? }

  /** ToPrimitive with the number hint: arrays and plain objects become
      their string form, everything else is already primitive. */
  function ToPrimitive(v: Value): (p: Value)
    ensures IsPrimitive(p)
    ensures IsPrimitive(v) ==> p == v
    ensures !IsPrimitive(v) ==> p == Str(ToStr(v))
  {
    if IsPrimitive(v) then v else Str(ToStr(v))
  }

  /** ToNumber of a primitive, with `None` for NaN. How a string converts
      is the parameter `toNumber`. */
  function ToNumeric(p: Value, toNumber: string -> Option<int>): Option<int>
    requires IsPrimitive(p)
  {
    match p
    case Undefined => None
    case Null => Some(0)
    case Bool(b) => Some(if b then 1 else 0)
    case Num(n) => Some(n)
    case Str(s) => toNumber(s)
  }

  function Sign(x: int, y: int): int {
    if x < y then -1 else if x == y then 0 else 1
  }

  /** JavaScript's abstract relational comparison of `a` with `b`, as -1, 0
      or 1, or `None` when either side converts to NaN (so `<`, `<=`, `>`
      and `>=` are all false). Both sides are first made primitive; two
      strings compare lexicographically, anything else numerically. */
  function Compare(a: Value, b: Value, toNumber: string -> Option<int>): (r: Option<int>)
    ensures r.Some? ==> -1 <= r.value <= 1
    ensures a.Undefined? || b.Undefined? ==> r.None?
    ensures a.Num? && b.Num? ==> r == Some(Sign(a.n, b.n))
    ensures a.Str? && b.Str? ==> r.Some? && (r.value == -1 <==> StrLess(a.s, b.s)) && (r.value == 0 <==> a.s == b.s)
  {
    var pa, pb := ToPrimitive(a), ToPrimitive(b);
    if pa.Str? && pb.Str? then
      StrLessIrreflexive(pa.s);
      Some(if StrLess(pa.s, pb.s) then -1 else if pa.s == pb.s then 0 else 1)
    else
      var x, y := ToNumeric(pa, toNumber), ToNumeric(pb, toNumber);
      if x.Some? && y.Some? then Some(Sign(x.value, y.value)) else None
  }

  /** Swapping the operands negates the outcome. */
  lemma CompareAntisymmetric(a: Value, b: Value, toNumber: string -> Option<int>)
    ensures Compare(a, b, toNumber).Some? <==> Compare(b, a, toNumber).Some?
    ensures Compare(a, b, toNumber).Some? ==> Compare(b, a, toNumber).value == -Compare(a, b, toNumber).value
  {
    var pa, pb := ToPrimitive(a), ToPrimitive(b);
    if pa.Str? && pb.Str? {
      StrLessAsymmetric(pa.s, pb.s);
      StrLessAsymmetric(pb.s, pa.s);
      StrLessTotal(pa.s, pb.s);
    }
  }
}
