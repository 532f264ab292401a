/** The embedded document store's data types: documents with their three
    reserved fields, filters, updates, query options, and the collection and
    engine interfaces, whose implementation is not part of this model. */
module JdbTypes {
  import opened Wrappers
  import opened JsValues

  /** A JavaScript object used as a document: field name to value. An absent
      field reads as `undefined`. */
  type Fields = map<string, Value>

  function Get(d: Fields, key: string): Value {
    if key in d then d[key] else Undefined
  }

  /** Every stored document carries a string `_id` and numeric `_created`
      and `_updated` beside its own fields. */
  predicate IsDocument(d: Fields) {
    && "_id" in d && d["_id"].Str?
    && "_created" in d && d["_created"].Num?
    && "_updated" in d && d["_updated"].Num?
  }

  type Document = d: Fields | IsDocument(d)
    witness map["_id" := Str(""), "_created" := Num(0), "_updated" := Num(0)]

  /** What `insert` accepts: no `_created`/`_updated`, and an `_id` only
      when the caller supplies a string. */
  predicate Insertable(d: Fields) {
    "_created" !in d && "_updated" !in d && ("_id" in d ==> d["_id"].Str?)
  }

  // ---------------------------------------------------------------------
  // Filters

  /** The nine filter operators. */
  datatype FilterOp = Eq | Ne | Gt | Gte | Lt | Lte | In | Nin | Regex

  function FilterOpKey(op: FilterOp): string {
    match op
    case Eq => "$eq"
    case Ne => "$ne"
    case Gt => "$gt"
    case Gte => "$gte"
    case Lt => "$lt"
    case Lte => "$lte"
    case In => "$in"
    case Nin => "$nin"
    case Regex => "$regex"
  }

  /** The operator an operator-object key names; any other key names none. */
  function FilterOpOfKey(k: string): (r: Option<FilterOp>)
    ensures r.Some? ==> FilterOpKey(r.value) == k
    ensures r.None? ==> forall op: FilterOp :: FilterOpKey(op) != k
  {
    if k == "$eq" then Some(Eq)
    else if k == "$ne" then Some(Ne)
    else if k == "$gt" then Some(Gt)
    else if k == "$gte" then Some(Gte)
    else if k == "$lt" then Some(Lt)
    else if k == "$lte" then Some(Lte)
    else if k == "$in" then Some(In)
    else if k == "$nin" then Some(Nin)
    else if k == "$regex" then Some(Regex)
    else None
  }

  /** The operator keys are exactly the nine listed. */
  lemma FilterOpKeysExactlyNine()
    ensures forall k :: FilterOpOfKey(k).Some? <==>
      k in {"$eq", "$ne", "$gt", "$gte", "$lt", "$lte", "$in", "$nin", "$regex"}
    ensures forall op: FilterOp :: FilterOpOfKey(FilterOpKey(op)) == Some(op)
  {
    forall op: FilterOp ensures FilterOpOfKey(FilterOpKey(op)) == Some(op) {
      match op
      case Eq => case Ne => case Gt => case Gte => case Lt => case Lte =>
      case In => case Nin => case Regex =>
    }
  }

  /** A filter object: its top-level keys in enumeration order. `$or` and
      `$and` hold lists of sub-filters; any other key names a document field
      and holds a condition, which is an operator object when it is a plain
      (non-null, non-array) object and a value to compare otherwise. */
  datatype Filter = Filter(clauses: seq<Clause>)

  datatype Clause =
    | OrClause(subs: seq<Filter>)
    | AndClause(subs: seq<Filter>)
    | FieldClause(key: string, cond: Value)

  /** The keys a field clause can carry: `matchFilter` reads `$or` and
      `$and` as logical clauses, so no filter object gives a field clause
      under either of them. */
  predicate IsFieldKey(key: string) {
    key != "$or" && key != "$and"
  }

  // ---------------------------------------------------------------------
  // Updates

  /** The five update operators. */
  datatype UpdateOp = Set | Unset | Inc | Push | Pull

  function UpdateOpKey(op: UpdateOp): string {
    match op
    case Set => "$set"
    case Unset => "$unset"
    case Inc => "$inc"
    case Push => "$push"
    case Pull => "$pull"
  }

  function UpdateOpOfKey(k: string): (r: Option<UpdateOp>)
    ensures r.Some? ==> UpdateOpKey(r.value) == k
    ensures r.None? ==> forall op: UpdateOp :: UpdateOpKey(op) != k
  {
    if k == "$set" then Some(Set)
    else if k == "$unset" then Some(Unset)
    else if k == "$inc" then Some(Inc)
    else if k == "$push" then Some(Push)
    else if k == "$pull" then Some(Pull)
    else None
  }

  lemma UpdateOpKeysExactlyFive()
    ensures forall k :: UpdateOpOfKey(k).Some? <==> k in {"$set", "$unset", "$inc", "$push", "$pull"}
    ensures forall op: UpdateOp :: UpdateOpOfKey(UpdateOpKey(op)) == Some(op)
  {
    forall op: UpdateOp ensures UpdateOpOfKey(UpdateOpKey(op)) == Some(op) {
      match op
      case Set => case Unset => case Inc => case Push => case Pull =>
    }
  }

  /** An update object: operator keys in enumeration order, each with its
      field/value pairs in enumeration order. */
  datatype Update = Update(ops: seq<(string, seq<(string, Value)>)>)

  // ---------------------------------------------------------------------
  // Query options

  /** Sort directions are only 1 (ascending) and -1 (descending). */
  datatype SortDir = Asc | Desc

  function SortDirValue(d: SortDir): (v: int)
    ensures v == 1 || v == -1
    ensures (v == 1) <==> d == Asc
  {
    if d == Asc then 1 else -1
  }

  datatype QueryOptions = QueryOptions(limit: Option<int>, skip: Option<int>, sort: Option<seq<(string, SortDir)>>)

  // ---------------------------------------------------------------------
  // The collection and engine interfaces, as calls and the shapes of their replies

  datatype CollectionCall =
    | InsertCall(doc: Fields)
    | InsertManyCall(docs: seq<Fields>)
    | FindOneCall(filter: Filter)
    | FindCall(filter: Filter, options: Option<QueryOptions>)
    | UpdateCall(filter: Filter, update: Update, multi: Option<bool>)
    | DeleteCall(filter: Filter, multi: Option<bool>)
    | CountCall(filter: Filter)

  datatype CollectionReply =
    | OneDocument(doc: Document)
    | Documents(docs: seq<Document>)
    | DocumentOrNull(found: Option<Document>)
    | Number(n: int)

  /** A call the interface's parameter types admit. */
  predicate CallWellTyped(c: CollectionCall) {
    match c
    case InsertCall(d) => Insertable(d)
    case InsertManyCall(ds) => forall i :: 0 <= i < |ds| ==> Insertable(ds[i])
    case _ => true
  }

  /** The reply shape each operation's signature promises: `insert` a full
      document, `insertMany` a list of them, `findOne` a document or null,
      `find` a list, and `update`, `delete` and `count` a number. */
  function ReplyShape(c: CollectionCall): (r: CollectionReply -> bool)
    ensures forall d: Document :: r(OneDocument(d)) <==> c.InsertCall?
    ensures forall ds: seq<Document> :: r(Documents(ds)) <==> (c.InsertManyCall? || c.FindCall?)
    ensures forall o: Option<Document> :: r(DocumentOrNull(o)) <==> c.FindOneCall?
    ensures forall n: int :: r(Number(n)) <==> (c.UpdateCall? || c.DeleteCall? || c.CountCall?)
  {
    match c
    case InsertCall(_) => (reply: CollectionReply) => reply.OneDocument?
    case InsertManyCall(_) => (reply: CollectionReply) => reply.Documents?
    case FindOneCall(_) => (reply: CollectionReply) => reply.DocumentOrNull?
    case FindCall(_, _) => (reply: CollectionReply) => reply.Documents?
    case UpdateCall(_, _, _) => (reply: CollectionReply) => reply.Number?
    case DeleteCall(_, _) => (reply: CollectionReply) => reply.Number?
    case CountCall(_) => (reply: CollectionReply) => reply.Number?
  }

  /** The engine interface: connect, disconnect, and obtaining a collection
      handle by name. */
  datatype EngineCall = Connect | Disconnect | CollectionHandle(name: string)
}
