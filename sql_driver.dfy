/** The generic SQL driver (src/db/drivers/sql.ts): identifier validation,
    the table allow-list, translation of a find query into a parameterised
    `SELECT`, and the CRUD shortcuts. The query executor is a recorded call:
    each execution appends the SQL text and parameters to a log. What the
    connection answers, rows or a rejection, is given by the caller; a
    driver built without a usable connection answers every call with the
    stub's rejection. */
module SqlDriver {
  import opened Wrappers
  import opened Text
  import opened JsValues

  // ---------------------------------------------------------------------
  // Identifiers and integers

  /** `quoteIdentifier`: an identifier wrapped in backticks; anything else
      (the empty string included) is refused. */
  function QuoteIdentifier(id: string): (r: Result<string>)
    ensures r.Ok? <==> IsIdentifier(id)
    ensures r.Ok? ==> r.value == "`" + id + "`"
  {
    if id == [] || !IsIdentifier(id) then
      Err("Invalid SQL identifier: " + id + ". Only alphanumeric, underscore, and dollar sign allowed. Must start with letter, underscore, or dollar.")
    else Ok("`" + id + "`")
  }

  /** `validateInteger`: `parseInt(String(value), 10)`, refused when it is
      not a number or is negative. */
  function ValidateInteger(v: Value): (r: Result<int>)
    ensures r.Ok? ==> r.value >= 0
    ensures v.Num? && v.n >= 0 ==> r == Ok(v.n)
    ensures v.Num? && v.n < 0 ==> r.Err?
  {
    if v.Num? then ParseIntDecimal(v.n); ValidateParsed(v)
    else ValidateParsed(v)
  }

  function ValidateParsed(v: Value): (r: Result<int>)
    ensures r.Ok? ==> r.value >= 0
  {
    match ParseInt10(ToStr(v))
    case None => Err("Invalid integer value: " + ToStr(v))
    case Some(n) => if n < 0 then Err("Invalid integer value: " + ToStr(v)) else Ok(n)
  }

  /** `limit: true` is refused: `"true"` does not parse. */
  lemma BooleanRefused()
    ensures ValidateInteger(Bool(true)).Err?
  {
    var t := "true";
    assert !IsJsSpace(t[0]);
    assert TrimStart(t, IsJsSpace) == t;
    assert !IsAsciiDigit(t[0]);
    assert DigitRun(t) == 0;
  }

  // ---------------------------------------------------------------------
  // The allow-list

  /** The module-level set of registered table names. */
  class AllowList {
    var tables: set<string>

    /** Only identifiers are ever registered. */
    predicate Valid()
      reads this
    {
      forall t :: t in tables ==> IsIdentifier(t)
    }

    constructor ()
      ensures tables == {} && Valid()
    {
      tables := {};
    }

    /** `registerAllowedTable`: adds an identifier, refuses anything else;
        the set only grows. */
    method Register(name: string) returns (r: Result<()>)
      requires Valid()
      modifies this
      ensures Valid()
      ensures r.Ok? <==> IsIdentifier(name)
      ensures r.Ok? ==> tables == old(tables) + {name}
      ensures r.Err? ==> tables == old(tables)
    {
      if IsIdentifier(name) {
        tables := tables + {name};
        r := Ok(());
      } else {
        r := Err("Invalid table name: " + name + ". Must start with letter, underscore, or dollar. Only alphanumeric, underscore, and dollar allowed.");
      }
    }

    /** `isTableAllowed`. */
    function IsAllowed(name: string): (b: bool)
      reads this
      ensures b <==> name in tables
    {
      name in tables
    }
  }

  // ---------------------------------------------------------------------
  // Query translation

  /** A record's entries in key order, as `Object.keys` enumerates them. */
  type Record = seq<(string, Value)>

  /** The find form of a unified query: the table, an optional where record,
      and the `limit` and `skip` options as given (absent ones `undefined`). */
  datatype FindQuery = FindQuery(find: string, where: Option<Record>, limit: Value, skip: Value)

  datatype Query =
    | RawSql(text: string)
    | SqlWithParams(sql: string, params: Option<seq<Value>>)
    | Find(q: FindQuery)

  function NotRegistered(t: string): string {
    "Table '" + t + "' not registered. Call registerAllowedTable() first."
  }

  function InvalidColumn(k: string): string {
    "Invalid column name: " + k + ". Must start with letter, underscore, or dollar. Only alphanumeric, underscore, and dollar allowed."
  }

  /** The condition a where key yields. */
  function Condition(k: string): string {
    "`" + k + "` = ?"
  }

  /** The conditions and parameters of the first `|w|` where entries, or
      the error for the first invalid column name. */
  function WhereParts(w: Record): (r: Result<(seq<string>, seq<Value>)>)
    ensures r.Ok? ==> |r.value.0| == |w| && |r.value.1| == |w|
    ensures r.Ok? ==> forall i :: 0 <= i < |w| ==> r.value.0[i] == Condition(w[i].0) && r.value.1[i] == w[i].1
    ensures r.Ok? <==> forall i :: 0 <= i < |w| ==> IsIdentifier(w[i].0)
  {
    if w == [] then Ok(([], []))
    else
      var n := |w| - 1;
      match WhereParts(w[..n])
      case Err(e) => Err(e)
      case Ok(parts) =>
        if !IsIdentifier(w[n].0) then Err(InvalidColumn(w[n].0))
        else Ok((parts.0 + [Condition(w[n].0)], parts.1 + [w[n].1]))
  }

  /** The `WHERE` part and the parameters: nothing for a missing or empty
      record. */
  function WhereText(w: Option<Record>): (r: Result<(string, seq<Value>)>)
    ensures (w.None? || w.value == []) ==> r == Ok(("", []))
  {
    if w.Some? && |w.value| > 0 then
      match WhereParts(w.value)
      case Err(e) => Err(e)
      case Ok(parts) => Ok((" WHERE " + Join(parts.0, " AND "), parts.1))
    else Ok(("", []))
  }

  /** The `LIMIT` or `OFFSET` part: nothing for a falsy option. */
  function OptionText(v: Value, keyword: string): (r: Result<string>)
    ensures !Truthy(v) ==> r == Ok("")
    ensures v.Num? && v.n > 0 ==> r == Ok(keyword + IntToDecimal(v.n))
    ensures v.Num? && v.n < 0 ==> r.Err?
  {
    if Truthy(v) then
      match ValidateInteger(v)
      case Err(e) => Err(e)
      case Ok(n) => Ok(keyword + IntToDecimal(n))
    else Ok("")
  }

  /** The `SELECT` text and parameters `translateQuery` produces for a query
      against the registered tables, or the error it throws. */
  function Translate(tables: set<string>, q: FindQuery): Result<(string, seq<Value>)> {
    if q.find !in tables then Err(NotRegistered(q.find))
    else
      match QuoteIdentifier(q.find)
      case Err(e) => Err(e)
      case Ok(table) =>
        match WhereText(q.where)
        case Err(e) => Err(e)
        case Ok(wp) =>
          match OptionText(q.limit, " LIMIT ")
          case Err(e) => Err(e)
          case Ok(limitText) =>
            match OptionText(q.skip, " OFFSET ")
            case Err(e) => Err(e)
            case Ok(skipText) => Ok(("SELECT * FROM " + table + wp.0 + limitText + skipText, wp.1))
  }

  /** A table that was never registered is refused whatever else the query
      says. */
  lemma UnregisteredRefused(tables: set<string>, q: FindQuery)
    requires q.find !in tables
    ensures Translate(tables, q) == Err(NotRegistered(q.find))
  {
  }

  /** An invalid column name is refused. */
  lemma InvalidColumnRefused(tables: set<string>, q: FindQuery, i: nat)
    requires q.find in tables && IsIdentifier(q.find)
    requires q.where.Some? && i < |q.where.value| && !IsIdentifier(q.where.value[i].0)
    ensures Translate(tables, q).Err?
  {
  }

  /** A negative limit is refused; a zero limit or skip adds nothing. */
  lemma LimitRules(tables: set<string>, q: FindQuery)
    requires q.find in tables && IsIdentifier(q.find)
    requires q.where.None?
    ensures q.limit.Num? && q.limit.n < 0 ==> Translate(tables, q).Err?
    ensures q.limit == Num(0) && q.skip == Num(0) ==>
      Translate(tables, q) == Ok(("SELECT * FROM `" + q.find + "`", []))
    ensures q.limit.Num? && q.limit.n > 0 && q.skip == Undefined ==>
      Translate(tables, q) == Ok(("SELECT * FROM `" + q.find + "` LIMIT " + IntToDecimal(q.limit.n), []))
  {
    assert WhereText(q.where) == Ok(("", []));
    assert "SELECT * FROM " + ("`" + q.find + "`") + "" + "" + "" == "SELECT * FROM `" + q.find + "`";
    if q.limit.Num? && q.limit.n > 0 && q.skip == Undefined {
      assert "SELECT * FROM " + ("`" + q.find + "`") + "" + (" LIMIT " + IntToDecimal(q.limit.n)) + ""
        == "SELECT * FROM `" + q.find + "` LIMIT " + IntToDecimal(q.limit.n);
    }
  }

  /** With valid names and no options, the text is the `SELECT` with one
      `` `key` = ? `` per where entry joined by ` AND `, and the parameters
      are the where values in the same order. */
  lemma TranslateWhere(tables: set<string>, q: FindQuery)
    requires q.find in tables && IsIdentifier(q.find)
    requires q.where.Some? && |q.where.value| > 0
    requires forall i :: 0 <= i < |q.where.value| ==> IsIdentifier(q.where.value[i].0)
    requires !Truthy(q.limit) && !Truthy(q.skip)
    ensures Translate(tables, q).Ok?
    ensures var w := q.where.value;
      Translate(tables, q).value ==
        ("SELECT * FROM `" + q.find + "` WHERE " + Join(WhereParts(w).value.0, " AND "), WhereParts(w).value.1)
    ensures var w := q.where.value;
      forall i :: 0 <= i < |w| ==> WhereParts(w).value.0[i] == Condition(w[i].0) && WhereParts(w).value.1[i] == w[i].1
  {
    var w := q.where.value;
    var parts := WhereParts(w).value;
    assert WhereText(q.where) == Ok((" WHERE " + Join(parts.0, " AND "), parts.1));
    assert QuoteIdentifier(q.find) == Ok("`" + q.find + "`");
    assert OptionText(q.limit, " LIMIT ") == Ok("") && OptionText(q.skip, " OFFSET ") == Ok("");
    var j := Join(parts.0, " AND ");
    assert Translate(tables, q) == Ok(("SELECT * FROM " + ("`" + q.find + "`") + (" WHERE " + j) + "" + "", parts.1));
    assert "SELECT * FROM " + ("`" + q.find + "`") + (" WHERE " + j) + "" + ""
      == "SELECT * FROM `" + q.find + "` WHERE " + j;
  }

  // ---------------------------------------------------------------------
  // The driver

  /** One call of the query executor. */
  datatype ExecCall = ExecCall(sql: string, params: seq<Value>)

  /** The SQL text `create` runs. */
  function InsertSql(table: string, keys: seq<string>): string {
    var quoted := seq(|keys|, i requires 0 <= i < |keys| => "`" + keys[i] + "`");
    var marks := seq(|keys|, i requires 0 <= i < |keys| => "?");
    "INSERT INTO `" + table + "` (" + Join(quoted, ",") + ") VALUES (" + Join(marks, ",") + ")"
  }

  function Keys(d: Record): (ks: seq<string>)
    ensures |ks| == |d| && forall i :: 0 <= i < |d| ==> ks[i] == d[i].0
  {
    seq(|d|, i requires 0 <= i < |d| => d[i].0)
  }

  function Values(d: Record): (vs: seq<Value>)
    ensures |vs| == |d| && forall i :: 0 <= i < |d| ==> vs[i] == d[i].1
  {
    seq(|d|, i requires 0 <= i < |d| => d[i].1)
  }

  /** The index of the first key that is not an identifier. */
  function FirstBadKey(keys: seq<string>): (r: Option<nat>)
    ensures r.Some? ==> r.value < |keys| && !IsIdentifier(keys[r.value])
    ensures r.Some? ==> forall i :: 0 <= i < r.value ==> IsIdentifier(keys[i])
    ensures r.None? <==> forall i :: 0 <= i < |keys| ==> IsIdentifier(keys[i])
  {
    if keys == [] then None
    else if !IsIdentifier(keys[0]) then Some(0)
    else match FirstBadKey(keys[1..])
      case None => None
      case Some(k) => Some(k + 1)
  }

  /** The first key that is not an identifier is the one `FirstBadKey`
      names. */
  lemma FirstBadKeyAt(keys: seq<string>, i: nat)
    requires i < |keys| && !IsIdentifier(keys[i])
    requires forall m :: 0 <= m < i ==> IsIdentifier(keys[m])
    ensures FirstBadKey(keys) == Some(i)
  {
    var r := FirstBadKey(keys);
    assert r.Some?;
    assert !(r.value < i) && !(i < r.value);
  }

  /** `create`'s loop over the keys: the index of the first one that is not
      an identifier, if any. */
  method CheckKeys(keys: seq<string>) returns (bad: Option<nat>)
    ensures bad == FirstBadKey(keys)
  {
    for i := 0 to |keys|
      invariant forall m :: 0 <= m < i ==> IsIdentifier(keys[m])
    {
      if !IsIdentifier(keys[i]) {
        FirstBadKeyAt(keys, i);
        return Some(i);
      }
    }
    return None;
  }

  /** The text `delete` runs, as written: `replace` with the string
      `SELECT \*`, which a translated query never contains. */
  function DeleteSqlAsWritten(select: string): string {
    ReplaceFirst(select, "SELECT \\*", "DELETE")
  }

  /** The text `delete` evidently means to run: the `SELECT *` head turned
      into `DELETE`. */
  function DeleteSql(select: string): string {
    ReplaceFirst(select, "SELECT *", "DELETE")
  }

  /** The `count` text: the `SELECT *` head turned into a count. */
  function CountSql(select: string): string {
    ReplaceFirst(select, "SELECT *", "SELECT COUNT(*) as count")
  }

  /** `res[0]?.count || 0`. */
  function CountOf(rows: seq<Value>): (c: Value)
    ensures Truthy(c) || c == Num(0)
  {
    if rows != [] && rows[0].Obj? then
      var c := FieldOr(rows[0].fields, "count");
      if Truthy(c) then c else Num(0)
    else Num(0)
  }

  /** A property of a plain object, `undefined` when absent. */
  function FieldOr(fields: seq<(string, Value)>, k: string): Value {
    if fields == [] then Undefined
    else if fields[0].0 == k then fields[0].1
    else FieldOr(fields[1..], k)
  }

  // ---------------------------------------------------------------------
  // The executor

  /** What `config.connection` holds: a function, an object such as a pool
      or a client, with or without a truthy `query`, or nothing usable. */
  datatype Connection = FunctionConnection | ObjectConnection(hasQuery: bool) | NoConnection

  /** The constructor's choice: a function is the executor, an object with
      `query` is called through it, and anything else gets the stub. */
  predicate HasExecutor(c: Connection) {
    c.FunctionConnection? || (c.ObjectConnection? && c.hasQuery)
  }

  /** The rejection of the stub executor. */
  const NoSqlConnection := "No SQL connection provided to SQLDriver"

  /** How one executor call settles: with the connection's own answer when
      the driver has an executor, and with the stub's rejection when not. */
  function Executed(connected: bool, answer: Result<seq<Value>>): (r: Result<seq<Value>>)
    ensures !connected ==> r == Err(NoSqlConnection)
    ensures connected ==> r == answer
  {
    if connected then answer else Err(NoSqlConnection)
  }

  /** `await this.executor(...)` followed by `return v`: a rejection is
      passed on to the caller unchanged, and only a resolved call returns
      `v`. */
  function AfterRun<T>(e: Result<seq<Value>>, v: T): (r: Result<T>)
    ensures r.Ok? <==> e.Ok?
    ensures r.Ok? ==> r.value == v
    ensures r.Err? ==> r.msg == e.msg
  {
    if e.Ok? then Ok(v) else Err(e.msg)
  }

  /** The error `delete` throws for a missing or empty filter. */
  const EmptyDeleteFilter := "Delete requires at least one filter condition. Use truncate or raw SQL for full table deletion."

  class SqlDriverState {
    /** The allow-list shared by every driver. */
    const allowed: AllowList
    /** Whether the constructor found a usable connection; without one the
        executor is the stub that always rejects. */
    const connected: bool
    /** Every executor call so far, oldest first. */
    var calls: seq<ExecCall>

    constructor (allowed: AllowList, connection: Connection)
      ensures this.allowed == allowed && calls == []
      ensures connected <==> HasExecutor(connection)
    {
      this.allowed := allowed;
      connected := HasExecutor(connection);
      calls := [];
    }

    /** `translateQuery`. */
    method TranslateQuery(q: FindQuery) returns (r: Result<(string, seq<Value>)>)
      ensures r == Translate(allowed.tables, q)
    {
      if !allowed.IsAllowed(q.find) {
        return Err(NotRegistered(q.find));
      }
      var table :- QuoteIdentifier(q.find);
      var sql := "SELECT * FROM " + table;
      var wp :- BuildWhere(q.where);
      sql := sql + wp.0;
      var limitText :- OptionText(q.limit, " LIMIT ");
      sql := sql + limitText;
      var skipText :- OptionText(q.skip, " OFFSET ");
      sql := sql + skipText;
      r := Ok((sql, wp.1));
    }

    /** `query`: a string runs as is with no parameters, an `{sql, params}`
        object with its parameters or none, and a find query as its
        translation. The connection's answer to the call is `answer`. */
    method RunQuery(q: Query, answer: Result<seq<Value>>) returns (r: Result<seq<Value>>)
      modifies this
      ensures q.RawSql? ==> r == Executed(connected, answer) && calls == old(calls) + [ExecCall(q.text, [])]
      ensures q.SqlWithParams? ==>
        r == Executed(connected, answer) && calls == old(calls) + [ExecCall(q.sql, q.params.GetOr([]))]
      ensures q.Find? ==>
        match Translate(allowed.tables, q.q)
        case Err(e) => r == Err(e) && calls == old(calls)
        case Ok(t) => r == Executed(connected, answer) && calls == old(calls) + [ExecCall(t.0, t.1)]
    {
      match q
      case RawSql(text) =>
        calls := calls + [ExecCall(text, [])];
        r := Executed(connected, answer);
      case SqlWithParams(sql, params) =>
        calls := calls + [ExecCall(sql, params.GetOr([]))];
        r := Executed(connected, answer);
      case Find(fq) =>
        var t := TranslateQuery(fq);
        if t.Err? {
          return Err(t.msg);
        }
        calls := calls + [ExecCall(t.value.0, t.value.1)];
        r := Executed(connected, answer);
    }

    /** `create`: checks the table and every key, runs one `INSERT` with one
        `?` and one parameter per key in key order, and returns the input
        once the executor resolves. */
    method Create(collection: string, data: Record, answer: Result<seq<Value>>) returns (r: Result<Record>)
      modifies this
      ensures collection !in allowed.tables ==> r == Err(NotRegistered(collection)) && calls == old(calls)
      ensures collection in allowed.tables && FirstBadKey(Keys(data)).Some? ==>
        r == Err(InvalidColumn(Keys(data)[FirstBadKey(Keys(data)).value])) && calls == old(calls)
      ensures collection in allowed.tables && FirstBadKey(Keys(data)).None? ==>
        r == AfterRun(Executed(connected, answer), data)
        && calls == old(calls) + [ExecCall(InsertSql(collection, Keys(data)), Values(data))]
    {
      if !allowed.IsAllowed(collection) {
        return Err(NotRegistered(collection));
      }
      var keys := Keys(data);
      var bad := CheckKeys(keys);
      if bad.Some? {
        return Err(InvalidColumn(keys[bad.value]));
      }
      calls := calls + [ExecCall(InsertSql(collection, keys), Values(data))];
      r := AfterRun(Executed(connected, answer), data);
    }

    /** `update`: not implemented, always throws and runs nothing. */
    method Update(collection: string, filter: Record, update: Record) returns (r: Result<int>)
      ensures r == Err("Complex update translation not implemented for Generic SQL Driver yet. Use raw SQL.")
    {
      r := Err("Complex update translation not implemented for Generic SQL Driver yet. Use raw SQL.");
    }

    /** `delete`: checks the table, refuses a missing or empty filter, runs
        the translated text through the `replace` as written, and answers 1
        once the executor resolves. */
    method Delete(collection: string, filter: Option<Record>, answer: Result<seq<Value>>) returns (r: Result<int>)
      modifies this
      ensures collection !in allowed.tables ==> r == Err(NotRegistered(collection)) && calls == old(calls)
      ensures collection in allowed.tables && (filter.None? || filter.value == []) ==> r == Err(EmptyDeleteFilter) && calls == old(calls)
      ensures collection in allowed.tables && filter.Some? && filter.value != [] ==>
        match Translate(allowed.tables, FindQuery(collection, filter, Undefined, Undefined))
        case Err(e) => r == Err(e) && calls == old(calls)
        case Ok(t) =>
          r == AfterRun(Executed(connected, answer), 1)
          && calls == old(calls) + [ExecCall(DeleteSqlAsWritten(t.0), t.1)]
    {
      if !allowed.IsAllowed(collection) {
        return Err(NotRegistered(collection));
      }
      if filter.None? || filter.value == [] {
        return Err(EmptyDeleteFilter);
      }
      var t := TranslateQuery(FindQuery(collection, filter, Undefined, Undefined));
      if t.Err? {
        return Err(t.msg);
      }
      calls := calls + [ExecCall(DeleteSqlAsWritten(t.value.0), t.value.1)];
      r := AfterRun(Executed(connected, answer), 1);
    }

    /** `count`: the translated text with its head turned into a count, and
        the `count` column of the first row, or 0, once the executor
        resolves. */
    method Count(collection: string, filter: Option<Record>, answer: Result<seq<Value>>) returns (r: Result<Value>)
      modifies this
      ensures collection !in allowed.tables ==> r == Err(NotRegistered(collection)) && calls == old(calls)
      ensures collection in allowed.tables ==>
        match Translate(allowed.tables, FindQuery(collection, filter, Undefined, Undefined))
        case Err(e) => r == Err(e) && calls == old(calls)
        case Ok(t) =>
          var e := Executed(connected, answer);
          r == (if e.Ok? then Ok(CountOf(e.value)) else Err(e.msg))
          && calls == old(calls) + [ExecCall(CountSql(t.0), t.1)]
    {
      if !allowed.IsAllowed(collection) {
        return Err(NotRegistered(collection));
      }
      var t := TranslateQuery(FindQuery(collection, filter, Undefined, Undefined));
      if t.Err? {
        return Err(t.msg);
      }
      calls := calls + [ExecCall(CountSql(t.value.0), t.value.1)];
      var e := Executed(connected, answer);
      if e.Err? {
        return Err(e.msg);
      }
      r := Ok(CountOf(e.value));
    }
  }

  /** The where loop of `translateQuery`: each key checked, quoted into a
      condition, and its value pushed as a parameter. */
  method BuildWhere(where: Option<Record>) returns (r: Result<(string, seq<Value>)>)
    ensures r == WhereText(where)
  {
    if where.None? || |where.value| == 0 {
      return Ok(("", []));
    }
    var parts :- WhereLoop(where.value);
    r := Ok((" WHERE " + Join(parts.0, " AND "), parts.1));
  }

  /** The loop itself: each key checked, quoted into a condition, and its
      value pushed as a parameter. */
  method WhereLoop(w: Record) returns (r: Result<(seq<string>, seq<Value>)>)
    ensures r == WhereParts(w)
  {
    var conditions: seq<string> := [];
    var params: seq<Value> := [];
    for i := 0 to |w|
      invariant WhereParts(w[..i]) == Ok((conditions, params))
    {
      var step := WhereStep(w, i, conditions, params);
      if step.Err? {
        WhereErrorStops(w, i + 1);
        return step;
      }
      conditions, params := step.value.0, step.value.1;
    }
    assert w[..|w|] == w;
    r := Ok((conditions, params));
  }

  /** One turn of the loop: the key checked, then its condition and value
      pushed. */
  method WhereStep(w: Record, i: nat, conditions: seq<string>, params: seq<Value>)
    returns (r: Result<(seq<string>, seq<Value>)>)
    requires i < |w| && WhereParts(w[..i]) == Ok((conditions, params))
    ensures r == WhereParts(w[..i + 1])
  {
    WherePrefix(w, i);
    var key := w[i].0;
    if !IsIdentifier(key) {
      return Err(InvalidColumn(key));
    }
    var quoted := QuoteIdentifier(key).value;
    ConditionQuoted(key, quoted);
    r := Ok((conditions + [quoted + " = ?"], params + [w[i].1]));
  }

  /** One more where entry: its condition and value are appended, or its
      name is refused. */
  lemma WherePrefix(w: Record, i: nat)
    requires i < |w| && WhereParts(w[..i]).Ok?
    ensures var p := WhereParts(w[..i]).value;
      WhereParts(w[..i + 1]) ==
        if !IsIdentifier(w[i].0) then Err(InvalidColumn(w[i].0))
        else Ok((p.0 + [Condition(w[i].0)], p.1 + [w[i].1]))
  {
    assert w[..i + 1][..i] == w[..i];
  }

  /** The quoted name followed by ` = ?` is the key's condition. */
  lemma ConditionQuoted(key: string, quoted: string)
    requires quoted == "`" + key + "`"
    ensures quoted + " = ?" == Condition(key)
  {
  }

  /** A bad column name in a prefix of the where entries fails the whole
      record, with the error of the first bad name. */
  lemma {:induction false} WhereErrorStops(w: Record, k: nat)
    requires k <= |w|
    requires WhereParts(w[..k]).Err?
    ensures WhereParts(w) == WhereParts(w[..k])
    decreases |w| - k
  {
    if k < |w| {
      assert w[..k + 1][..k] == w[..k];
      WhereErrorStops(w, k + 1);
    } else {
      assert w[..k] == w;
    }
  }

  // ---------------------------------------------------------------------
  // What `delete` and `count` execute

  /** No character of a translated find query is a backslash. */
  predicate NoBackslash(s: string) { '\\' !in s }

  lemma {:induction false} JoinNoBackslash(parts: seq<string>, sep: string)
    requires NoBackslash(sep) && forall i :: 0 <= i < |parts| ==> NoBackslash(parts[i])
    ensures NoBackslash(Join(parts, sep))
    decreases |parts|
  {
    if |parts| > 1 {
      JoinNoBackslash(parts[1..], sep);
    }
  }

  lemma IdentifierNoBackslash(id: string)
    requires IsIdentifier(id)
    ensures NoBackslash(id)
  {
  }

  /** The `SELECT` `delete` and `count` translate (a where record, no
      options). */
  lemma TranslatedFilterShape(tables: set<string>, t: string, w: Option<Record>)
    requires Translate(tables, FindQuery(t, w, Undefined, Undefined)).Ok?
    ensures var s := Translate(tables, FindQuery(t, w, Undefined, Undefined)).value.0;
      StartsWith(s, "SELECT * FROM `" + t + "`") && StartsWith(s, "SELECT *") && NoBackslash(s)
  {
    TranslatedFilterText(tables, t, w);
    IdentifierNoBackslash(t);
    WhereNoBackslash(w);
    SelectShape(t, WhereText(w).value.0);
  }

  /** With no options, the translation is the `SELECT` head and the `WHERE`
      clause. */
  lemma TranslatedFilterText(tables: set<string>, t: string, w: Option<Record>)
    requires Translate(tables, FindQuery(t, w, Undefined, Undefined)).Ok?
    ensures WhereText(w).Ok?
    ensures Translate(tables, FindQuery(t, w, Undefined, Undefined)).value.0
      == "SELECT * FROM " + ("`" + t + "`") + WhereText(w).value.0
  {
    var q := FindQuery(t, w, Undefined, Undefined);
    assert t in tables;
    assert QuoteIdentifier(t).Ok? && WhereText(w).Ok?;
    assert OptionText(Undefined, " LIMIT ") == Ok("");
    assert OptionText(Undefined, " OFFSET ") == Ok("");
    var wp := WhereText(w).value.0;
    var x := "SELECT * FROM " + ("`" + t + "`") + wp;
    assert x + "" + "" == x;
  }

  /** The text `SELECT * FROM` builds around a table and a clause without
      backslashes. */
  lemma SelectShape(t: string, wp: string)
    requires NoBackslash(t) && NoBackslash(wp)
    ensures var head := "SELECT * FROM `" + t + "`"; var s := "SELECT * FROM " + ("`" + t + "`") + wp;
      StartsWith(s, head) && StartsWith(s, "SELECT *") && NoBackslash(s)
  {
    var head := "SELECT * FROM `" + t + "`";
    assert "SELECT * FROM " + ("`" + t + "`") == head;
    assert (head + wp)[..|head|] == head;
    assert head[..8] == "SELECT *";
  }

  /** The `WHERE` clause has no backslash: its columns are identifiers. */
  lemma WhereNoBackslash(w: Option<Record>)
    requires WhereText(w).Ok?
    ensures NoBackslash(WhereText(w).value.0)
  {
    if w.Some? && |w.value| > 0 {
      var parts := WhereParts(w.value).value;
      forall i | 0 <= i < |parts.0| ensures NoBackslash(parts.0[i]) {
        IdentifierNoBackslash(w.value[i].0);
      }
      JoinNoBackslash(parts.0, " AND ");
    }
  }

  /** As written, `delete` runs the `SELECT` itself: the pattern holds a
      backslash and the translated text has none. */
  lemma DeleteRunsSelect(tables: set<string>, t: string, w: Option<Record>)
    requires Translate(tables, FindQuery(t, w, Undefined, Undefined)).Ok?
    ensures var s := Translate(tables, FindQuery(t, w, Undefined, Undefined)).value.0;
      DeleteSqlAsWritten(s) == s && StartsWith(DeleteSqlAsWritten(s), "SELECT")
  {
    var s := Translate(tables, FindQuery(t, w, Undefined, Undefined)).value.0;
    TranslatedFilterShape(tables, t, w);
    assert "SELECT \\*"[7] == '\\';
    ReplaceAbsent(s, "SELECT \\*", "DELETE", '\\');
    assert s[..6] == s[..8][..6];
  }

  /** The intended text deletes from the same table with the same
      conditions. */
  lemma DeleteSqlDeletes(tables: set<string>, t: string, w: Option<Record>)
    requires Translate(tables, FindQuery(t, w, Undefined, Undefined)).Ok?
    ensures var s := Translate(tables, FindQuery(t, w, Undefined, Undefined)).value.0;
      DeleteSql(s) == "DELETE" + s[8..] && StartsWith(DeleteSql(s), "DELETE FROM `" + t + "`")
  {
    var s := Translate(tables, FindQuery(t, w, Undefined, Undefined)).value.0;
    TranslatedFilterShape(tables, t, w);
    ReplaceAtStart(s, "SELECT *", "DELETE");
    var head := "SELECT * FROM `" + t + "`";
    var d := "DELETE" + s[8..];
    var want := "DELETE FROM `" + t + "`";
    assert |want| == |head| - 2;
    forall m | 0 <= m < |want| ensures d[m] == want[m] {
      if m >= 6 {
        assert d[m] == s[m + 2] == head[m + 2];
      }
    }
    assert d[..|want|] == want;
  }

  /** `count` runs the count over the same table and conditions. */
  lemma CountSqlCounts(tables: set<string>, t: string, w: Option<Record>)
    requires Translate(tables, FindQuery(t, w, Undefined, Undefined)).Ok?
    ensures var s := Translate(tables, FindQuery(t, w, Undefined, Undefined)).value.0;
      CountSql(s) == "SELECT COUNT(*) as count" + s[8..]
  {
    var s := Translate(tables, FindQuery(t, w, Undefined, Undefined)).value.0;
    TranslatedFilterShape(tables, t, w);
    ReplaceAtStart(s, "SELECT *", "SELECT COUNT(*) as count");
  }
}
