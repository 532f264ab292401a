/** The schema-markup converter (scripts/Msl.js): `parseDSL`, which reads
    the lines of a schema description and builds a JSON Schema document
    from them. `JSON.parse` and `Number` are parameters; reading the file
    named on the command line and writing the HTML page are not part of
    this model. */
module Msl {
  import opened Wrappers
  import opened Text
  import opened JsValues

  const SchemaUri := "http://json-schema.org/draft-07/schema#"

  /** The keys that set an object's metadata instead of a property. */
  const MetaKeys := ["title", "description", "examples"]

  /** The keys whose value is a constraint, stored on a property of the
      same name. */
  const ValidationKeys := ["minLength", "maxLength", "minimum", "maximum", "pattern", "minItems", "maxItems", "uniqueItems"]

  /** A property's `items`: `{ type: T }` or `{ enum: [...] }`. */
  datatype Items = ItemType(name: string) | ItemEnum(members: seq<string>)

  /** A property: its `type`, `items`, `enum` and `$ref` keys when they are
      set, and the validation keys it carries. */
  datatype Prop = Prop(kind: Option<string>, items: Option<Items>, enumeration: Option<seq<string>>,
                       ref: Option<string>, checks: map<string, Value>)

  const NoProp := Prop(None, None, None, None, map[])

  /** An object definition, whose `type` is always `object`. */
  datatype Def = Def(properties: map<string, Prop>, required: seq<string>, title: string,
                     description: string, examples: Value)

  /** A new definition; its `examples` is a fresh empty array. */
  const EmptyDef := Def(map[], [], "", "", Arr(0, []))

  /** An entry of `stack`: the indentation of a definition line and the
      object it opened, named by its key. */
  datatype Frame = Frame(indent: int, key: string)

  /** The state of the loop: `defs`, `stack`, `variables`, and the key of
      the object `currentObj` refers to (`None` while it is `null`). */
  datatype State = State(defs: map<string, Def>, stack: seq<Frame>, variables: map<string, string>,
                         current: Option<string>)

  const Start := State(map[], [], map[], None)

  /** The document `parseDSL` returns. */
  datatype Schema = Schema(schema: string, definitions: map<string, Def>)

  // ---------------------------------------------------------------------
  // Text

  /** `s.replace(/c/g, "")`. */
  function Without(s: string, c: char): (r: string)
    ensures |r| <= |s| && c !in r
    ensures c !in s ==> r == s
    ensures multiset(r) == multiset(s)[c := 0]
    decreases |s|
  {
    if |s| == 0 then ""
    else
      assert s == [s[0]] + s[1..];
      (if s[0] == c then "" else [s[0]]) + Without(s[1..], c)
  }

  /** Removing a character from two texts one after the other is removing
      it from each: the other characters keep their order. */
  lemma {:induction false} WithoutAppend(a: string, b: string, c: char)
    ensures Without(a + b, c) == Without(a, c) + Without(b, c)
    decreases |a|
  {
    if |a| == 0 {
      assert a + b == b;
    } else {
      assert (a + b)[0] == a[0] && (a + b)[1..] == a[1..] + b;
      WithoutAppend(a[1..], b, c);
    }
  }

  /** `.filter(l => l.trim())`. */
  function NonBlank(ls: seq<string>): (r: seq<string>)
    ensures |r| <= |ls|
    ensures forall i :: 0 <= i < |r| ==> JsTrim(r[i]) != "" && r[i] in ls
    ensures forall l :: l in ls && JsTrim(l) != "" ==> l in r
  {
    if |ls| == 0 then []
    else if JsTrim(ls[0]) == "" then NonBlank(ls[1..])
    else [ls[0]] + NonBlank(ls[1..])
  }

  /** `.map(l => l.replace(/\r/g, ""))`: each line without its `\r`. */
  function DropCrs(parts: seq<string>): (r: seq<string>)
    ensures |r| == |parts|
    ensures forall i :: 0 <= i < |r| ==> r[i] == Without(parts[i], '\r')
  {
    if |parts| == 0 then [] else [Without(parts[0], '\r')] + DropCrs(parts[1..])
  }

  /** The lines of the markup with every `\r` removed and the blank ones
      dropped. */
  function Lines(markup: string): (r: seq<string>)
    ensures forall i :: 0 <= i < |r| ==> JsTrim(r[i]) != "" && '\r' !in r[i]
  {
    NonBlank(DropCrs(Split(markup, '\n')))
  }

  /** `l` is one of the pieces with its `\r` removed. */
  predicate FromPiece(pieces: seq<string>, l: string) {
    exists i :: 0 <= i < |pieces| && l == Without(pieces[i], '\r')
  }

  /** Each line `Lines` keeps is a `\n`-separated piece of the markup
      with its `\r` removed. */
  lemma LinesFromPieces(markup: string)
    ensures forall j :: 0 <= j < |Lines(markup)| ==> FromPiece(Split(markup, '\n'), Lines(markup)[j])
  {
    var parts := Split(markup, '\n');
    var clean := DropCrs(parts);
    var r := Lines(markup);
    assert r == NonBlank(clean);
    forall j | 0 <= j < |r|
      ensures FromPiece(parts, r[j])
    {
      assert r[j] in clean;
      var i :| 0 <= i < |clean| && clean[i] == r[j];
      assert r[j] == Without(parts[i], '\r');
    }
  }

  /** Every `\n`-separated piece of the markup that is not blank once its
      `\r` are removed is one of the lines `Lines` keeps. */
  lemma PiecesInLines(markup: string)
    ensures forall i :: 0 <= i < |Split(markup, '\n')| && JsTrim(Without(Split(markup, '\n')[i], '\r')) != "" ==>
      Without(Split(markup, '\n')[i], '\r') in Lines(markup)
  {
    var parts := Split(markup, '\n');
    var clean := DropCrs(parts);
    var r := Lines(markup);
    assert r == NonBlank(clean);
    forall i | 0 <= i < |parts| && JsTrim(Without(parts[i], '\r')) != ""
      ensures Without(parts[i], '\r') in r
    {
      assert clean[i] == Without(parts[i], '\r');
      assert clean[i] in clean;
    }
  }

  /** `s.replace(/^"|"$/g, "")`: one quote removed from each end. */
  function StripQuotes(s: string): (r: string)
    ensures |r| <= |s| <= |r| + 2
    ensures |s| > 0 && s[0] == '"' ==> r <= s[1..]
    ensures (|s| == 0 || s[0] != '"') ==> r <= s
    ensures |s| > 1 && s[|s| - 1] == '"' ==> |r| == |s| - (if s[0] == '"' then 2 else 1)
    ensures |s| > 0 && s[|s| - 1] != '"' ==> |r| == |s| - (if s[0] == '"' then 1 else 0)
  {
    var t := if |s| > 0 && s[0] == '"' then s[1..] else s;
    if |t| > 0 && t[|t| - 1] == '"' then t[..|t| - 1] else t
  }

  /** `line.search(/\S/)`: the index of the first character that is not
      white space, or -1. */
  function Indent(line: string, from: nat := 0): (r: int)
    requires from <= |line|
    ensures r == -1 || from <= r < |line|
    ensures r >= 0 ==> !IsJsSpace(line[r]) && forall j :: from <= j < r ==> IsJsSpace(line[j])
    ensures r == -1 ==> forall j :: from <= j < |line| ==> IsJsSpace(line[j])
    decreases |line| - from
  {
    if from == |line| then -1
    else if !IsJsSpace(line[from]) then from
    else Indent(line, from + 1)
  }

  /** `s.slice(1, -drop)`. */
  function Inner(s: string, drop: nat): string
    requires drop > 0
  {
    if |s| >= 1 + drop then s[1..|s| - drop] else ""
  }

  /** `.split("|").map(s => s.trim().replace(/"/g, ""))`. */
  function Members(inner: string): (r: seq<string>)
    ensures |r| >= 1 && forall i :: 0 <= i < |r| ==> '"' !in r[i]
  {
    Cleaned(Split(inner, '|'))
  }

  /** Each alternative trimmed and without its quotes. */
  function Cleaned(parts: seq<string>): (r: seq<string>)
    ensures |r| == |parts| && forall i :: 0 <= i < |r| ==> '"' !in r[i]
    ensures forall i :: 0 <= i < |r| ==> r[i] == Without(JsTrim(parts[i]), '"')
  {
    if |parts| == 0 then [] else [Without(JsTrim(parts[0]), '"')] + Cleaned(parts[1..])
  }

  // ---------------------------------------------------------------------
  // One line

  /** `line.split(":").map(s => s.trim())`, destructured: the key part and,
      when the line has a `:`, the value part. */
  datatype Entry = Entry(keyRaw: string, valRaw: Option<string>)

  function EntryOf(line: string): Entry {
    var parts := Split(line, ':');
    Entry(JsTrim(parts[0]), if |parts| > 1 then Some(JsTrim(parts[1])) else None)
  }

  /** The key without a final `?`. */
  function KeyOf(keyRaw: string): (key: string)
    ensures EndsWith(keyRaw, "?") ==> key + "?" == keyRaw
    ensures !EndsWith(keyRaw, "?") ==> key == keyRaw
  {
    if EndsWith(keyRaw, "?") then keyRaw[..|keyRaw| - 1] else keyRaw
  }

  /** The `while` loop over `stack`: the frames indented at least `indent`
      popped from the top. */
  function PopWhile(stack: seq<Frame>, indent: int): (r: seq<Frame>)
    ensures r <= stack
    ensures |r| > 0 ==> r[|r| - 1].indent < indent
    ensures forall j :: |r| <= j < |stack| ==> stack[j].indent >= indent
    decreases |stack|
  {
    if |stack| > 0 && stack[|stack| - 1].indent >= indent then PopWhile(stack[..|stack| - 1], indent) else stack
  }

  /** `val.startsWith("$") ? variables[val] || val : val`. */
  function Resolve(variables: map<string, string>, val: string): string {
    if StartsWith(val, "$") && val in variables && variables[val] != "" then variables[val] else val
  }

  /** The type rules, applied to what the property already holds. */
  function Typed(prop: Prop, val: string): Prop {
    if StartsWith(val, "[") && EndsWith(val, "]") then
      prop.(kind := Some("array"), items := Some(ItemType(JsTrim(Inner(val, 1)))))
    else if EndsWith(val, "[]") && StartsWith(val, "(") && '|' in val then
      prop.(kind := Some("array"), items := Some(ItemEnum(Members(Inner(val, 3)))))
    else if StartsWith(val, "(") && EndsWith(val, ")") then
      prop.(enumeration := Some(Members(Inner(val, 1))))
    else if |val| > 0 && IsAsciiUpper(val[0]) then
      prop.(ref := Some("#/definitions/" + val))
    else
      // a primitive type name and any other word alike become the type
      prop.(kind := Some(val))
  }

  /** The value a validation key stores: a boolean, a number when `Number`
      reads one, or else the text without its quotes. */
  function Constraint(valRaw: string, toNumber: string -> Option<int>): (v: Value)
    ensures v.Bool? || v.Num? || v.Str?
    ensures v.Bool? <==> valRaw == "true" || valRaw == "false"
    ensures v.Num? <==> valRaw != "true" && valRaw != "false" && toNumber(valRaw).Some?
    ensures v.Bool? ==> v.b == (valRaw == "true")
    ensures v.Num? ==> v == Num(toNumber(valRaw).value)
    ensures v.Str? ==> v.s == StripQuotes(valRaw)
  {
    if valRaw == "true" then Bool(true)
    else if valRaw == "false" then Bool(false)
    else match toNumber(valRaw)
      case Some(n) => Num(n)
      case None => Str(StripQuotes(valRaw))
  }

  /** The `examples` key: the value read as JSON once its `'` are turned
      into `"`, or, when that throws, the raw text pushed onto the examples;
      pushing onto anything but an array throws. */
  function WithExamples(parent: Def, valRaw: string, parseJson: string -> Option<Value>): (r: Result<Def>)
    ensures r.Ok? ==> r.value.(examples := parent.examples) == parent
  {
    match parseJson(ReplaceChar(valRaw, '\'', '"'))
    case Some(v) => Ok(parent.(examples := v))
    case None =>
      if parent.examples.Arr? then Ok(parent.(examples := Arr(parent.examples.ref, parent.examples.items + [Str(valRaw)])))
      else Err("TypeError: parent.examples.push is not a function")
  }

  /** What a property or metadata line does to the object it attaches to. */
  function Described(parent: Def, key: string, optional: bool, valRaw: string, variables: map<string, string>,
                     parseJson: string -> Option<Value>, toNumber: string -> Option<int>): Result<Def>
  {
    if key in MetaKeys then
      if key == "examples" then WithExamples(parent, valRaw, parseJson)
      else if key == "title" then Ok(parent.(title := StripQuotes(valRaw)))
      else Ok(parent.(description := StripQuotes(valRaw)))
    else
      var prop := if key in parent.properties then parent.properties[key] else NoProp;
      if key in ValidationKeys then
        Ok(parent.(properties := parent.properties[key := prop.(checks := prop.checks[key := Constraint(valRaw, toNumber)])]))
      else
        Ok(parent.(properties := parent.properties[key := Typed(prop, Resolve(variables, valRaw))],
                   required := if optional then parent.required else parent.required + [key]))
  }

  /** A `$name = value` line. Without a `=` the value is `undefined` and
      reading it throws. */
  function Bind(st: State, line: string): Result<State> {
    var parts := Split(line, '=');
    if |parts| < 2 then Err("TypeError: Cannot read properties of undefined (reading 'replace')")
    else Ok(st.(variables := st.variables[JsTrim(parts[0]) := StripQuotes(JsTrim(parts[1]))]))
  }

  /** A property or metadata line, with the stack popped and the object it
      attaches to looked up; attaching to `null` throws. */
  function Attach(st: State, key: string, optional: bool, valRaw: string, indent: int,
                  parseJson: string -> Option<Value>, toNumber: string -> Option<int>): Result<State>
  {
    var stack := PopWhile(st.stack, indent);
    var parent := if |stack| > 0 then Some(stack[|stack| - 1].key) else st.current;
    if parent.None? || parent.value !in st.defs then Err("TypeError: Cannot read properties of null")
    else match Described(st.defs[parent.value], key, optional, valRaw, st.variables, parseJson, toNumber)
      case Err(m) => Err(m)
      case Ok(d) => Ok(State(st.defs[parent.value := d], stack, st.variables, st.current))
  }

  /** One pass of the loop over the lines. */
  function Step(st: State, raw: string, parseJson: string -> Option<Value>, toNumber: string -> Option<int>): Result<State> {
    var line := JsTrim(raw);
    if line == "" || StartsWith(line, "#") then Ok(st)
    else if StartsWith(line, "$") then Bind(st, line)
    else
      var indent := Indent(line);
      var e := EntryOf(line);
      var key := KeyOf(e.keyRaw);
      if e.valRaw.None? || e.valRaw.value == "" then
        Ok(State(st.defs[key := EmptyDef], st.stack + [Frame(indent, key)], st.variables, Some(key)))
      else
        Attach(st, key, EndsWith(e.keyRaw, "?"), e.valRaw.value, indent, parseJson, toNumber)
  }

  /** The loop, line by line, stopping at the first line that throws. */
  function Run(st: State, lines: seq<string>, parseJson: string -> Option<Value>, toNumber: string -> Option<int>): Result<State>
    decreases |lines|
  {
    if |lines| == 0 then Ok(st)
    else match Step(st, lines[0], parseJson, toNumber)
      case Err(m) => Err(m)
      case Ok(next) => Run(next, lines[1..], parseJson, toNumber)
  }

  /** `parseDSL(markup)`. */
  function Parsed(markup: string, parseJson: string -> Option<Value>, toNumber: string -> Option<int>): Result<Schema> {
    match Run(Start, Lines(markup), parseJson, toNumber)
    case Err(m) => Err(m)
    case Ok(st) => Ok(Schema(SchemaUri, st.defs))
  }

  // ---------------------------------------------------------------------
  // parseDSL

  /** A line that goes through moves the loop on to the next one. */
  lemma RunStep(st: State, lines: seq<string>, i: nat, next: State,
                parseJson: string -> Option<Value>, toNumber: string -> Option<int>)
    requires i < |lines| && Step(st, lines[i], parseJson, toNumber) == Ok(next)
    ensures Run(st, lines[i..], parseJson, toNumber) == Run(next, lines[i + 1..], parseJson, toNumber)
  {
    assert lines[i..][0] == lines[i] && lines[i..][1..] == lines[i + 1..];
  }

  /** The branch `Step` takes for a line that is neither blank, a comment,
      a variable nor a definition. */
  lemma StepAttaches(st: State, raw: string, parseJson: string -> Option<Value>, toNumber: string -> Option<int>)
    requires var line := JsTrim(raw); line != "" && !StartsWith(line, "#") && !StartsWith(line, "$")
    requires var e := EntryOf(JsTrim(raw)); e.valRaw.Some? && e.valRaw.value != ""
    ensures var line := JsTrim(raw); var e := EntryOf(line);
      Step(st, raw, parseJson, toNumber)
        == Attach(st, KeyOf(e.keyRaw), EndsWith(e.keyRaw, "?"), e.valRaw.value, Indent(line), parseJson, toNumber)
  {
  }

  /** A line that throws ends the loop with its error. */
  lemma RunStops(st: State, lines: seq<string>, i: nat, m: string,
                 parseJson: string -> Option<Value>, toNumber: string -> Option<int>)
    requires i < |lines| && Step(st, lines[i], parseJson, toNumber) == Err(m)
    ensures Run(st, lines[i..], parseJson, toNumber) == Err(m)
  {
    assert lines[i..][0] == lines[i];
  }

  /** The part of the loop body after `parent` is found: the metadata, the
      validation keys and the type rules, as updates of the object. */
  method Describe(obj: Def, key: string, optional: bool, valRaw: string, variables: map<string, string>,
                  parseJson: string -> Option<Value>, toNumber: string -> Option<int>) returns (r: Result<Def>)
    ensures r == Described(obj, key, optional, valRaw, variables, parseJson, toNumber)
  {
    var parent := obj;
    if key in MetaKeys {
      if key == "examples" {
        match parseJson(ReplaceChar(valRaw, '\'', '"'))
        case Some(v) =>
          parent := parent.(examples := v);
        case None =>
          if !parent.examples.Arr? {
            return Err("TypeError: parent.examples.push is not a function");
          }
          parent := parent.(examples := Arr(parent.examples.ref, parent.examples.items + [Str(valRaw)]));
      } else if key == "title" {
        parent := parent.(title := StripQuotes(valRaw));
      } else {
        parent := parent.(description := StripQuotes(valRaw));
      }
      return Ok(parent);
    }
    var prop := if key in parent.properties then parent.properties[key] else NoProp;
    if key in ValidationKeys {
      prop := prop.(checks := prop.checks[key := Constraint(valRaw, toNumber)]);
      parent := parent.(properties := parent.properties[key := prop]);
      return Ok(parent);
    }
    var val := Resolve(variables, valRaw);
    prop := Typed(prop, val);
    parent := parent.(properties := parent.properties[key := prop]);
    if !optional {
      parent := parent.(required := parent.required + [key]);
    }
    return Ok(parent);
  }

  /** The loop body from the stack pops on: find `parent`, the object the
      line attaches to, and update it. */
  method AttachLine(defs: map<string, Def>, stack: seq<Frame>, variables: map<string, string>, current: Option<string>,
                    key: string, optional: bool, valRaw: string, indent: int,
                    parseJson: string -> Option<Value>, toNumber: string -> Option<int>) returns (r: Result<State>)
    ensures r == Attach(State(defs, stack, variables, current), key, optional, valRaw, indent, parseJson, toNumber)
  {
    var frames := PopFrames(stack, indent);
    var parent := if |frames| > 0 then Some(frames[|frames| - 1].key) else current;
    if parent.None? || parent.value !in defs {
      return Err("TypeError: Cannot read properties of null");
    }
    var described := Describe(defs[parent.value], key, optional, valRaw, variables, parseJson, toNumber);
    if described.Err? {
      return Err(described.msg);
    }
    return Ok(State(defs[parent.value := described.value], frames, variables, current));
  }

  /** The `while` loop that pops the frames indented at least `indent`. */
  method PopFrames(stack: seq<Frame>, indent: int) returns (frames: seq<Frame>)
    ensures frames == PopWhile(stack, indent)
  {
    frames := stack;
    while |frames| > 0 && frames[|frames| - 1].indent >= indent
      invariant PopWhile(frames, indent) == PopWhile(stack, indent)
      decreases |frames|
    {
      frames := frames[..|frames| - 1];
    }
  }

  /** The loop body for one line. */
  method ParseLine(defs: map<string, Def>, stack: seq<Frame>, variables: map<string, string>, current: Option<string>,
                   raw: string, parseJson: string -> Option<Value>, toNumber: string -> Option<int>) returns (r: Result<State>)
    ensures r == Step(State(defs, stack, variables, current), raw, parseJson, toNumber)
  {
    var line := JsTrim(raw);
    if line == "" || StartsWith(line, "#") {
      return Ok(State(defs, stack, variables, current));
    }
    if StartsWith(line, "$") {
      var parts := Split(line, '=');
      if |parts| < 2 {
        return Err("TypeError: Cannot read properties of undefined (reading 'replace')");
      }
      return Ok(State(defs, stack, variables[JsTrim(parts[0]) := StripQuotes(JsTrim(parts[1]))], current));
    }
    var indent := Indent(line);
    var entry := EntryOf(line);
    var key := KeyOf(entry.keyRaw);
    var optional := EndsWith(entry.keyRaw, "?");
    if entry.valRaw.None? || entry.valRaw.value == "" {
      return Ok(State(defs[key := EmptyDef], stack + [Frame(indent, key)], variables, Some(key)));
    }
    StepAttaches(State(defs, stack, variables, current), raw, parseJson, toNumber);
    r := AttachLine(defs, stack, variables, current, key, optional, entry.valRaw.value, indent, parseJson, toNumber);
  }

  /** `parseDSL`: the loop over the lines, updating the definitions, the
      stack, the variables and the current object as it goes. */
  method ParseDsl(markup: string, parseJson: string -> Option<Value>, toNumber: string -> Option<int>) returns (r: Result<Schema>)
    ensures r == Parsed(markup, parseJson, toNumber)
  {
    var lines := Lines(markup);
    var defs: map<string, Def> := map[];
    var stack: seq<Frame> := [];
    var variables: map<string, string> := map[];
    var current: Option<string> := None;
    for i := 0 to |lines|
      invariant Run(Start, lines, parseJson, toNumber) == Run(State(defs, stack, variables, current), lines[i..], parseJson, toNumber)
    {
      ghost var before := State(defs, stack, variables, current);
      var next := ParseLine(defs, stack, variables, current, lines[i], parseJson, toNumber);
      if next.Err? {
        RunStops(before, lines, i, next.msg, parseJson, toNumber);
        return Err(next.msg);
      }
      defs, stack, variables, current := next.value.defs, next.value.stack, next.value.variables, next.value.current;
      RunStep(before, lines, i, next.value, parseJson, toNumber);
    }
    assert lines[|lines|..] == [];
    return Ok(Schema(SchemaUri, defs));
  }

  // ---------------------------------------------------------------------
  // Properties

  /** Blank lines and `#` comments change nothing. */
  lemma SkipsBlankAndComments(st: State, raw: string, parseJson: string -> Option<Value>, toNumber: string -> Option<int>)
    requires JsTrim(raw) == "" || StartsWith(JsTrim(raw), "#")
    ensures Step(st, raw, parseJson, toNumber) == Ok(st)
  {
  }

  /** `"..."` loses exactly its two quotes; a text without a quote at either
      end is kept. */
  lemma QuotesStripped(x: string)
    ensures StripQuotes("\"" + x + "\"") == x
    ensures (|x| == 0 || (x[0] != '"' && x[|x| - 1] != '"')) ==> StripQuotes(x) == x
  {
    var q := "\"" + x + "\"";
    assert q[1..] == x + "\"";
    assert (x + "\"")[..|x|] == x;
  }

  /** Splitting `x c y` where neither part holds `c`. */
  lemma SplitPair(x: string, y: string, c: char)
    requires c !in x && c !in y
    ensures Split(x + [c] + y, c) == [x, y]
  {
    SplitAtFirst(x, y, c);
    assert Split(y, c) == [y];
  }

  /** A line starting with `$` is a variable binding. */
  lemma StepBinds(st: State, raw: string, parseJson: string -> Option<Value>, toNumber: string -> Option<int>)
    requires StartsWith(JsTrim(raw), "$")
    ensures Step(st, raw, parseJson, toNumber) == Bind(st, JsTrim(raw))
  {
  }

  /** `$name = value`, on a line that is already trimmed, binds `name` to
      the value without its quotes; nothing else changes. */
  lemma BindsVariable(st: State, name: string, value: string, parseJson: string -> Option<Value>, toNumber: string -> Option<int>)
    requires StartsWith(name, "$") && '=' !in name && '=' !in value
    requires JsTrim(name + "=" + value) == name + "=" + value
    ensures Step(st, name + "=" + value, parseJson, toNumber)
      == Ok(st.(variables := st.variables[JsTrim(name) := StripQuotes(JsTrim(value))]))
  {
    var line := name + "=" + value;
    assert StartsWith(line, "$") by {
      assert line[..|name|] == name;
    }
    StepBinds(st, line, parseJson, toNumber);
    SplitPair(name, value, '=');
  }

  /** A `$` line without `=` throws. */
  lemma UnboundWithoutEquals(st: State, raw: string, parseJson: string -> Option<Value>, toNumber: string -> Option<int>)
    requires StartsWith(JsTrim(raw), "$") && '=' !in JsTrim(raw)
    ensures Step(st, raw, parseJson, toNumber).Err?
  {
    assert Split(JsTrim(raw), '=') == [JsTrim(raw)];
  }

  /** A variable bound to a non-empty text stands for that text in a later
      value; an unbound name, or one bound to nothing, stands for itself. */
  lemma VariableUsed(variables: map<string, string>, name: string, value: string)
    requires StartsWith(name, "$")
    ensures value != "" ==> Resolve(variables[name := value], name) == value
    ensures name !in variables ==> Resolve(variables, name) == name
    ensures Resolve(variables[name := ""], name) == name
  {
  }

  /** Indentation is measured on the trimmed line, so it is always 0. */
  lemma IndentAfterTrim(raw: string)
    requires JsTrim(raw) != ""
    ensures Indent(JsTrim(raw)) == 0
  {
    var t := TrimStart(raw, IsJsSpace);
    assert JsTrim(raw) == TrimEnd(t, IsJsSpace);
    assert JsTrim(raw)[0] == t[0];
  }

  /** The branch `Step` takes for a definition line. */
  lemma StepOpens(st: State, raw: string, parseJson: string -> Option<Value>, toNumber: string -> Option<int>)
    requires var line := JsTrim(raw); line != "" && !StartsWith(line, "#") && !StartsWith(line, "$")
    requires var e := EntryOf(JsTrim(raw)); e.valRaw.None? || e.valRaw.value == ""
    ensures var k := KeyOf(EntryOf(JsTrim(raw)).keyRaw);
      Step(st, raw, parseJson, toNumber)
        == Ok(State(st.defs[k := EmptyDef], st.stack + [Frame(0, k)], st.variables, Some(k)))
  {
    IndentAfterTrim(raw);
  }

  /** A trimmed line `key:` opens a new, empty definition under the key
      without its `?`, makes it the current object and pushes it with
      indentation 0. */
  lemma OpensDefinition(st: State, key: string, parseJson: string -> Option<Value>, toNumber: string -> Option<int>)
    requires |key| > 0 && key[0] != '#' && key[0] != '$' && ':' !in key
    requires JsTrim(key + ":") == key + ":" && JsTrim(key) == key
    ensures var k := KeyOf(key);
      Step(st, key + ":", parseJson, toNumber)
        == Ok(State(st.defs[k := EmptyDef], st.stack + [Frame(0, k)], st.variables, Some(k)))
  {
    var line := key + ":";
    assert line[0] == key[0];
    assert !StartsWith(line, "#") && !StartsWith(line, "$");
    EntryOfOpening(key);
    StepOpens(st, line, parseJson, toNumber);
  }

  /** The entry of `key:` is the key with an empty value. */
  lemma EntryOfOpening(key: string)
    requires ':' !in key && JsTrim(key) == key
    ensures EntryOf(key + ":") == Entry(key, Some(""))
  {
    SplitPair(key, "", ':');
    assert key + [':'] + "" == key + ":";
    assert JsTrim("") == "";
  }

  /** The states the loop goes through: the current object and every
      object on the stack are definitions, and the stack holds no negative
      indentation. */
  predicate Valid(st: State) {
    && (st.current.Some? ==> st.current.value in st.defs)
    && forall j :: 0 <= j < |st.stack| ==> st.stack[j].indent >= 0 && st.stack[j].key in st.defs
  }

  /** With indentation 0 every frame is popped. */
  lemma PopsEverything(stack: seq<Frame>)
    requires forall j :: 0 <= j < |stack| ==> stack[j].indent >= 0
    ensures PopWhile(stack, 0) == []
  {
  }

  /** A property or metadata line always attaches to the most recently
      opened object: the stack is emptied first, so `parent` is
      `currentObj`; with no object opened yet the line throws. Only that
      object changes. */
  lemma AttachesToCurrent(st: State, raw: string, parseJson: string -> Option<Value>, toNumber: string -> Option<int>)
    requires Valid(st)
    requires var line := JsTrim(raw); line != "" && !StartsWith(line, "#") && !StartsWith(line, "$")
    requires var e := EntryOf(JsTrim(raw)); e.valRaw.Some? && e.valRaw.value != ""
    ensures st.current.None? ==> Step(st, raw, parseJson, toNumber).Err?
    ensures var r := Step(st, raw, parseJson, toNumber);
      r.Ok? ==> (&& st.current.Some? && r.value.stack == [] && r.value.current == st.current
                 && r.value.variables == st.variables && r.value.defs.Keys == st.defs.Keys
                 && forall k :: k in st.defs && k != st.current.value ==> r.value.defs[k] == st.defs[k])
  {
    StepAttaches(st, raw, parseJson, toNumber);
    IndentAfterTrim(raw);
    PopsEverything(st.stack);
  }

  /** A definition line keeps the state well formed. */
  lemma OpenValid(st: State, raw: string, parseJson: string -> Option<Value>, toNumber: string -> Option<int>)
    requires Valid(st)
    requires var line := JsTrim(raw); line != "" && !StartsWith(line, "#") && !StartsWith(line, "$")
    requires var e := EntryOf(JsTrim(raw)); e.valRaw.None? || e.valRaw.value == ""
    ensures var r := Step(st, raw, parseJson, toNumber);
      r.Ok? && Valid(r.value) && st.defs.Keys <= r.value.defs.Keys
  {
    StepOpens(st, raw, parseJson, toNumber);
    var k := KeyOf(EntryOf(JsTrim(raw)).keyRaw);
    OpenedValid(st, k);
  }

  lemma OpenedValid(st: State, k: string)
    requires Valid(st)
    ensures var next := State(st.defs[k := EmptyDef], st.stack + [Frame(0, k)], st.variables, Some(k));
      Valid(next) && st.defs.Keys <= next.defs.Keys
  {
    var stack := st.stack + [Frame(0, k)];
    forall j | 0 <= j < |stack|
      ensures stack[j].indent >= 0 && stack[j].key in st.defs[k := EmptyDef]
    {
      if j < |st.stack| {
        assert stack[j] == st.stack[j];
      }
    }
  }

  /** Every line keeps the loop's state well formed, and no definition is
      ever removed. */
  lemma StepValid(st: State, raw: string, parseJson: string -> Option<Value>, toNumber: string -> Option<int>)
    requires Valid(st)
    ensures var r := Step(st, raw, parseJson, toNumber);
      r.Ok? ==> Valid(r.value) && st.defs.Keys <= r.value.defs.Keys
  {
    var line := JsTrim(raw);
    if line != "" && !StartsWith(line, "#") && !StartsWith(line, "$") {
      var e := EntryOf(line);
      if e.valRaw.Some? && e.valRaw.value != "" {
        AttachesToCurrent(st, raw, parseJson, toNumber);
      } else {
        OpenValid(st, raw, parseJson, toNumber);
      }
    } else if line != "" && !StartsWith(line, "#") {
      StepBinds(st, raw, parseJson, toNumber);
    }
  }

  lemma {:induction false} RunValid(st: State, lines: seq<string>, parseJson: string -> Option<Value>, toNumber: string -> Option<int>)
    requires Valid(st)
    ensures var r := Run(st, lines, parseJson, toNumber);
      r.Ok? ==> Valid(r.value) && st.defs.Keys <= r.value.defs.Keys
    decreases |lines|
  {
    if |lines| > 0 {
      StepValid(st, lines[0], parseJson, toNumber);
      var s := Step(st, lines[0], parseJson, toNumber);
      if s.Ok? {
        RunValid(s.value, lines[1..], parseJson, toNumber);
      }
    }
  }

  /** What parseDSL returns is a draft-07 schema. */
  lemma ParsedSchema(markup: string, parseJson: string -> Option<Value>, toNumber: string -> Option<int>)
    ensures var r := Parsed(markup, parseJson, toNumber);
      r.Ok? ==> (r.value.schema == SchemaUri
                 && r.value.definitions == Run(Start, Lines(markup), parseJson, toNumber).value.defs)
  {
  }

  // ---------------------------------------------------------------------
  // The type rules

  /** `[T]` is an array whose items have type `T`, trimmed. */
  lemma ArrayShorthand(prop: Prop, t: string)
    ensures Typed(prop, "[" + t + "]") == prop.(kind := Some("array"), items := Some(ItemType(JsTrim(t))))
  {
    var v := "[" + t + "]";
    assert v[..1] == "[" && v[|v| - 1..] == "]";
    assert v[1..|v| - 1] == t;
  }

  /** `(m)[]` with a `|` in `m` is an array whose items are the
      alternatives of `m`. */
  lemma EnumArray(prop: Prop, m: string)
    requires '|' in m
    ensures Typed(prop, "(" + m + ")[]") == prop.(kind := Some("array"), items := Some(ItemEnum(Members(m))))
  {
    var v := "(" + m + ")[]";
    assert v[0] == '(' && v[|v| - 1] == ']' && v[..1] == "(" && v[|v| - 2..] == "[]";
    assert v[1..|v| - 3] == m;
    assert '|' in v by {
      var j :| 0 <= j < |m| && m[j] == '|';
      assert v[j + 1] == m[j];
    }
    assert !StartsWith(v, "[");
    assert EndsWith(v, "[]") && StartsWith(v, "(");
    assert Inner(v, 3) == m;
  }

  /** `(m)` is an enumeration of the alternatives of `m`. */
  lemma EnumType(prop: Prop, m: string)
    ensures Typed(prop, "(" + m + ")") == prop.(enumeration := Some(Members(m)))
  {
    var v := "(" + m + ")";
    assert v[0] == '(' && v[|v| - 1] == ')' && v[..1] == "(" && v[|v| - 1..] == ")";
    assert v[1..|v| - 1] == m;
    assert !StartsWith(v, "[") && !EndsWith(v, "[]");
    assert StartsWith(v, "(") && EndsWith(v, ")");
    assert Inner(v, 1) == m;
  }

  /** A capitalised name refers to the definition of that name. */
  lemma Reference(prop: Prop, val: string)
    requires |val| > 0 && IsAsciiUpper(val[0])
    ensures Typed(prop, val) == prop.(ref := Some("#/definitions/" + val))
  {
    assert !StartsWith(val, "[") && !StartsWith(val, "(");
  }

  /** Anything else is the type itself. */
  lemma OtherType(prop: Prop, val: string)
    requires |val| > 0 && val[0] != '[' && val[0] != '(' && !IsAsciiUpper(val[0])
    ensures Typed(prop, val) == prop.(kind := Some(val))
  {
    assert !StartsWith(val, "[") && !StartsWith(val, "(");
  }

  /** The alternatives are read one by one between the `|`, trimmed and
      without quotes. */
  lemma MembersSplit(x: string, rest: string)
    requires '|' !in x
    ensures Members(x + "|" + rest) == [Without(JsTrim(x), '"')] + Members(rest)
  {
    assert x + "|" + rest == x + ['|'] + rest;
    SplitAtFirst(x, rest, '|');
    assert ([x] + Split(rest, '|'))[1..] == Split(rest, '|');
  }

  // ---------------------------------------------------------------------
  // Properties, constraints and metadata

  /** A property line sets the property's type from its value, after
      variable substitution, keeps whatever else the property had, and
      makes the key required unless it was written with `?`; the
      metadata and the other properties stay. */
  lemma PropertyRule(parent: Def, key: string, optional: bool, valRaw: string, variables: map<string, string>,
                     parseJson: string -> Option<Value>, toNumber: string -> Option<int>)
    requires key !in MetaKeys && key !in ValidationKeys
    ensures var r := Described(parent, key, optional, valRaw, variables, parseJson, toNumber);
      var before := if key in parent.properties then parent.properties[key] else NoProp;
      && r.Ok?
      && r.value.properties == parent.properties[key := Typed(before, Resolve(variables, valRaw))]
      && (optional ==> r.value.required == parent.required)
      && (!optional ==> r.value.required == parent.required + [key])
      && r.value.title == parent.title && r.value.description == parent.description
      && r.value.examples == parent.examples
  {
  }

  /** A validation key stores its value on the property named after the
      key itself, and never makes anything required. */
  lemma ValidationRule(parent: Def, key: string, optional: bool, valRaw: string, variables: map<string, string>,
                       parseJson: string -> Option<Value>, toNumber: string -> Option<int>)
    requires key in ValidationKeys
    ensures var r := Described(parent, key, optional, valRaw, variables, parseJson, toNumber);
      && r.Ok?
      && key in r.value.properties && r.value.properties[key].checks[key] == Constraint(valRaw, toNumber)
      && (forall k :: k in parent.properties && k != key ==> k in r.value.properties && r.value.properties[k] == parent.properties[k])
      && r.value.required == parent.required
  {
    assert key !in MetaKeys;
  }

  /** `title` and `description` set the object's metadata, without quotes;
      no property changes. */
  lemma MetadataRule(parent: Def, key: string, optional: bool, valRaw: string, variables: map<string, string>,
                     parseJson: string -> Option<Value>, toNumber: string -> Option<int>)
    requires key == "title" || key == "description"
    ensures var r := Described(parent, key, optional, valRaw, variables, parseJson, toNumber);
      && r.Ok?
      && (key == "title" ==> r.value == parent.(title := StripQuotes(valRaw)))
      && (key == "description" ==> r.value == parent.(description := StripQuotes(valRaw)))
  {
  }

  /** `examples` replaces the examples by the parsed value; when the value
      is not JSON it is appended to the examples, which throws unless the
      examples are an array. */
  lemma ExamplesRule(parent: Def, optional: bool, valRaw: string, variables: map<string, string>,
                     parseJson: string -> Option<Value>, toNumber: string -> Option<int>)
    ensures var r := Described(parent, "examples", optional, valRaw, variables, parseJson, toNumber);
      var parsed := parseJson(ReplaceChar(valRaw, '\'', '"'));
      && (parsed.Some? ==> r == Ok(parent.(examples := parsed.value)))
      && (parsed.None? && parent.examples.Arr? ==>
            r.Ok? && r.value.examples.items == parent.examples.items + [Str(valRaw)]
            && r.value.(examples := parent.examples) == parent)
      && (parsed.None? && !parent.examples.Arr? ==> r.Err?)
  {
  }
}
