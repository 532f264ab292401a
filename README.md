# Jen.js core, modelled in Dafny

This project is a Dafny model of the logic at the centre of the Jen.js
framework and its tools. It covers the query matcher and the updater of the
JSON document store, the SCSS front end of the native style packer, route
discovery and route matching, the SQL driver's query builder, cookies and
headers, sessions, the built-in middleware (rate limiting, input
validation, CORS) and the middleware registry, the bundler's build cache,
HTML asset injection, its minifier and helpers, the client-component
manifest, island markers, the documentation site's navigation, the
highlighter's escaping and the site configuration. It also covers two
repository scripts: the schema-language parser and the licence-header tool.

The model has one module per source file, plus shared modules:

- `Wrappers` holds `Option` and `Result`.
- `Text` holds the string operations of JavaScript and Rust used throughout
  (`split`, `join`, `trim`, `indexOf`, `replace`, ASCII case mapping,
  decimal text).
- `JsValues` holds a JavaScript value domain. Arrays and objects carry a
  reference tag, so `===` on them is identity. It also holds the language's
  relational comparison, given a `Number()` conversion as a parameter.

Pure code is written as functions, with lemmas about them. Code that
updates state step by step is written as methods, each proved against a
specification function:

- classes: `SessionManager`, the rate limiter's table, `MiddlewareRegistry`,
  `BuildCache`, the SCSS `Parser` and `Vars`, the SQL allow-list and driver
  state, the CORS response, and the document `applyUpdate` changes;
- loops carrying their invariants: the cookie and header loops, route
  scanning and matching, `extractIslandsFromHtml`, `createManifest`, the
  minifier's comment loop, the `parseDSL` line loop and the licence
  walk.

The file system, clocks, randomness, regular-expression engines and the
URI and JSON codecs never appear directly. Each one becomes a parameter or
a value: the file tree, `now`, the chosen characters, a route-name
function, `decode`/`encode`/`stringify`/`parse` functions.

Five discrepancies between the code and its evident intent are recorded
under "## Findings". Each has a model of the code as written, a lemma that
exhibits the problem, and a corrected definition with the intended
property proved.

## Model

| member | source | states |
|---|---|---|
| JdbTypes.FilterOpOfKey | src/jdb/types.ts:30-39 | reading an operator key gives the operator whose key it is, and no operator for any other key |
| JdbTypes.FilterOpKeysExactlyNine | src/jdb/types.ts:30-39 | the filter operators are exactly `$eq`, `$ne`, `$gt`, `$gte`, `$lt`, `$lte`, `$in`, `$nin`, `$regex`, and each one's key reads back as itself |
| JdbTypes.UpdateOpOfKey | src/jdb/types.ts:48 | reading an update key gives the operator whose key it is, and no operator for any other key |
| JdbTypes.UpdateOpKeysExactlyFive | src/jdb/types.ts:48-52 | the update operators are exactly `$set`, `$unset`, `$inc`, `$push`, `$pull`, and each key reads back as its operator |
| JdbTypes.SortDirValue | src/jdb/types.ts:54-58 | a sort direction is 1 or -1, and 1 exactly for ascending |
| JdbTypes.ReplyShape | src/jdb/types.ts:66-83 | `insert` answers one document, `insertMany` and `find` a list, `findOne` a document or null, and `update`, `delete` and `count` a number |
| JdbUtils.TargetIncludes | src/jdb/utils.ts:87-92 | `includes` on an array holds iff some element is `===` the value, and on a string iff the value's text is a substring |
| JdbUtils.MatchFilterIsConjunction | src/jdb/utils.ts:51-102 | a filter matches iff every one of its top-level keys holds, so `{}` matches every document |
| JdbUtils.MatchFromIsConjunction | src/jdb/utils.ts:52-101 | the loop over keys from key `k` on succeeds iff every remaining key holds |
| JdbUtils.OrIsDisjunction | src/jdb/utils.ts:53-56 | `$or` holds iff some sub-filter matches, so an empty `$or` matches nothing |
| JdbUtils.SomeFromIsDisjunction | src/jdb/utils.ts:54 | `some` from sub-filter `j` on holds iff one of the remaining sub-filters matches |
| JdbUtils.AndIsConjunction | src/jdb/utils.ts:57-60 | `$and` holds iff every sub-filter matches, so an empty `$and` matches everything |
| JdbUtils.EveryFromIsConjunction | src/jdb/utils.ts:58 | `every` from sub-filter `j` on holds iff all the remaining sub-filters match |
| JdbUtils.OpsHoldIsConjunction | src/jdb/utils.ts:66-97 | an operator object holds iff each of its operators holds |
| JdbUtils.FieldClauseMeaning | src/jdb/utils.ts:62-100 | a plain-object condition holds iff all its operators hold on `doc[key]`; any other condition holds iff `doc[key] === cond`, a missing field being `undefined` |
| JdbUtils.NonOperatorObjectMatchesAll | src/jdb/utils.ts:66-96 | an object condition none of whose keys is an operator matches every document |
| JdbUtils.NegatedOperators | src/jdb/utils.ts:69-92 | `$ne` is the negation of `$eq`, and `$nin` the negation of `$in` |
| JdbUtils.MirroredOperators | src/jdb/utils.ts:75-86 | `val > u` iff `u < val`, and `val >= u` iff `u <= val` |
| JdbUtils.MissingFieldComparisons | src/jdb/utils.ts:62-86 | on a missing field every relational operator fails and `$ne` with a defined value holds |
| JdbUtils.AgeRangeExample | src/jdb/utils.ts:65-97 | `{age: {$gte: 18, $lt: 65}}` matches an integer age exactly when it lies in 18..64 |
| JdbUtils.ArrayConditionIsIdentity | src/jdb/utils.ts:65-100 | an array condition matches only the very same array, not an equal-looking copy |
| JdbUtils.Plus | src/jdb/utils.ts:121 | JavaScript `+`: numbers add, a string on the left concatenates the other side's text, an array or object concatenates both texts |
| JdbUtils.IncValue | src/jdb/utils.ts:120-122 | `$inc` adds the delta to the current number or to 0 when the field is missing or null; a falsy value starts from 0; a non-empty string gets the digits appended |
| JdbUtils.Without | src/jdb/utils.ts:127-131 | the filtered array keeps exactly the elements not `===` the value, each as often as before, and nothing else |
| JdbUtils.ApplyUpdate | src/jdb/utils.ts:105-135 | the document's new fields are `_updated := now` followed by every operator's pairs applied in order, each as the switch prescribes |
| JdbUtils.ApplyFieldsFrame | src/jdb/utils.ts:111-133 | one operator leaves every field it does not name unchanged, and an unknown operator changes nothing |
| JdbUtils.ApplyOpsFrame | src/jdb/utils.ts:109-134 | a field that no pair of a known operator names keeps its value, and array identities are only taken fresh |
| JdbUtils.UpdateStampsAndFrames | src/jdb/utils.ts:106-107 | after the update `_updated` is the current time unless a pair writes it, and every other unnamed field is unchanged |
| JdbUtils.IncExamples | src/jdb/utils.ts:120-122 | `$inc` by 5 turns 10 into 15, and a missing field into 5 |
| JdbUtils.PushOntoArray | src/jdb/utils.ts:123-126 | `$push` appends the value to the end of the existing array, which keeps its ref tag |
| JdbUtils.PushOntoMissing | src/jdb/utils.ts:123-126 | `$push` onto a missing field stores a fresh one-element array |
| JdbUtils.PullEveryOccurrence | src/jdb/utils.ts:127-131 | `$pull` removes every element `===` the value, into a new array |
| JdbUtils.ReservedFieldsUnprotected | src/jdb/utils.ts:113-116 | `$set` on `_id` replaces it, so the result need not be a document any more |
| JsValues.StrictEqSymmetric | src/jdb/utils.ts:70 | `===` is symmetric |
| JsValues.StrictEqReflexive | src/jdb/utils.ts:70 | `===` is reflexive on the modelled values (numbers are integers, so there is no NaN) |
| JsValues.Compare | src/jdb/utils.ts:75-86 | JavaScript's relational comparison: two strings compare by code units, anything else compares as numbers, and a side that converts to NaN (`undefined`, a non-numeric string) makes every comparison false |
| JsValues.CompareAntisymmetric | src/jdb/utils.ts:75-86 | `a < b` iff `b > a`, whatever the operand types |
| JdbUtils.MatchFilter | src/jdb/utils.ts:51-102 | `matchFilter`: the filter's keys are tried in order and the first that fails makes the answer false |
| JdbUtils.MatchFrom | src/jdb/utils.ts:52-101 | the loop over the filter's keys from key `k` on, stopping at the first that fails |
| JdbUtils.ClauseHolds | src/jdb/utils.ts:53-100 | `$or` needs some sub-filter to match, `$and` every one; a field key applies an operator object to `doc[key]` or else compares it with `===` |
| JdbUtils.OpHolds | src/jdb/utils.ts:66-97 | each of the nine operators as its `case` tests it, and an unknown operator constrains nothing |
| JdbUtils.ApplyField | src/jdb/utils.ts:111-132 | one `key: val` pair under its operator: `$set` stores, `$unset` deletes, `$inc` adds to the value or 0, `$push` appends and first stores a new array over a non-array, `$pull` stores a new filtered array over an array only, an unknown operator does nothing |
| JdbUtils.ApplyOps | src/jdb/utils.ts:109-134 | the operators of an update, each with its pairs, applied in order |
| ScssParser.StateAfterSnoc | native/stylepack/src/scss/parser.rs:163-198 | the quote and depth state after one more character is one tracking step from the state before it |
| ScssParser.FirstTopStop | native/stylepack/src/scss/parser.rs:193-195 | the index found is a stop character outside strings and parentheses, and no earlier index is one; otherwise the end of the text |
| ScssParser.WsEnd | native/stylepack/src/scss/parser.rs:124-130 | the white-space run ends at the first character that is not white space |
| ScssParser.BlockCommentEnd | native/stylepack/src/scss/parser.rs:132-141 | a block comment ends just after its first `*/`, or runs to the end of the text when there is none |
| ScssParser.LineCommentEnd | native/stylepack/src/scss/parser.rs:143-152 | a line comment ends just after its first newline, or runs to the end of the text |
| ScssParser.SkipFrom | native/stylepack/src/scss/parser.rs:122-156 | skipping stops at the end or at a character that is neither white space nor the start of a comment |
| ScssParser.UnterminatedCommentRunsToEnd | native/stylepack/src/scss/parser.rs:132-141 | a `/*` with no `*/` after it makes the rest of the text a comment |
| ScssParser.RustTrimIsTrimmed | native/stylepack/src/scss/parser.rs:63 | trimming twice is trimming once |
| ScssParser.IdentIsTrimmed | native/stylepack/src/scss/parser.rs:95 | an identifier has no white space to trim |
| ScssParser.TrimKeepsFirst | native/stylepack/src/scss/parser.rs:101-112 | trimming keeps a first character that is not white space, so an at-rule head still starts with `@` |
| ScssParser.SplitSelectors | native/stylepack/src/scss/parser.rs:277-282 | the selectors are non-empty, trimmed, and contain no comma |
| ScssParser.TrimWithin | native/stylepack/src/scss/parser.rs:277-282 | trimming adds no character |
| ScssParser.DeclParts | native/stylepack/src/scss/parser.rs:241-275 | a declaration found has a non-empty trimmed property and a trimmed value |
| ScssParser.SplitDecl | native/stylepack/src/scss/parser.rs:241-275 | the character loop returns the property and value around the first colon outside quotes and parentheses, or nothing when there is no such colon or the property is empty |
| ScssParser.FirstTopStopIs | native/stylepack/src/scss/parser.rs:193-195 | a top-level stop with none before it is the one found |
| ScssParser.PlainStaysTop | native/stylepack/src/scss/parser.rs:176-191 | text without quotes or parentheses leaves the scan at the top level |
| ScssParser.DeclSplitsAtPropertyColon | native/stylepack/src/scss/parser.rs:265-271 | `prop:value` with a plain non-blank property splits into the trimmed property and the trimmed value |
| ScssParser.NoColonNoDecl | native/stylepack/src/scss/parser.rs:273-274 | text without a colon is not a declaration |
| ScssParser.QuotedColonDoesNotSplit | native/stylepack/src/scss/parser.rs:245-256 | a colon inside quotes does not split a declaration |
| ScssParser.NoStopLeft | native/stylepack/src/scss/parser.rs:163-200 | with no top-level stop left the scan runs to the end of the text |
| ScssParser.SerializeNodes | native/stylepack/src/scss/parser.rs:284-310 | the loop's output is the serialisation: declarations as `prop:value;`, rules as `sel1,sel2{body}`, variable declarations dropped, at-rule text followed by `;` unless it ends in `;` or `}` |
| ScssParser.AppendNode | native/stylepack/src/scss/parser.rs:287-307 | the body of the loop appends exactly the text the node serialises to, leaving what was written before in front |
| ScssParser.CssLikeAppend | native/stylepack/src/scss/parser.rs:286-308 | serialising a concatenation of node lists concatenates their serialisations |
| ScssParser.DropVarDecls | native/stylepack/src/scss/parser.rs:288 | removing variable declarations leaves none and never lengthens the list |
| ScssParser.VarDeclsVanish | native/stylepack/src/scss/parser.rs:288 | variable declarations contribute nothing to the serialised text |
| ScssParser.SerializeExamples | native/stylepack/src/scss/parser.rs:289-306 | `color:red;`, `a,b{color:red;}`, `@import x;`, and an at-rule block ending in `}` that gets no `;` |
| ScssParser.Parser.constructor | native/stylepack/src/scss/parser.rs:29-31 | a new parser stands at the start of its text |
| ScssParser.Parser.SkipWs | native/stylepack/src/scss/parser.rs:124-130 | the cursor moves to the end of the white-space run |
| ScssParser.Parser.SkipBlockComment | native/stylepack/src/scss/parser.rs:132-141 | the cursor moves past the comment's `*/`, or to the end of an unterminated comment |
| ScssParser.Parser.SkipLineComment | native/stylepack/src/scss/parser.rs:143-152 | the cursor moves past the next newline, or to the end |
| ScssParser.Parser.SkipOnce | native/stylepack/src/scss/parser.rs:123-154 | one pass skips white space and at most one comment; it asks for another pass only after a comment, having moved forward, and otherwise stops where skipping defines |
| ScssParser.Parser.SkipWsAndComments | native/stylepack/src/scss/parser.rs:122-156 | the cursor moves to the point that skipping white space and comments defines |
| ScssParser.Parser.ReadUntilAny | native/stylepack/src/scss/parser.rs:158-201 | the cursor stops at the first stop character outside strings and parentheses, or at the end, and the text consumed is returned |
| ScssParser.Parser.ReadIdent | native/stylepack/src/scss/parser.rs:203-216 | the maximal run of `[A-Za-z0-9_-]` is consumed and returned, ending where `IdentRunEnd` ends it; an empty run is the error `expected identifier` and consumes nothing |
| ScssParser.Parser.ExpectChar | native/stylepack/src/scss/parser.rs:218-226 | after white space and comments the character must be `ch`, which is consumed; otherwise the error `expected 'ch'` |
| ScssParser.Parser.ParseVarName | native/stylepack/src/scss/parser.rs:88-91 | succeeds exactly when `VarNameFrom` reads a name; the name returned is the identifier run that `VarNameFrom` locates and the cursor stands just after the `:`; otherwise the error is the message of the first missing part (`expected '$'`, `expected identifier`, `expected ':'`) |
| ScssParser.Parser.ReadNameAndColon | native/stylepack/src/scss/parser.rs:89-91 | after the `$`: succeeds exactly when the identifier run from the cursor is non-empty and a `:` follows it after white space and comments; returns that run and leaves the cursor after the `:`; otherwise `expected identifier` or `expected ':'` |
| ScssParser.Parser.ReadVarValue | native/stylepack/src/scss/parser.rs:92-93 | after the `:`: reads up to the first `;` outside strings and parentheses, or to the end; succeeds exactly when a `;` stands there after white space and comments, returning the text read and leaving the cursor after the `;`; otherwise `expected ';'` |
| ScssParser.Parser.ParseVarDecl | native/stylepack/src/scss/parser.rs:87-98 | succeeds exactly when `VarDeclFrom` reads a declaration; the node holds the trimmed name and the trimmed value at the spans `VarDeclFrom` locates and the cursor stands just after the `;`; otherwise the error is the message of the first missing part |
| ScssParser.Parser.ParseStatement | native/stylepack/src/scss/parser.rs:52-60 | a statement starting with `$` is read exactly as `parse_var_decl` reads it (success iff `VarDeclFrom` finds a declaration, the trimmed name and value at its spans, the cursor after the `;`, or the first missing part's message); one starting with `@` gives raw at-rule text; anything else is read as `RuleOrDeclFrom` states; what is read is well formed and the cursor moves forward |
| ScssParser.IdentRunEnd | native/stylepack/src/scss/parser.rs:203-211 | the run from `k` holds only characters of `[A-Za-z0-9_-]` and is maximal: it stops at the end or at a character outside that class |
| ScssParser.IdentRunEndIs | native/stylepack/src/scss/parser.rs:203-211 | a run of identifier characters that cannot be extended is the run `IdentRunEnd` finds |
| ScssParser.IdentRunIsIdent | native/stylepack/src/scss/parser.rs:203-216 | a non-empty identifier run is an SCSS identifier |
| ScssParser.SkipFromIdempotent | native/stylepack/src/scss/parser.rs:122-156 | skipping white space and comments again from where skipping stopped does not move |
| ScssParser.SkipAtSemicolon | native/stylepack/src/scss/parser.rs:122-156 | skipping white space and comments does not move from a `;` |
| ScssParser.VarNameFrom | native/stylepack/src/scss/parser.rs:88-91 | reading `$name:` from `k` yields a name that starts after `k`, then the name's end, then the position after the `:`, in that order within the text |
| ScssParser.DollarAt | native/stylepack/src/scss/parser.rs:88 | the `$` is expected at the position given, and a name read after it starts after that position |
| ScssParser.NameAt | native/stylepack/src/scss/parser.rs:89 | an empty identifier run is the missing identifier; a name read is exactly the run given |
| ScssParser.ColonAt | native/stylepack/src/scss/parser.rs:90-91 | the `:` is expected at the position given, and reading stops after it |
| ScssParser.VarDeclFrom | native/stylepack/src/scss/parser.rs:87-98 | reading `$name: value;` yields the name, then the value, then the position after the `;`, in order within the text |
| ScssParser.SemicolonAt | native/stylepack/src/scss/parser.rs:92-93 | the `;` is expected after white space and comments past the value's end; the value ends where the top-level scan stopped |
| ScssParser.DollarAtRead | native/stylepack/src/scss/parser.rs:88-91 | a name read from a position follows a `$` there, is the whole identifier run after it, and the `:` ends where reading stops |
| ScssParser.VarNameParts | native/stylepack/src/scss/parser.rs:88-91 | a name read from `k` follows the `$` where the text resumes after white space and comments, is the whole identifier run after it, and the `:` comes just before where reading stops |
| ScssParser.VarDeclParts | native/stylepack/src/scss/parser.rs:87-98 | in a declaration read from `k`, the name is the whole identifier run after the `$` where the text resumes, the value starts just after the `:`, the `;` is right after the value, and the value holds no `;` outside strings and parentheses |
| ScssParser.VarDeclFromWellFormed | native/stylepack/src/scss/parser.rs:87-98 | the node built from the spans read has an identifier name and a trimmed value |
| ScssParser.DollarMissing | native/stylepack/src/scss/parser.rs:88 | when, after white space and comments, the text does not go on with `$`, the declaration fails with the `$` missing |
| ScssParser.IdentifierMissing | native/stylepack/src/scss/parser.rs:89 | when the `$` is not followed by an identifier character, the declaration fails with the identifier missing |
| ScssParser.ColonMissing | native/stylepack/src/scss/parser.rs:90-91 | when no `:` comes after the name and any white space and comments, the declaration fails with the `:` missing |
| ScssParser.SemicolonMissing | native/stylepack/src/scss/parser.rs:92-93 | when no `;` outside strings and parentheses follows the `:`, the declaration fails with the `;` missing |
| ScssParser.ScanOne | native/stylepack/src/scss/parser.rs:164-197 | one pass of the scan loop either stops at a top-level stop character, which is then the first one, or moves forward without passing one, keeping the quote and depth state in step with the text |
| ScssParser.Parser.ParseAtStmt | native/stylepack/src/scss/parser.rs:100-120 | an at-rule becomes raw text starting with `@` |
| ScssParser.DeclOrError | native/stylepack/src/scss/parser.rs:73-79 | a head that splits at a top-level colon becomes that declaration; any other head fails with `invalid declaration: ` and the trimmed head |
| ScssParser.Parser.FinishRuleOrDecl | native/stylepack/src/scss/parser.rs:66-81 | at `{` the cursor steps over it and a rule comes back whose selectors are those of the head; at `;` it steps over it and the declaration or its error comes back; at anything else, or at the end, the call fails with `unexpected token near: ` and the head, and the cursor stays |
| ScssParser.Parser.ParseRuleOrDecl | native/stylepack/src/scss/parser.rs:62-82 | the head is read up to the first top-level `{` or `;`, trimmed, and what follows the white space and comments after it decides, as in `FinishRuleOrDecl`: a rule with the head's selectors, a declaration or its error, or `unexpected token near: `; a result is well formed |
| ScssParser.Parser.ParseBlockUntil | native/stylepack/src/scss/parser.rs:33-85 | the nodes read are well formed; the top level runs to the end of the text, and a nested block ends just after its closing character or at the end |
| ScssParser.ParseScss | native/stylepack/src/scss/parser.rs:16-20 | a successful parse yields well-formed nodes |
| ScssValue.IdentEnd | native/stylepack/src/scss/value.rs:62-77 | the identifier run is maximal: every character in it is one of `[A-Za-z0-9_-]` and the one after it is not |
| ScssValue.ReadIdent | native/stylepack/src/scss/value.rs:62-77 | the loop returns the maximal identifier run and the index just after it |
| ScssValue.Vars.constructor | native/stylepack/src/scss/value.rs:25-27 | a new table binds nothing |
| ScssValue.Vars.Set | native/stylepack/src/scss/value.rs:29-31 | `set` binds the key to the value, replacing any earlier binding and leaving the others |
| ScssValue.Vars.Get | native/stylepack/src/scss/value.rs:33-35 | `get` finds a value exactly for a bound key, and it is the latest one bound |
| ScssValue.Vars.ResolveValue | native/stylepack/src/scss/value.rs:37-59 | the loop's output is the substitution: a bound `$name` becomes its value, an unbound one stays `$name`, a `$` without a name is copied, and scanning resumes after the name |
| ScssValue.NoDollarUnchanged | native/stylepack/src/scss/value.rs:41-57 | text without `$` comes back unchanged |
| ScssValue.UnboundUnchanged | native/stylepack/src/scss/value.rs:44-50 | with nothing bound every reference is kept as written, so the text comes back unchanged |
| ScssValue.SubstitutionExamples | native/stylepack/src/scss/value.rs:42-56 | `1px $c` with `c` bound to `red` gives `1px red`, `$ 5` is copied, and a value that itself holds `$b` is not scanned again |
| ScssScan.Partialize | native/stylepack/src/scss/scan.rs:37-43 | the partial is the path with `_` inserted at one point and nothing else changed, so one character longer |
| ScssScan.PartialIndex | native/stylepack/src/scss/scan.rs:38-42 | the insertion point is just after the last `/`, or the front when there is none |
| ScssScan.ImportCandidates | native/stylepack/src/scss/scan.rs:17-35 | with backslashes turned into `/`, a path ending in `.scss`, `.sass` or `.css` yields itself and its partial, and any other yields `path.scss`, its partial, `path/index.scss` and its partial, in that order; no candidate has a backslash and each ends in a style extension |
| ScssScan.NoBackslashLeft | native/stylepack/src/scss/scan.rs:20 | no backslash is left after the replacement |
| ScssScan.WithStyleExtension | native/stylepack/src/scss/scan.rs:29-32 | `path.scss` and `path/index.scss` end in a style extension |
| ScssScan.InsertKeepsSuffix | native/stylepack/src/scss/scan.rs:38-41 | inserting before the file name keeps a suffix that has no `/` |
| ScssScan.PartialKeepsShape | native/stylepack/src/scss/scan.rs:37-43 | the partial of a style path keeps its extension and gains no backslash |
| ScssScan.PartializeExamples | native/stylepack/src/scss/scan.rs:37-43 | `a/b/c.scss` becomes `a/b/_c.scss` and `c.scss` becomes `_c.scss` |
| ScssValue.Resolve | native/stylepack/src/scss/value.rs:37-59 | the substitution from the start of the text: a bound `$name` is replaced by its value, anything else is copied |
| RoutesScan.EscapeRegex | src/core/routes/scan.ts:46-48 | escaping never shortens the text and leaves text without special characters unchanged |
| RoutesScan.UnescapeEscape | src/core/routes/scan.ts:46-48 | the escaped literal reads back as the original text, each backslash standing for the character after it |
| RoutesScan.EscapeExamples | src/core/routes/scan.ts:47 | `a.b` escapes to `a\.b` and `ab` is unchanged |
| RoutesScan.Classify | src/core/routes/scan.ts:69-77 | a part starting with `:` is a parameter, one starting with `*` (and not `:`) a rest parameter, anything else a literal |
| RoutesScan.Parts | src/core/routes/scan.ts:65 | the parts of a URL path are non-empty and contain no `/` |
| RoutesScan.Segments | src/core/routes/scan.ts:65-78 | one classified segment per non-empty part, in order |
| RoutesScan.RegexParts | src/core/routes/scan.ts:68-78 | each segment becomes its own regex: `([^/]+)` for a parameter, `(.*)` for a rest parameter, the escaped text for a literal |
| RoutesScan.ParamNamesCount | src/core/routes/scan.ts:66-76 | there is one parameter name per dynamic segment |
| RoutesScan.StaticHasNoParams | src/core/routes/scan.ts:66-77 | a purely literal path has no parameter names |
| RoutesScan.BuildRoutePattern | src/core/routes/scan.ts:62-82 | the pattern is `^/`, the segment regexes joined by `/`, then `/?$`, and the parameter names are those of the dynamic segments left to right |
| RoutesScan.PatternExamples | src/core/routes/scan.ts:62-82 | `/:id` gives `^/([^/]+)/?$`, `/` gives `^//?$`, and `/:id/*rest` names `id` and `rest` |
| RoutesScan.CollapseSlashes | src/core/routes/scan.ts:119-146 | replacing `//` by `/` never lengthens the URL |
| RoutesScan.CollapseWithoutDoubleSlash | src/core/routes/scan.ts:119 | a URL without `//` is left as it is |
| RoutesScan.RouteUrl | src/core/routes/scan.ts:110-151 | `($p)` names `:p` and `(...r)` names `*r` under the directory, and a name that is not an identifier is an error; `(home)` names `/` at the root or `/dir`; any other name is a literal segment under the directory |
| RoutesScan.RouteUrlExamples | src/core/routes/scan.ts:131-150 | `(home)` in `blog` names `/blog`, at the root `/`, and `($1x)` is refused |
| RoutesScan.RouteOfFile | src/core/routes/scan.ts:90-161 | a file without a configured extension, or whose name does not match the route-file pattern, yields no route; otherwise it yields an error exactly when the URL rules throw for its directory and name, with the same message, and else a route whose URL is the one those rules give; a route found has the pattern and names built from its URL, the id is the relative path with `/` replaced by `_`, and the file path is the absolute one |
| RoutesScan.CollectRoutes | src/core/routes/scan.ts:88-162 | the routes collected, in file order, are all built from their URLs, at most one per file |
| RoutesScan.Outcomes | src/core/routes/scan.ts:90-161 | one outcome per file, in file order, each the route, the absence of one or the error that file yields |
| RoutesScan.RoutePositions | src/core/routes/scan.ts:90-161 | the positions of the outcomes that are routes, increasing, and every such position among them |
| RoutesScan.Collected | src/core/routes/scan.ts:88-162 | folding the outcomes fails exactly when one of them is an error; otherwise the `j`-th route is the `j`-th outcome that is a route |
| RoutesScan.CollectRoutesOutcomes | src/core/routes/scan.ts:88-162 | collecting over the files is folding their outcomes |
| RoutesScan.CollectRoutesInOrder | src/core/routes/scan.ts:88-162 | the collection fails exactly when some file gives an error; otherwise the `j`-th route collected is the route of the `j`-th file that yields one, so the routes keep file order |
| RoutesScan.BeforeAsymmetric | src/core/routes/scan.ts:164-170 | the comparator never puts both of two routes before the other |
| RoutesScan.InsertRoute | src/core/routes/scan.ts:164-170 | inserting into a sorted list keeps it sorted and adds exactly that route |
| RoutesScan.SortRoutes | src/core/routes/scan.ts:164-170 | the sorted routes are in comparator order and are a permutation of the input |
| RoutesScan.StaticBeforeDynamic | src/core/routes/scan.ts:166-168 | after sorting, every route after a dynamic one is dynamic, so static routes come first |
| RoutesScan.SameKindInUrlOrder | src/core/routes/scan.ts:169 | neighbouring routes of the same kind are in URL order |
| RoutesScan.RouteFor | src/core/routes/scan.ts:91-161 | the per-file step yields the route that file defines |
| RoutesScan.CollectStep | src/core/routes/scan.ts:90-162 | handling one more file appends its route, skips it, or fails |
| RoutesScan.ErrorStops | src/core/routes/scan.ts:135-143 | once a file throws, the whole scan throws |
| RoutesScan.ScanRoutes | src/core/routes/scan.ts:84-173 | the scan fails iff some file's route throws; otherwise it returns the collected routes, sorted |
| RoutesScan.SortedStillBuilt | src/core/routes/scan.ts:164-172 | sorting keeps every route's pattern and names those built from its URL |
| RoutesMatch.NonSlashRun | src/core/routes/scan.ts:71 | `[^/]` can take exactly the characters up to the next `/` |
| RoutesMatch.AnyRun | src/core/routes/scan.ts:75 | `.` can take exactly the characters up to the next line terminator: none of them is one, and the character after them is one or the text ends |
| RoutesMatch.GroupsSnoc | src/core/routes/scan.ts:68-78 | one more segment adds one capture group exactly when it is dynamic |
| RoutesMatch.GroupsMatchParamNames | src/core/routes/match.ts:36-37 | a built pattern has one capture group per parameter name, so the `?? ""` default is never taken |
| RoutesMatch.MatchFrom | src/core/routes/match.ts:31-33 | a match of the remaining segments yields one capture per remaining group |
| RoutesMatch.TryLengths | src/core/routes/match.ts:31-33 | a greedy group tried from the longest length down yields one capture per remaining group |
| RoutesMatch.MatchPath | src/core/routes/match.ts:31-33 | a match of a built pattern yields one capture per group |
| RoutesMatch.SliceSplit | src/core/routes/match.ts:32 | the text from `i` is `a` then `b` iff `a` occurs at `i` and `b` follows it |
| RoutesMatch.MatchAtLiteral | src/core/routes/scan.ts:77 | at a literal segment the matcher needs its `/` and its exact text, then matches the rest |
| RoutesMatch.StaticStepInner | src/core/routes/match.ts:31-33 | from a literal segment after the first, the matcher succeeds iff the text is `/`, that segment's text and the rest of the path, optionally with one trailing `/` |
| RoutesMatch.StaticStepFirst | src/core/routes/match.ts:31-33 | from the first literal segment, the matcher succeeds iff the text is the spelled path, optionally with one trailing `/` |
| RoutesMatch.StaticMatchFrom | src/core/routes/match.ts:31-33 | literal segments from `j` on match iff the text from `i` spells them, optionally with one trailing `/` |
| RoutesMatch.StaticRouteMatches | src/core/routes/match.ts:31-33 | a route without parameters matches exactly its own path, with or without one trailing `/` |
| RoutesMatch.ParamCaptures | src/core/routes/match.ts:31-37 | `/:name` captures the whole non-empty, `/`-free text after the slash |
| RoutesMatch.ParamNeedsText | src/core/routes/match.ts:31-33 | `/:name` does not match the bare root |
| RoutesMatch.RestMatchesRoot | src/core/routes/match.ts:31-33 | `/*name` matches the bare root, capturing the empty text |
| RoutesMatch.RestCaptures | src/core/routes/match.ts:31-33 | `/*name` captures all the text after the root slash, slashes and a trailing `/` included, when it holds no line terminator |
| RoutesMatch.RestExample | src/core/routes/match.ts:31-33 | `/*r` against `/a/b` captures `a/b` |
| RoutesMatch.ParamsKeys | src/core/routes/match.ts:35-38 | the params object has exactly the parameter names as keys |
| RoutesMatch.ParamsLastWins | src/core/routes/match.ts:36-38 | a name's value is the decoded capture at its last position |
| RoutesMatch.ParamsFail | src/core/routes/match.ts:37 | building the params throws exactly when some capture fails to decode |
| RoutesMatch.DecodeParams | src/core/routes/match.ts:35-38 | the loop builds the params object: each name bound to its decoded capture, or `""` when missing, later names overwriting earlier ones |
| RoutesMatch.FirstMatch | src/core/routes/match.ts:30-42 | the index found is a matching route with no matching route before it, and there is none iff no route matches |
| RoutesMatch.MatchRoute | src/core/routes/match.ts:26-43 | the loop returns the first matching route with its decoded params, null when no route matches, or the decoding error |
| RoutesMatch.FirstMatchIs | src/core/routes/match.ts:30-40 | a matching route with no match before it is the one returned |
| RoutesMatch.ParamErrorStops | src/core/routes/match.ts:37 | a failed decode fails the whole params build with the same error |
| RoutesMatch.BuildParams | src/core/routes/match.ts:35-38 | the params after the first `n` iterations: each name bound to the decoded capture of its group, or of `""` when there is none, later names overwriting earlier ones; the first capture that fails to decode is a thrown error |
| SqlDriver.QuoteIdentifier | src/db/drivers/sql.ts:38-45 | an identifier `[A-Za-z_$][A-Za-z0-9_$]*` comes back wrapped in backticks, and anything else, the empty string included, is refused |
| SqlDriver.ValidateInteger | src/db/drivers/sql.ts:68-74 | a non-negative number passes as itself, a negative one is refused, and nothing negative ever passes |
| SqlDriver.ValidateParsed | src/db/drivers/sql.ts:69-73 | a value that `parseInt` accepts passes only when it is not negative |
| SqlDriver.BooleanRefused | src/db/drivers/sql.ts:69-71 | `limit: true` is refused, because `"true"` does not parse |
| SqlDriver.AllowList.constructor | src/db/drivers/sql.ts:31 | the allow-list starts empty |
| SqlDriver.AllowList.Register | src/db/drivers/sql.ts:50-56 | an identifier is added to the set and anything else is refused with the set unchanged, so the set only grows and holds only identifiers |
| SqlDriver.AllowList.IsAllowed | src/db/drivers/sql.ts:61-63 | a table is allowed iff it was registered |
| SqlDriver.WhereParts | src/db/drivers/sql.ts:126-138 | the where record yields one `` `key` = ? `` per entry with its value at the same index, and fails iff some key is not an identifier |
| SqlDriver.WhereText | src/db/drivers/sql.ts:126-140 | a missing or empty where record adds no text and no parameters |
| SqlDriver.OptionText | src/db/drivers/sql.ts:142-151 | a falsy limit or skip adds nothing, a positive number adds the keyword and the number, and a negative one is refused |
| SqlDriver.UnregisteredRefused | src/db/drivers/sql.ts:117-121 | a query against a table that was never registered is refused, whatever else it says |
| SqlDriver.InvalidColumnRefused | src/db/drivers/sql.ts:131-133 | a where key that is not an identifier is refused |
| SqlDriver.LimitRules | src/db/drivers/sql.ts:142-151 | a negative limit is refused, a zero limit and skip add nothing, and a positive limit adds ` LIMIT n` |
| SqlDriver.TranslateWhere | src/db/drivers/sql.ts:123-140 | with valid names and no options the text is the `SELECT` with the conditions joined by ` AND `, and the parameters are the where values in the same order |
| SqlDriver.Keys | src/db/drivers/sql.ts:164 | the keys of the record, in key order |
| SqlDriver.Values | src/db/drivers/sql.ts:176 | the values of the record, in key order |
| SqlDriver.FirstBadKey | src/db/drivers/sql.ts:167-171 | the first key that is not an identifier, with every earlier key valid; none iff all keys are valid |
| SqlDriver.CheckKeys | src/db/drivers/sql.ts:166-171 | the key loop stops at the first key that is not an identifier, and passes iff there is none |
| SqlDriver.FirstBadKeyAt | src/db/drivers/sql.ts:166-171 | an invalid key with only valid keys before it is the one reported |
| SqlDriver.CountOf | src/db/drivers/sql.ts:233 | the count read back is a truthy value or 0 |
| SqlDriver.SqlDriverState.constructor | src/db/drivers/sql.ts:79-91 | a new driver has made no executor calls, and it has an executor exactly when the connection is a function or an object with `query`; otherwise it holds the stub that always rejects |
| SqlDriver.Executed | src/db/drivers/sql.ts:80-90 | an executor call settles with the connection's own answer when there is a connection, and with the rejection `No SQL connection provided to SQLDriver` when there is none |
| SqlDriver.AfterRun | src/db/drivers/sql.ts:177-179 | after `await this.executor(...)` the method returns its value only when the call resolved, and passes a rejection on unchanged |
| SqlDriver.SqlDriverState.TranslateQuery | src/db/drivers/sql.ts:115-154 | the method returns the translation of the query against the registered tables, or the error it throws |
| SqlDriver.SqlDriverState.RunQuery | src/db/drivers/sql.ts:101-113 | a string runs with `[]`, a `{sql}` query with `params \|\| []`, and a find query with its translation, each recorded as exactly one executor call whose answer, rows or rejection, is the result; a translation error runs nothing |
| SqlDriver.SqlDriverState.Create | src/db/drivers/sql.ts:156-180 | an unregistered table or an invalid key is refused with nothing run; otherwise one `INSERT` with one `?` and one parameter per key in key order is run, and the input is returned when it resolves or its rejection passed on |
| SqlDriver.SqlDriverState.Update | src/db/drivers/sql.ts:182-192 | `update` always throws its not-implemented error |
| SqlDriver.SqlDriverState.Delete | src/db/drivers/sql.ts:194-217 | an unregistered table or a missing or empty filter is refused with nothing run; otherwise the translated text goes through the `replace` as written, is run once, and 1 is returned when it resolves or its rejection passed on |
| SqlDriver.SqlDriverState.Count | src/db/drivers/sql.ts:219-234 | an unregistered table is refused; otherwise the translated text with its head turned into a count is run once, and the first row's `count`, or 0, is returned when it resolves or its rejection passed on |
| SqlDriver.BuildWhere | src/db/drivers/sql.ts:126-140 | the loop produces the where text and parameters, or the error for the first invalid column |
| SqlDriver.WhereLoop | src/db/drivers/sql.ts:126-138 | the loop over the where entries yields exactly the conditions and parameters of the record, or the error for its first invalid column |
| SqlDriver.WhereStep | src/db/drivers/sql.ts:129-137 | one turn of the loop appends the entry's condition and value, or refuses its name |
| SqlDriver.WherePrefix | src/db/drivers/sql.ts:129-137 | one more where entry appends its `` `key` = ? `` condition and value, or fails with that key's error |
| SqlDriver.WhereErrorStops | src/db/drivers/sql.ts:131-133 | an invalid column in a prefix fails the whole record with that column's error |
| SqlDriver.JoinNoBackslash | src/db/drivers/sql.ts:139 | joining texts without a backslash gives one without a backslash |
| SqlDriver.IdentifierNoBackslash | src/db/drivers/sql.ts:131 | an identifier holds no backslash |
| SqlDriver.TranslatedFilterShape | src/db/drivers/sql.ts:123-213 | the text `delete` and `count` translate starts with ``SELECT * FROM `table` `` and holds no backslash |
| SqlDriver.TranslatedFilterText | src/db/drivers/sql.ts:123-140 | with no options the translation is the quoted table's `SELECT` head followed by the `WHERE` clause |
| SqlDriver.WhereNoBackslash | src/db/drivers/sql.ts:126-140 | the `WHERE` clause holds no backslash, its columns being identifiers |
| SqlDriver.DeleteRunsSelect | src/db/drivers/sql.ts:214 | as written, the `replace` leaves the text unchanged, so `delete` runs the `SELECT` |
| SqlDriver.DeleteSqlDeletes | src/db/drivers/sql.ts:210-215 | with `SELECT *` replaced, the text deletes from the same table with the same conditions |
| SqlDriver.CountSqlCounts | src/db/drivers/sql.ts:227-231 | `count` runs `SELECT COUNT(*) as count` over the same table and conditions |
| SqlDriver.Translate | src/db/drivers/sql.ts:115-153 | an unregistered table fails first; then the quoted table's `SELECT`, the `WHERE` conditions with one parameter per key, and `LIMIT` and `OFFSET` for truthy options, each failing at the first invalid name or number |
| SqlDriver.DeleteSql | src/db/drivers/sql.ts:210-215 | the statement `delete` evidently means to run: the first `SELECT *` turned into `DELETE` |
| Cookies.AttributesAppend | src/auth/cookie-utils.ts:34-51 | writing two attribute lists one after the other writes their concatenation |
| Cookies.CreateSecureCookie | src/auth/cookie-utils.ts:18-54 | the cookie is the encoded name, `=`, the encoded value, then `; ` and each attribute the merged options call for, in the fixed order Max-Age, Path, Domain, Secure, HttpOnly, SameSite |
| Cookies.AppendAttribute | src/auth/cookie-utils.ts:34-51 | appending `; a` to the text written so far writes one more attribute |
| Cookies.Decimal86400 | src/auth/cookie-utils.ts:27 | a day's Max-Age is written `86400` |
| Cookies.DefaultAttributes | src/auth/cookie-utils.ts:23-31 | with no options the cookie carries Max-Age=86400, Path=/, Secure only in production, HttpOnly and SameSite=Strict, in that order |
| Cookies.CallerOverrides | src/auth/cookie-utils.ts:31 | caller options win over the defaults even when `undefined`, `false` or empty, so only Domain and the default Secure remain in the example |
| Cookies.CookieOf | src/auth/cookie-utils.ts:73-80 | a trimmed name and value give a cookie iff both are non-empty and both decode; the cookie is the decoded pair |
| Cookies.PartCookieSplit | src/auth/cookie-utils.ts:64-80 | a part whose trimmed text is `a=b`, `a` holding no `=`, yields the cookie of the trimmed `a` and `b` |
| Cookies.PartCookieNoEquals | src/auth/cookie-utils.ts:64-68 | a part without `=` yields no cookie |
| Cookies.PartCookies | src/auth/cookie-utils.ts:64 | one result per `;`-part, in header order |
| Cookies.ParseCookies | src/auth/cookie-utils.ts:59-85 | an empty or blank header has no cookies; otherwise the map is filled from the parts in order |
| Cookies.FillJar | src/auth/cookie-utils.ts:64-82 | the `forEach` sets each cookie a part yields, in order |
| Cookies.SetPart | src/auth/cookie-utils.ts:64-80 | the body of the `forEach` sets the cookie a part yields and leaves the map alone for a part that yields none |
| Cookies.JarKeys | src/auth/cookie-utils.ts:74-76 | a name is a key iff some part yields it |
| Cookies.LaterDuplicateWins | src/auth/cookie-utils.ts:76 | a name's value comes from the last part that yields it |
| Cookies.ValidateSessionCookie | src/auth/cookie-utils.ts:90-94 | an empty header is not a valid session cookie |
| Cookies.ValidateParts | src/auth/cookie-utils.ts:96-112 | a first part without `=` fails; a name that does not decode throws; otherwise the cookie is valid iff its name decodes to the expected name and the other parts include HttpOnly and a SameSite attribute, plus Secure in production |
| Cookies.TrimAll | src/auth/cookie-utils.ts:96 | every part is trimmed, and none is lost |
| Cookies.TrimNoSpace | src/auth/cookie-utils.ts:96 | text without white space at its ends is not changed by trimming |
| Cookies.TrimLeadingSpace | src/auth/cookie-utils.ts:96 | the space after `;` is trimmed off a word |
| Cookies.FlagWords | src/auth/cookie-utils.ts:105-110 | `HttpOnly`, `Secure` and `SameSite=Strict` are the flags validation looks for |
| Cookies.Spaced | src/auth/cookie-utils.ts:35-50 | each attribute follows the space of its `; ` |
| Cookies.AttributesCons | src/auth/cookie-utils.ts:35-50 | the first attribute is written as `;`, a space and the attribute, before the others |
| Cookies.SplitCookie | src/auth/cookie-utils.ts:32-96 | splitting a built cookie at `;` gives back its pair and its spaced attributes |
| Cookies.DefaultWordsPlain | src/auth/cookie-utils.ts:23-29 | the default attributes hold no `;` and no white space |
| Cookies.DefaultParts | src/auth/cookie-utils.ts:23-51 | a default cookie's attributes are plain words and carry HttpOnly and SameSite, and Secure in production |
| Cookies.DefaultCookieParts | src/auth/cookie-utils.ts:23-96 | a default cookie splits into its pair and attributes that carry the flags validation looks for |
| Cookies.TrimSpaced | src/auth/cookie-utils.ts:96 | trimming the split parts gives the pair and the attributes themselves |
| Cookies.TrimPairPart | src/auth/cookie-utils.ts:96-97 | the trimmed first part is the pair |
| Cookies.TrimAttributePart | src/auth/cookie-utils.ts:96-97 | each trimmed later part is its attribute |
| Cookies.PairName | src/auth/cookie-utils.ts:101 | the name before the first `=` of `en=ev` is `en` |
| Cookies.DefaultCookieValidates | src/auth/cookie-utils.ts:18-113 | a cookie built with the default options passes validation under the same production setting, for any name and value whose encodings hold no separator or white space and whose name decodes back |
| Cookies.PairShape | src/auth/cookie-utils.ts:32 | the encoded pair holds no `;`, starts and ends without white space, and is non-empty |
| Cookies.PartCookie | src/auth/cookie-utils.ts:64-82 | a part is trimmed and split at its first `=`; both sides trimmed must be non-empty and decodable, or the part gives no cookie |
| HttpTs.PartTextAtFirstEquals | src/core/http.ts:26-28 | splitting at every `=` and joining the rest again is splitting at the first `=`: name and value are the trimmed text before and after it |
| HttpTs.SameTextAsCookieHelpers | src/core/http.ts:25-31 | this parser and the session-cookie parser of src/auth/cookie-utils.ts read the same name and value from a part and drop the same parts |
| HttpTs.PartTexts | src/core/http.ts:24-28 | one result per `;`-part, in header order, the result at index `i` being what part `i` carries |
| HttpTs.Assign | src/core/http.ts:29-31 | a part with an empty name or value changes nothing, an undecodable value throws `URIError`, and otherwise the decoded value is stored under the name |
| HttpTs.ParseCookies | src/core/http.ts:21-34 | with no cookie header the result is `{}`; otherwise the record the parts fill |
| HttpTs.FillRecord | src/core/http.ts:25-32 | the loop fills the record part by part |
| HttpTs.AssignPart | src/core/http.ts:26-31 | the loop body reads one part and stores its decoded value when it carries one |
| HttpTs.RecordErrorStops | src/core/http.ts:30 | an error in a prefix of the parts is the error of the whole header |
| HttpTs.ErrorIsMalformed | src/core/http.ts:30 | the only error is `URIError: URI malformed` |
| HttpTs.UndecodableFails | src/core/http.ts:30 | a value that fails to decode makes the parse fail, wherever it stands |
| HttpTs.RecordKeys | src/core/http.ts:29-31 | when every value decodes, a name is a key iff some part carries it with a non-empty value |
| HttpTs.RecordLastWins | src/core/http.ts:30 | when every value decodes, a name takes the decoded value of the last part that carries it |
| HttpTs.HeadersToObject | src/core/http.ts:36-45 | the loop builds the record of the header entries, in entry order |
| HttpTs.HeaderRecordMeaning | src/core/http.ts:40-43 | a header is kept iff its value is a string, copied, or a list, joined with `, `; nothing else appears |
| HttpJs.PartTextAtFirstEquals | src/core/http.js:24-25 | the name is the trimmed part up to its first `=` and the value the text after it |
| HttpJs.EmptyValueKept | src/core/http.js:24-25 | a part such as `a=` is kept with the value `""`, where the TypeScript parser drops it |
| HttpJs.PartTexts | src/core/http.js:22-25 | one name and value per part, in header order, taken from part `i` at index `i` |
| HttpJs.ParseCookies | src/core/http.js:19-28 | with no cookie header the result is `{}`; otherwise every part stores its decoded value under its name, later parts winning |
| HttpJs.FillRecord | src/core/http.js:23-26 | the loop fills the record part by part |
| HttpJs.AssignPart | src/core/http.js:23-25 | the body of the loop stores the decoded value under the part's name, and throws when the value does not decode |
| HttpJs.KeysAreAllNames | src/core/http.js:23-26 | when every value decodes, the keys are exactly the names of all the parts |
| HttpJs.TrailingSemicolonEmptyName | src/core/http.js:23-25 | a header ending in `;` stores the empty name, which the TypeScript parser never does |
| HttpJs.SplitLastEmpty | src/core/http.js:23 | the last piece of a header ending in `;` is empty |
| HttpTs.Record | src/core/http.ts:24-33 | the record the parts fill in order, later duplicates winning, with the first value that fails to decode as a thrown error |
| Sessions.DefaultSessionTimeout | src/auth/session.js:19 | without `SESSION_TIMEOUT` in the environment the timeout is 86400000 ms, one day |
| Sessions.DefaultTimeoutText | src/auth/session.js:19 | the default text `"86400000"` is the decimal form of 86400000, so parsing it gives that number |
| Sessions.NewSession | src/auth/session.js:44-49 | each of `userId`, `createdAt` and `expiresAt` is the caller's data field when present and otherwise the user id, `now` and `now + timeout`; extra fields of the data are kept |
| Sessions.PlainSession | src/auth/session.js:44-49 | a session created without data belongs to the user, starts now and expires `timeout` later |
| Sessions.IdAlphabetShape | src/auth/session.js:103-104 | the id alphabet has 62 characters, all ASCII letters or digits |
| Sessions.GenerateSecureSessionId | src/auth/session.js:102-110 | the id has 32 characters, character `i` being the alphabet entry at the `i`th random pick, so ids are alphanumeric |
| Sessions.SessionManager.constructor | src/auth/session.js:26-31 | a new manager holds no sessions |
| Sessions.SessionManager.CreateSession | src/auth/session.js:36-53 | a user id that is not a non-empty string of at most 255 characters is an error and stores nothing; otherwise a generated id is returned and the table gains exactly that id mapped to the new session |
| Sessions.SessionManager.GetSession | src/auth/session.js:58-71 | a missing or empty id, an unknown id or an expired session gives nothing; an expired session is removed and nothing else changes; a live session is returned unchanged; since every stored key came from the id generator, an id not of its 32-character alphanumeric shape finds nothing and changes nothing |
| Sessions.SessionManager.DestroySession | src/auth/session.js:76-78 | the table loses exactly that id |
| Sessions.SessionManager.VerifySession | src/auth/session.js:83-86 | the live session's user id, or null when there is none or it has no user id; the table changes as a lookup changes it |
| Sessions.SessionManager.RefreshSession | src/auth/session.js:91-97 | true exactly when a live session is found, and then only its expiry changes, to `now + timeout`; otherwise false and the table changes as a lookup changes it |
| Sessions.SessionManager.CleanupExpiredSessions | src/auth/session.js:115-122 | exactly the sessions whose expiry lies strictly before `now` are removed |
| Sessions.ExpiryBoundary | src/auth/session.js:65-68 | a session is still found at its expiry time and dropped by the first lookup one millisecond later |
| Sessions.CreatedThenFound | src/auth/session.js:36-71 | a session created without data is found under its id at every time up to `timeout` later |
| Sessions.RefreshedLive | src/auth/session.js:91-97 | after a refresh at `now` the session is found at every time up to `now + timeout` |
| Sessions.DestroyedNotFound | src/auth/session.js:58-78 | a destroyed id is never found |
| Sessions.LookupIdempotent | src/auth/session.js:58-71 | a second lookup gives the same answer and leaves the table as the first left it |
| Sessions.CleanupAgreesWithLookup | src/auth/session.js:58-122 | every lookup after a cleanup agrees with the lookup before it, and finds nothing left to drop |
| RateLimit.ClientKey | src/middleware/builtins/rate-limit.js:4 | the key is the remote address when it is a non-empty string, and `unknown` otherwise |
| RateLimit.Visit | src/middleware/builtins/rate-limit.js:6-11 | no record, or a window that ended strictly before `now`, opens a window ending at `now + windowMs` with count 1; otherwise the count goes up by one and the window end is kept |
| RateLimit.Limiter.constructor | src/middleware/builtins/rate-limit.js:1-3 | a new limiter has the given window, maximum and message, and an empty table |
| RateLimit.Limiter.Handle | src/middleware/builtins/rate-limit.js:3-17 | the table changes only at the client's key, to the visited record; the request is refused with 429 and the message (or `Too many requests`) exactly when the new count exceeds `max`, and passed on otherwise; the limiter invariant is kept |
| RateLimit.Limiter.PassedBounded | src/middleware/builtins/rate-limit.js:11-17 | no key ever has more than `max` requests passed in its current window |
| RateLimit.KeepsInv | src/middleware/builtins/rate-limit.js:6-17 | one request's bookkeeping keeps the invariant that the passed requests of a window are the first `max` of its count |
| RateLimit.Replay | src/middleware/builtins/rate-limit.js:3-17 | a series of requests gives one pass-or-refuse answer per request |
| RateLimit.OneWindowAtMostMax | src/middleware/builtins/rate-limit.js:6-17 | requests that all fall in the window the first one opens let exactly the first `max` of them through |
| RateLimit.WithinWindow | src/middleware/builtins/rate-limit.js:11-17 | within an open window whose count is `c`, exactly `max - c` further requests pass, clamped to the number of requests |
| Sessions.Lookup | src/auth/session.js:58-71 | `getSession` finds the session of a non-empty id that is stored and not expired, and nothing otherwise |
| InputValidation.Limit | src/middleware/builtins/input-validation.js:24-35 | the size limit is the caller's `maxJsonSize` when given and 10240 bytes otherwise |
| InputValidation.Validate | src/middleware/builtins/input-validation.js:37-86 | the request is passed on exactly when it passes all four guards; otherwise the first failing guard in the order content type (415), declared length (413), method (405), path (414) decides the status and error text |
| InputValidation.FirstFailureWins | src/middleware/builtins/input-validation.js:49-83 | every refusal has one of the four statuses, and a refusal by a later guard means every earlier guard passed |
| InputValidation.AllowedTypeContained | src/middleware/builtins/input-validation.js:42-51 | a content type containing any allowed type anywhere is accepted |
| InputValidation.ContentTypeExamples | src/middleware/builtins/input-validation.js:39-51 | a type with parameters after `application/json` is accepted, a missing or empty type is not checked, and `image/png` is refused |
| InputValidation.DeclaredLength | src/middleware/builtins/input-validation.js:60-61 | a length header holding the decimal form of `n` is refused exactly when `n` exceeds the limit |
| InputValidation.MissingLength | src/middleware/builtins/input-validation.js:60 | a missing length header reads as 0 |
| InputValidation.NonNumericLengthPasses | src/middleware/builtins/input-validation.js:60-61 | a length header starting with a letter parses as NaN, and NaN is never greater than the limit, so the request passes this guard |
| InputValidation.MissingMethodIsGet | src/middleware/builtins/input-validation.js:69-70 | a missing method counts as GET and passes; `TRACE` and lower-case `get` are refused |
| InputValidation.WordEnd | src/middleware/builtins/input-validation.js:28 | the greedy run of `\w` characters from `k`: all word characters, followed by a non-word character or the end |
| InputValidation.MatchAt | src/middleware/builtins/input-validation.js:25-29 | a literal pattern matches at `k` exactly when the text there equals it ignoring ASCII case, and the match then has the pattern's length; a match never runs past the end |
| InputValidation.RemoveFromShrinks | src/middleware/builtins/input-validation.js:97 | one global `replace` with `""` never lengthens the text, and one that keeps the length found no match and left the text unchanged |
| InputValidation.NoMatchUnchanged | src/middleware/builtins/input-validation.js:97 | text in which the pattern matches nowhere comes back unchanged |
| InputValidation.CleanString | src/middleware/builtins/input-validation.js:93-99 | the loop applies one removal pass per dangerous pattern, in list order |
| InputValidation.ApplyShrinks | src/middleware/builtins/input-validation.js:96-98 | the passes never lengthen the text; passes that keep its length found nothing and changed nothing |
| InputValidation.ApplyNoMatch | src/middleware/builtins/input-validation.js:96-98 | text free of every pattern passes through all passes unchanged |
| InputValidation.RemovalExamples | src/middleware/builtins/input-validation.js:25-29 | matching ignores ASCII case, an event handler is removed together with its `=`, and `on` without a word character or `=` after it stays |
| InputValidation.CleanedInThreePasses | src/middleware/builtins/input-validation.js:25-98 | the cleaner removes `<script`, then `javascript:`, then event handlers, one pass each |
| InputValidation.CopiedThrough | src/middleware/builtins/input-validation.js:97 | the part of the text where the pattern does not match is copied through unchanged |
| InputValidation.FirstPassJoins | src/middleware/builtins/input-validation.js:96-98 | the `<script` pass over `<scr<scriptipt>` leaves `<script>` |
| InputValidation.SinglePassLeavesScript | src/middleware/builtins/input-validation.js:92-99 | the sanitiser as written turns `<scr<scriptipt>` into `<script>`, which still matches `<script` |
| InputValidation.CleanedFully | src/middleware/builtins/input-validation.js:89-99 | the intended cleaner, which repeats the passes until nothing changes, leaves no dangerous pattern anywhere and never lengthens the text |
| InputValidation.CleanedFullyKeepsClean | src/middleware/builtins/input-validation.js:89-99 | the intended cleaner leaves text already free of the patterns unchanged |
| InputValidation.CleanedFullyIdempotent | src/middleware/builtins/input-validation.js:89-99 | cleaning twice with the intended cleaner is cleaning once |
| InputValidation.SanitizedItems | src/middleware/builtins/input-validation.js:102-104 | the mapped prefix of an array has as many elements as the prefix |
| InputValidation.ItemsPointwise | src/middleware/builtins/input-validation.js:102-104 | element `i` of a mapped array is element `i` sanitised |
| InputValidation.SanitizedArray | src/middleware/builtins/input-validation.js:102-104 | an array becomes an array of the same length, sanitised element by element |
| InputValidation.FieldsKept | src/middleware/builtins/input-validation.js:106-115 | every field of the rebuilt object has a kept key, and every field of the original with a kept key is there with its value sanitised |
| InputValidation.FieldsFromOriginal | src/middleware/builtins/input-validation.js:106-115 | every field of the rebuilt object comes from a field of the original with a kept key |
| InputValidation.AllKeptSameKeys | src/middleware/builtins/input-validation.js:106-115 | an object whose keys are all kept comes back with the same keys in the same order |
| InputValidation.PrimitivesUnchanged | src/middleware/builtins/input-validation.js:118 | numbers, booleans, null and undefined are returned as they are |
| InputValidation.SanitizeInput | src/middleware/builtins/input-validation.js:92-119 | the recursive sanitiser as written: strings cleaned, arrays mapped, objects rebuilt from their safe keys, everything else unchanged |
| InputValidation.KeptKeyPatternFree | src/middleware/builtins/input-validation.js:110 | a key that passes `^[a-zA-Z0-9_-]+$` can hold no dangerous pattern |
| InputValidation.SanitizedFullyIsFree | src/middleware/builtins/input-validation.js:92-119 | with the intended cleaner, no string anywhere in the sanitised value, key or value, holds a dangerous pattern |
| Cors.MergeUnderOptions | src/middleware/builtins/cors.js:2-9 | without options the defaults hold (origin `*`, the six methods, the two headers, credentials on, Max-Age 86400); each key the caller gives wins over its default, even when given as `undefined` |
| Cors.AllowedValue | src/middleware/builtins/cors.js:13 | the Allow-Origin value is the request's origin when it is non-empty, and `*` otherwise |
| Cors.HeaderValue | src/middleware/builtins/cors.js:13-22 | the value read for a name comes from a header written with that name, and none is read exactly when no header has the name |
| Cors.HeaderValueAppend | src/middleware/builtins/cors.js:13-22 | in headers written in two parts, the first part's value for a name wins over the second's |
| Cors.PreflightNames | src/middleware/builtins/cors.js:18-23 | the preflight headers never include Allow-Origin or Allow-Credentials |
| Cors.AllowOriginHeader | src/middleware/builtins/cors.js:12-14 | Allow-Origin is written exactly when the origin setting is `*`, a function that accepts the non-empty request origin, or strictly equal to the request origin, and then holds the request origin or `*` |
| Cors.AllowCredentialsHeader | src/middleware/builtins/cors.js:15-17 | Allow-Credentials `true` is written exactly when `credentials` is on |
| Cors.PreflightAnswered | src/middleware/builtins/cors.js:18-25 | an OPTIONS request with both lists defined is answered with 204 without reaching `next`, and carries the comma-joined method and header lists, plus Max-Age exactly when that option is truthy |
| Cors.PreflightMaxAge | src/middleware/builtins/cors.js:21-23 | the preflight headers carry Max-Age exactly when the option is truthy |
| Cors.OtherMethodsCallNext | src/middleware/builtins/cors.js:18-27 | any other method goes on to `next` and gets no Allow-Methods or Max-Age header |
| Cors.OriginSettings | src/middleware/builtins/cors.js:3-12 | the default allows every request; a text other than `*` allows exactly the origin equal to it; a function allows a present origin exactly when it accepts it, and never a missing one; an `undefined` setting allows exactly the requests without an origin |
| Cors.Response.constructor | src/middleware/builtins/cors.js:10 | a response starts with no headers, no status and nothing sent |
| Cors.Response.SetHeader | src/middleware/builtins/cors.js:13-22 | one header is appended and nothing else changes |
| Cors.Response.SendEmpty | src/middleware/builtins/cors.js:24 | the status is set and the response is sent; the headers are kept |
| Cors.WriteCommon | src/middleware/builtins/cors.js:11-17 | appends Allow-Origin when the origin is allowed, then Allow-Credentials when credentials are on, and changes nothing else |
| Cors.WritePreflight | src/middleware/builtins/cors.js:19-23 | appends the preflight headers in order; it stops with a thrown error exactly when a list to join is `undefined` |
| Cors.Handle | src/middleware/builtins/cors.js:1-29 | the merged options decide the outcome: a preflight answered 204 and sent, a call of `next`, or a thrown error; the headers written are exactly the allowed origin, the credentials flag and on OPTIONS the preflight headers, in that order |
| Cors.HandleWith | src/middleware/builtins/cors.js:10-28 | the handler body on merged options ends as the decision says and appends exactly the headers the decision calls for |
| Registry.Lookup | src/middleware/registry.js:31-33 | a name gives the middleware stored under it, and `undefined` exactly when nothing is stored under it |
| Registry.Known | src/middleware/registry.js:37-40 | the registered names of a list form a sublist no longer than it, and all of them are registered |
| Registry.ResolveIsKnown | src/middleware/registry.js:37-40 | the resolved group is the middleware of its registered names, one for one and in list order |
| Registry.AllKnownKept | src/middleware/registry.js:39 | with every name registered, no name is dropped |
| Registry.UnknownDropped | src/middleware/registry.js:39 | unregistered names contribute nothing |
| Registry.ResolveAppend | src/middleware/registry.js:39 | resolving two name lists one after the other is resolving each and concatenating |
| Registry.RegisterThenGet | src/middleware/registry.js:28-33 | after registering a name, `get` returns the new middleware, and every other name gives what it gave before |
| Registry.MiddlewareRegistry.constructor | src/middleware/registry.js:21-23 | a new registry has no middleware and no groups |
| Registry.MiddlewareRegistry.Register | src/middleware/registry.js:28-30 | stores the middleware under the name, replacing any earlier one; groups are unchanged |
| Registry.MiddlewareRegistry.Get | src/middleware/registry.js:31-33 | the middleware stored under the name, and none exactly when nothing is stored |
| Registry.MiddlewareRegistry.Group | src/middleware/registry.js:34-36 | sets the group's name list, replacing any earlier one; middleware are unchanged |
| Registry.MiddlewareRegistry.GroupNames | src/middleware/registry.js:38 | the group's name list, and `[]` for an unknown group |
| Registry.MiddlewareRegistry.GetGroup | src/middleware/registry.js:37-40 | the middleware of the group's registered names, one for one and in list order; an unknown group gives `[]` |
| Registry.Shared.constructor | src/middleware/registry.js:20 | the shared slot starts empty |
| Registry.Shared.Get | src/middleware/registry.js:24-27 | the first call creates an empty registry and stores it; every later call returns that same registry and leaves the slot as it is |
| Registry.SameInstance | src/middleware/registry.js:24-27 | two calls of the static `get` return the same registry |
| Cors.Merge | src/middleware/builtins/cors.js:2-9 | `{ ...defaults, ...options }`: each key the caller gives, even as `undefined`, replaces its default |
| Cors.Decide | src/middleware/builtins/cors.js:18-27 | a request that is not `OPTIONS` calls `next`; a preflight whose methods or allowed headers are missing throws on `join`; any other preflight is answered |
| Registry.Resolve | src/middleware/registry.js:37-40 | `names.map(get).filter(...)`: the middleware registered under the names, in list order, with unknown names dropped |
| BuildCache.Lookup | jenpack/src/cache/index.ts:59-69 | an entry is returned exactly when one is stored for the path with the given hash, and it is the stored one |
| BuildCache.HasIsGet | jenpack/src/cache/index.ts:59-85 | `has` holds exactly when `get` returns an entry; a stored entry is found again under its own hash and under no other; an invalidated path is found under no hash |
| BuildCache.CleanMeansSaved | jenpack/src/cache/index.ts:87-88 | with no dirty path the index file already holds exactly the cache, so the early return of `save` loses nothing |
| BuildCache.WriteKeepsSync | jenpack/src/cache/index.ts:71-85 | writing or removing an entry and marking its path dirty keeps the cache in sync with the index away from the dirty paths |
| BuildCache.Cache.constructor | jenpack/src/cache/index.ts:35-57 | the cache starts with the entries of the index file, or empty when there is none, with no dirty path |
| BuildCache.Cache.Get | jenpack/src/cache/index.ts:59-69 | the stored entry when its hash matches, otherwise none |
| BuildCache.Cache.Has | jenpack/src/cache/index.ts:76-80 | true exactly when `get` would return an entry |
| BuildCache.Cache.Set | jenpack/src/cache/index.ts:71-74 | the path now maps to the entry and is dirty; the index file is unchanged and the cache stays in sync with it |
| BuildCache.Cache.Invalidate | jenpack/src/cache/index.ts:82-85 | the path loses its entry and is dirty; the index file is unchanged and the cache stays in sync with it |
| BuildCache.Cache.Save | jenpack/src/cache/index.ts:87-103 | with no dirty path nothing is written; otherwise the index file receives the whole cache; either way the index then holds exactly the cache and no path is dirty |
| BuildCache.Cache.Clear | jenpack/src/cache/index.ts:105-111 | the entries are gone and the index file is removed; the dirty set is left as it was |
| BuildCache.Cache.Stats | jenpack/src/cache/index.ts:113-118 | the number of stored paths and the number of dirty paths |
| HtmlInline.InsertAt | jenpack/src/html.rs:66-79 | inserting text at an index keeps what came before it, puts the text there, and moves the rest behind it unchanged |
| HtmlInline.InlineAssets | jenpack/src/html.rs:56-86 | the result is the style step followed by the script step, each done in place on `result`; with both lists empty the page comes back unchanged |
| HtmlInline.InsertBefore | jenpack/src/html.rs:65-79 | an occurrence of a marker at the insertion index ends up right after the inserted text |
| HtmlInline.StylesBeforeHead | jenpack/src/html.rs:60-66 | with a `</head>`, one `<style>` tag holding the styles joined by newlines sits immediately before the first `</head>`, and the page before and after it is kept in order |
| HtmlInline.StylesWithoutHead | jenpack/src/html.rs:67-69 | with no `</head>` anywhere, `<head>`, the style tag and `</head>` are put in front of the page |
| HtmlInline.ScriptsBeforeBody | jenpack/src/html.rs:73-79 | with a `</body>`, one `<script>` tag holding the scripts joined by newlines sits immediately before the first `</body>`, and the page before and after it is kept in order |
| HtmlInline.ScriptsWithoutBody | jenpack/src/html.rs:80-82 | with no `</body>`, the script tag and a `</body>` are appended after the unchanged page |
| HtmlInline.WithStyles | jenpack/src/html.rs:60-69 | no styles leave the page; otherwise one `<style>` tag goes before the first `</head>`, or a whole head goes in front when there is none |
| HtmlInline.WithScripts | jenpack/src/html.rs:73-82 | no scripts leave the page; otherwise one `<script>` tag goes before the first `</body>`, or the tag and a `</body>` are appended when there is none |
| Minifier.FindPair | jenpack/src/minifier.rs:64-76 | `find` of a two-character pattern from an index: the first index at or after it where the pair stands, or none when it stands nowhere there |
| Minifier.SlicePair | jenpack/src/minifier.rs:76-77 | a slice that ends before the first pair found holds no pair |
| Minifier.BlockStripped | jenpack/src/minifier.rs:63-70 | after the loop no `/*` with a `*/` after it is left; the text is unchanged or strictly shorter, and unchanged when it has no `/*` |
| Minifier.UnterminatedKept | jenpack/src/minifier.rs:65-69 | a first `/*` with no `*/` at or after it stops the loop and leaves the whole text as it is |
| Minifier.FirstBlockRemoved | jenpack/src/minifier.rs:64-66 | each round removes the span from the first `/*` to the end of the first `*/` found from that `/*`, the leftmost comment first |
| Minifier.StripBlockComments | jenpack/src/minifier.rs:61-70 | the in-place `drain` loop on `result` computes the block-stripped text |
| Minifier.OverlappingCloseAsWritten | jenpack/src/minifier.rs:64-66 | as written, `a/*/b*/c` loses only `/*/`, because the `*/` search starts at the `/*` itself, and becomes `ab*/c` |
| Minifier.ClosedStripped | jenpack/src/minifier.rs:63-70 | the corrected loop, which searches for `*/` after the two characters of `/*`: the text is unchanged or strictly shorter, and unchanged when it has no `/*` |
| Minifier.ClosedRemovesWholeComment | jenpack/src/minifier.rs:63-70 | with the corrected search each removed span is a whole comment, `/*`, a body with no `*/` in it, then `*/` |
| Minifier.CommentSpan | jenpack/src/minifier.rs:64-66 | a span between a `/*` and a later, separate `*/` reads as `/*`, the body, `*/` |
| Minifier.OverlappingCloseCorrected | jenpack/src/minifier.rs:64-66 | with the corrected search `a/*/b*/c` becomes `ac` |
| Minifier.RustLines | jenpack/src/minifier.rs:74 | Rust's `lines`: pieces with no newline in them, and none at all exactly for the empty text |
| Minifier.DropCr | jenpack/src/minifier.rs:74 | a line loses at most one trailing carriage return |
| Minifier.CutLineComment | jenpack/src/minifier.rs:75-81 | a line is cut to its prefix before the first `//`, even inside a string or a URL; the prefix holds no `//`, and the line is kept whole only when it has none |
| Minifier.CutAll | jenpack/src/minifier.rs:75-82 | every line is cut at its first `//`, one for one |
| Minifier.JoinKeepsNoSlashes | jenpack/src/minifier.rs:83 | joining pieces free of `//` with newlines makes no `//` |
| Minifier.LinePassNoSlashes | jenpack/src/minifier.rs:73-83 | after the line-comment pass no `//` is left anywhere |
| Minifier.LinePassLength | jenpack/src/minifier.rs:73-83 | the line-comment pass never lengthens the text and shortens any text with a `//` in it |
| Minifier.WhiteRun | jenpack/src/minifier.rs:86 | the white-space run at the start of a text, followed by a character that is not white space or by the end |
| Minifier.Visible | jenpack/src/minifier.rs:86-103 | the characters that are not white space, in order, which the white-space passes must keep |
| Minifier.VisibleAppend | jenpack/src/minifier.rs:86-103 | the visible characters of two texts one after the other are those of each, concatenated |
| Minifier.VisibleOfWhite | jenpack/src/minifier.rs:86-103 | a text of white space only has no visible characters |
| Minifier.VisibleAfterRun | jenpack/src/minifier.rs:86-103 | dropping a leading white-space run keeps the visible characters |
| Minifier.Collapse | jenpack/src/minifier.rs:86-89 | no two white characters stand together and each one left is a plain space; the text is no longer, empty only when the input is, and starts with white space exactly when the input does (that each run survives as one space is `Minifier.CollapseSplit`) |
| Minifier.CollapseVisible | jenpack/src/minifier.rs:86-89 | collapsing keeps every visible character, in order |
| Minifier.Tighten | jenpack/src/minifier.rs:92-95 | no white space is left next to any of `{};,=+-*/:`, on either side; nothing is added and the text is no longer (that other white space stays is `Minifier.TightenSplit`) |
| Minifier.TightenVisible | jenpack/src/minifier.rs:92-95 | removing spaces around operators keeps every visible character, in order |
| Minifier.Unparen | jenpack/src/minifier.rs:98-101 | no white space is left right before a `(`; nothing is added and the text is no longer (that other white space stays is `Minifier.UnparenSplit`) |
| Minifier.UnparenVisible | jenpack/src/minifier.rs:98-101 | removing spaces before `(` keeps every visible character, in order |
| Minifier.TrimStartVisible | jenpack/src/minifier.rs:103 | trimming the start keeps every visible character |
| Minifier.TrimEndVisible | jenpack/src/minifier.rs:103 | trimming the end keeps every visible character |
| Minifier.TrimShape | jenpack/src/minifier.rs:103 | trimming keeps single plain spaces and no space before `(`, and leaves no white space at either end |
| Minifier.MinifyInternal | jenpack/src/minifier.rs:60-104 | the in-place block-comment loop, then the line pass, the three white-space passes and `trim`, in that order |
| Minifier.MinifyJs | jenpack/src/minifier.rs:7-10 | never an error, and exactly what `minify_internal` returns |
| Minifier.MinifiedShape | jenpack/src/minifier.rs:86-103 | the output is trimmed, its only white space is single plain spaces, no space stands before a `(`, and no space stands on either side of any of `{};,=+-*/:` |
| Minifier.UnparenTight | jenpack/src/minifier.rs:98-101 | removing spaces before `(` puts no space back next to an operator |
| Minifier.TrimTight | jenpack/src/minifier.rs:103 | trimming puts no space back next to an operator |
| Minifier.OnlySpaces | jenpack/src/minifier.rs:86-101 | after collapsing, the operator and paren passes leave plain spaces as the only white space |
| Minifier.MinifiedVisible | jenpack/src/minifier.rs:85-103 | the white-space passes and `trim` remove white space only: every other character left after comment removal survives, in order |
| Minifier.MinifiedLength | jenpack/src/minifier.rs:60-121 | minifying never lengthens the code, and code with a `//` in it, as in the test sample, comes out strictly shorter |
| Minifier.SlashesRejoined | jenpack/src/minifier.rs:73-101 | the line pass leaves no `//`, but the later passes can make one: `a/` and `/b` on two lines come out as `a//b` |
| Minifier.WhiteRunAppend | jenpack/src/minifier.rs:86 | in a text ending with a visible character the leading white run stops inside that text, whatever follows it |
| Minifier.WhiteRunOfRun | jenpack/src/minifier.rs:86 | a white run followed by a visible character is taken whole |
| Minifier.CollapseAppend | jenpack/src/minifier.rs:86-89 | after a visible character collapsing works piece by piece: the collapse of a concatenation is the concatenation of the collapses |
| Minifier.CollapseRun | jenpack/src/minifier.rs:86-89 | a white run before a visible character becomes exactly one space |
| Minifier.CollapseSplit | jenpack/src/minifier.rs:86-89 | a white run between two visible characters becomes exactly one space, and the text on either side is collapsed on its own |
| Minifier.CollapseEnds | jenpack/src/minifier.rs:86-89 | collapsing keeps a visible first or last character in its place |
| Minifier.CollapseLast | jenpack/src/minifier.rs:86-89 | collapsing keeps a visible last character in its place |
| Minifier.TightenAppend | jenpack/src/minifier.rs:92-95 | after a visible character the operator pass works piece by piece, the rest knowing only whether that character is an operator |
| Minifier.TightenRun | jenpack/src/minifier.rs:92-95 | a white run with no operator before it or after it stays as it is |
| Minifier.TightenSplit | jenpack/src/minifier.rs:92-95 | a white run between two characters that are neither white space nor operators survives the operator pass unchanged |
| Minifier.TightenEnds | jenpack/src/minifier.rs:92-95 | the operator pass keeps a visible last character in its place |
| Minifier.UnparenAppend | jenpack/src/minifier.rs:98-101 | after a visible character the paren pass works piece by piece |
| Minifier.UnparenRun | jenpack/src/minifier.rs:98-101 | a white run before a visible character other than `(` stays |
| Minifier.UnparenSplit | jenpack/src/minifier.rs:98-101 | a white run between two visible characters, the second not `(`, survives the paren pass unchanged |
| Minifier.UnparenEnds | jenpack/src/minifier.rs:98-101 | the paren pass keeps a visible last character in its place |
| Minifier.TrimAroundSpace | jenpack/src/minifier.rs:103 | trimming a text with one space between two visible characters trims only its outer ends and keeps that space |
| Minifier.WhitePassesKeepSpace | jenpack/src/minifier.rs:86-103 | a white run between two characters that are neither white space nor operators, the second not `(`, comes out of the three passes and `trim` as exactly one plain space, with the visible characters on each side kept in order |
| Minifier.MinifiedKeepsSpace | jenpack/src/minifier.rs:60-104 | the same for the whole minifier: such a white run left after comment removal is exactly one space in the output, between the minified text on each side |
| Minifier.ReturnKeepsSpace | jenpack/src/minifier.rs:86-103 | `return x` keeps its space and does not become `returnx` |
| Minifier.LinePass | jenpack/src/minifier.rs:73-83 | the text's `lines`, each cut at its first `//`, joined with newlines |
| Minifier.Minified | jenpack/src/minifier.rs:60-104 | block comments stripped, then the line pass, white-space collapsing, the operator and paren passes and `trim`, in that order |
| JenpackConfig.Default | jenpack/src/config.rs:19-32 | the default configuration: entry `src/index.ts`, output `dist`, no minifying, source maps on, no watching, quiet, no externals and no aliases |
| JenpackConfig.ResolveAlias | jenpack/src/config.rs:49-54 | an alias resolves to its mapped name, and any other name to itself |
| JenpackConfig.AnyPrefix | jenpack/src/config.rs:58 | true exactly when one of the first `n` externals is a prefix of the module path |
| JenpackConfig.IsExternal | jenpack/src/config.rs:57-59 | a module is external exactly when some configured external is a prefix of its path |
| JenpackConfig.DefaultsAreInert | jenpack/src/config.rs:28-59 | under the defaults nothing is external and every name resolves to itself |
| JenpackConfig.ExternalCoversExtensions | jenpack/src/config.rs:57-59 | an external covers every path that extends it, and an empty external covers every module |
| JenpackConfig.AliasOneStep | jenpack/src/config.rs:49-54 | resolution is one lookup: an alias whose target is itself an alias is not followed further |
| JenpackUtils.Components | jenpack/src/utils.rs:20-21 | the path's components for a Unix path: no empty piece, no `.` piece, and no `/` inside a piece |
| JenpackUtils.Keep | jenpack/src/utils.rs:20-21 | the kept pieces among the first `n` are non-empty, not `.`, and hold no `/` |
| JenpackUtils.FileName | jenpack/src/utils.rs:20-21 | the final component, when there is one and it is not `..`; it is never empty, `.` or `..` and holds no `/` |
| JenpackUtils.NameExtension | jenpack/src/utils.rs:21 | the text after the last `.` of the name, when there is a `.` that does not start the name; otherwise none |
| JenpackUtils.GetExtension | jenpack/src/utils.rs:19-24 | the lower-cased extension of the final component: no `.`, no `/` and no upper-case letter in it |
| JenpackUtils.KindsDisjoint | jenpack/src/utils.rs:27-50 | no path is of two kinds among JavaScript/TypeScript, HTML, Sass and CSS |
| JenpackUtils.CaseInsensitive | jenpack/src/utils.rs:19-32 | a file named `App.` followed by `tsx` in any letter case is a JavaScript/TypeScript file |
| JenpackUtils.NormalizePath | jenpack/src/utils.rs:94-96 | every `\` becomes `/` and every other character is kept in place, so the length is kept and no `\` is left |
| JenpackUtils.NormalizeIdempotent | jenpack/src/utils.rs:94-96 | normalising twice is normalising once, and a path with no `\` is already normal |
| Manifest.Basename | preactsc/src/shared/manifest.js:48 | POSIX `basename`: the text after the last `/` once trailing `/`s are dropped, holding no `/` |
| Manifest.StripScriptExtension | preactsc/src/shared/manifest.js:48 | one trailing `.js`, `.ts`, `.jsx` or `.tsx` is removed, leaving a prefix of the name; a name without one of them is kept |
| Manifest.SanitizeName | preactsc/src/shared/manifest.js:52 | every character outside `[A-Za-z0-9_-]` becomes `_` and every other character is kept, so the length is kept |
| Manifest.NormalizeSlashes | preactsc/src/shared/manifest.js:33 | every `\` becomes `/`, the length is kept and no `\` is left |
| Manifest.ClientIdInjective | preactsc/src/shared/manifest.js:39 | different input positions never give the same `client-` id |
| Manifest.AcceptedPositions | preactsc/src/shared/manifest.js:25-37 | the input positions of the accepted paths, increasing, containing every accepted position |
| Manifest.ManifestFromPositions | preactsc/src/shared/manifest.js:25-56 | entry `j` is made from the `j`-th accepted path and carries its input position in its id, so entries keep the input order |
| Manifest.ManifestWellFormed | preactsc/src/shared/manifest.js:25-56 | ids are pairwise distinct, every path is normalised and starts with `.` or `/`, every name is made of `[A-Za-z0-9_-]`, and every props object is empty |
| Manifest.CreateManifest | preactsc/src/shared/manifest.js:21-59 | the loop skips falsy and non-string paths and paths whose normalised form starts with neither `.` nor `/`, and pushes for the rest the entry built from the path and its input index |
| Manifest.GapsInIds | preactsc/src/shared/manifest.js:25-46 | a rejected path leaves a gap: after a rejected first path, the only entry is `client-1` |
| Manifest.ComponentId | preactsc/src/shared/manifest.js:61-66 | the lower-cased basename without its script extension: no `/` and no upper-case letter |
| Manifest.ComponentIdIgnoresDirectory | preactsc/src/shared/manifest.js:61-66 | a file's component id does not depend on the directory it sits in |
| Manifest.SerializeManifest | preactsc/src/shared/manifest.js:68-77 | one record per component, in order, whose id is its list position, with path and name copied and falsy props replaced by `{}` |
| Islands.CreateIslandRegistry | src/build/island-hydration.ts:32-34 | a new registry holds no islands |
| Islands.RunEnd | src/build/island-hydration.ts:50 | a `[^c]+` group runs to the first `c`, or to the end when there is none |
| Islands.RunEndAt | src/build/island-hydration.ts:50 | a run free of `c` followed by `c` ends exactly at that `c` |
| Islands.PatternShape | src/build/island-hydration.ts:50 | the marker pattern has three groups and matches at least 37 characters |
| Islands.MatchParts | src/build/island-hydration.ts:50 | a match of the pattern's parts yields one text per group and leaves at least the pattern's width consumed |
| Islands.MatchAt | src/build/island-hydration.ts:50-53 | a match found at an index ends inside the text, at least the pattern's width after it |
| Islands.ReadMarker | src/build/island-hydration.ts:42-50 | the pattern reads back the name, JSON and id a marker was written around, when the name and id have no `"`, the JSON has no `'` and none is empty |
| Islands.AttributesMatch | src/build/island-hydration.ts:42-50 | the marker's attributes match the pattern with exactly those three texts, leaving the tag's end |
| Islands.MatchAfter | src/build/island-hydration.ts:50-53 | what the pattern finds at the start of a text is what it finds right after any prefix |
| Islands.NoMatchAt | src/build/island-hydration.ts:50 | no match starts where the text differs from the start of `data-island="` |
| Islands.NoMatchNearEnd | src/build/island-hydration.ts:50 | no match starts closer to the end than the pattern's width |
| Islands.NextMatchIs | src/build/island-hydration.ts:53 | `exec` finds the leftmost match at or after `lastIndex` |
| Islands.OneMatch | src/build/island-hydration.ts:53 | after a prefix with no match, a text that matches right away gives that match first and nothing after it |
| Islands.MarkerMatches | src/build/island-hydration.ts:42-53 | a marker holds exactly one match, right after `<div `, carrying its name, JSON and id |
| Islands.ExtractSingle | src/build/island-hydration.ts:48-62 | a scan that finds one match whose props parse, and nothing after it, yields that one island |
| Islands.NextMatch | src/build/island-hydration.ts:53 | the next `exec` result: the leftmost index at or after the position where the pattern matches, or none when it matches nowhere there |
| Islands.ExtractIslandsFromHtml | src/build/island-hydration.ts:48-62 | the `exec` loop pushes one island per match in document order, each with the component, the parsed props and the id; props that do not parse fail the whole call |
| Islands.RoundTrip | src/build/island-hydration.ts:40-62 | reading back a marker yields one island with the name and props it was written with, when the name has no `"`, the JSON is non-empty with no `'`, and parsing undoes the JSON text |
| Islands.TemplatePlain | src/build/island-hydration.ts:70-78 | the script template has no `$` of its own |
| Islands.ExpandPlain | src/build/island-hydration.ts:78 | in a replacement string, text with no `$` is inserted as it is |
| Islands.InjectLeavesPage | src/build/island-hydration.ts:68-78 | with no islands, or no `</body>`, the page comes back unchanged |
| Islands.ExpandTemplate | src/build/island-hydration.ts:70-78 | a template around JSON with no `$` is inserted as it is |
| Islands.ExpandAmpersand | src/build/island-hydration.ts:78 | a `$&` in the replacement string is replaced by the matched text |
| Islands.ReplaceBefore | src/build/island-hydration.ts:78 | replacing the first `</body>` by a text that expands to `t` plus `</body>` puts `t` right before it and keeps the rest |
| Islands.ReplacementPlain | src/build/island-hydration.ts:70-78 | with no `$` in the JSON, the replacement string stands for itself |
| Islands.ReplacementAmpersand | src/build/island-hydration.ts:70-78 | with `$&` in the JSON, the replacement string gets `</body>` in its place |
| Islands.InjectBeforeFirstBody | src/build/island-hydration.ts:67-79 | when the JSON has no `$`, the script lands verbatim before the first `</body>` only, and the rest of the page is kept |
| Islands.DollarInPropsAsWritten | src/build/island-hydration.ts:78 | as written, a `$&` in the islands' JSON is not written as such: the page gets `</body>` in its place |
| Islands.InjectIslandScriptLiteral | src/build/island-hydration.ts:67-79 | the intended insertion: with islands and a `</body>`, the script text goes in literally before the first `</body>` and the page around it is kept; otherwise the page is unchanged |
| Islands.LiteralAgreesWithoutDollar | src/build/island-hydration.ts:67-79 | the literal insertion and the one as written agree whenever the JSON has no `$` |
| Islands.MarkIsland | src/build/island-hydration.ts:40-43 | the marker is an empty `div` carrying `data-island` with the name, `data-props` with the JSON in single quotes and the id `island-` plus the random suffix, in that order |
| Islands.Extracted | src/build/island-hydration.ts:48-62 | the scan from a position: the island of the next match, with its parsed props, then the islands of the rest from the end of that match; a props text that does not parse fails the scan |
| Islands.InjectIslandScript | src/build/island-hydration.ts:67-79 | no islands leave the page as it is; otherwise the first `</body>` is replaced by the script and `</body>`, with the replacement string's `$` patterns expanded |
| Islands.PatternReadsMarkers | src/build/island-hydration.ts:42-50 | the pattern reads back the name, JSON and id of every marker whose name and id have no `"` and whose JSON is non-empty with no `'`, whatever text follows the marker |
| Islands.MatchAfterGap | src/build/island-hydration.ts:50-53 | after text in which no match can start, `exec` finds the next match exactly where a marker's attributes begin, with that marker's three texts |
| Islands.GapOnly | src/build/island-hydration.ts:53-60 | text with no `d` right before `a` holds no match, so the scan over it ends with no islands |
| Islands.MarkerStep | src/build/island-hydration.ts:48-60 | one marker after marker-free text gives its island, with its name, parsed props and id, and the scan goes on from the end of the match, just before the tag's `></div>` |
| Islands.ExtractFrom | src/build/island-hydration.ts:48-62 | a page of readable markers and marker-free text, scanned from any position before it, gives one island per marker in document order |
| Islands.ExtractPage | src/build/island-hydration.ts:40-62 | reading back a page built from any number of readable markers and marker-free text gives one island per marker, in document order, each with the name, props and id it was written with |
| Islands.TwoMarkers | src/build/island-hydration.ts:40-62 | two markers with marker-free text around them give their two islands, the first marker's first |
| Navigation.Segments | packages/jenpress/src/client/navigation.tsx:33-35 | the path's `/`-separated segments with the empty ones dropped: none is empty or holds a `/` |
| Navigation.CrumbsOf | packages/jenpress/src/client/navigation.tsx:36-40 | the `reduce` over the first `n` segments pushes exactly `n` crumbs |
| Navigation.CrumbsOfShape | packages/jenpress/src/client/navigation.tsx:36-40 | crumb `i` is labelled with segment `i`, and its path is `/` followed by the first `i + 1` segments joined by `/` |
| Navigation.JoinSnoc | packages/jenpress/src/client/navigation.tsx:37 | joining one more segment appends a `/` and the segment |
| Navigation.CrumbPathsExtend | packages/jenpress/src/client/navigation.tsx:37-38 | the first crumb's path is `/` and its segment, and each further crumb's path extends the one before it by `/` and its own segment |
| Navigation.BreadcrumbsShape | packages/jenpress/src/client/navigation.tsx:33-40 | one crumb per non-empty segment, in order, each labelled with its segment, with paths that extend one another |
| Navigation.NonEmptyKeepsAll | packages/jenpress/src/client/navigation.tsx:35 | when no segment is empty, the filter drops nothing |
| Navigation.SegmentsOfCanonical | packages/jenpress/src/client/navigation.tsx:33-34 | splitting a canonical path on `/` and dropping empty parts gives back exactly the joined segments |
| Navigation.CanonicalPath | packages/jenpress/src/client/navigation.tsx:33-40 | for a path made of `/` and non-empty segments separated by single slashes, the segments are read back and the last crumb leads to the path itself |
| Navigation.FindIndex | packages/jenpress/src/client/navigation.tsx:43 | `findIndex`: the index of the first page whose path is the current one, or -1 when no page has it |
| Navigation.Navigation | packages/jenpress/src/client/navigation.tsx:31-45 | the values the component renders: the breadcrumbs of the current path and the neighbours of the current page |
| Navigation.Neighbours | packages/jenpress/src/client/navigation.tsx:43-45 | with `k` the first page of the current path, `prev` exists exactly when `k > 0` and is page `k - 1`, and `next` exists exactly when page `k + 1` does and is that page |
| Navigation.UnknownPath | packages/jenpress/src/client/navigation.tsx:43-45 | a path no page has gives neither `prev` nor `next` |
| Navigation.SomeNeighbour | packages/jenpress/src/client/navigation.tsx:43-45 | a page found in a list of two or more pages has at least one neighbour |
| Highlight.Entity | packages/jenpress/src/node/markdown/highlight.ts:41-47 | each special character's entity starts with `&` and ends with `;` |
| Highlight.EscapeHtml | packages/jenpress/src/node/markdown/highlight.ts:40-49 | the escaped text is no shorter than the input and holds no raw `<`, `>`, `"` or `'` |
| Highlight.EscapePlain | packages/jenpress/src/node/markdown/highlight.ts:48 | text without a special character is left as it is |
| Highlight.EscapeAppend | packages/jenpress/src/node/markdown/highlight.ts:48 | escaping is a single pass: escaping two texts one after the other is escaping each, so an entity it produces is never escaped again |
| Highlight.UnescapeEntity | packages/jenpress/src/node/markdown/highlight.ts:41-47 | each entity decodes back to its character |
| Highlight.UnescapeOther | packages/jenpress/src/node/markdown/highlight.ts:48 | a character other than `&` is copied by the decoder |
| Highlight.UnescapeEscape | packages/jenpress/src/node/markdown/highlight.ts:40-49 | decoding the escaped text gives back the original, so each of the five characters maps to its own entity and every other character is kept |
| Highlight.EscapeInjective | packages/jenpress/src/node/markdown/highlight.ts:40-49 | different texts escape differently |
| Highlight.HighlightSync | packages/jenpress/src/node/markdown/highlight.ts:19-23 | the output is at least as long as the code plus the closing tags |
| Highlight.HighlightReadsBack | packages/jenpress/src/node/markdown/highlight.ts:19-23 | the output is the opening tags with the language, the escaped code and `</code></pre>`; the code is read back from between the tags, no `<` occurs there, and a missing language is `text` |
| Highlight.Highlight | packages/jenpress/src/node/markdown/highlight.ts:25-38 | Shiki's output, asked with the language or `text` when it is empty, when Shiki succeeds; otherwise the same text `highlightSync` gives |
| JenpressConfig.OrElse | packages/jenpress/src/node/config.ts:80-85 | `value || fallback`: the value when it is truthy, and the fallback otherwise |
| JenpressConfig.Spread | packages/jenpress/src/node/config.ts:78-88 | after the spread every handled key is present |
| JenpressConfig.DefineConfig | packages/jenpress/src/node/config.ts:77-89 | keys `defineConfig` does not handle are copied unchanged |
| JenpressConfig.SpreadDecides | packages/jenpress/src/node/config.ts:77-89 | because `...config` comes last, each handled key holds the caller's value whenever the caller has the key, even `undefined`, `''` or `false`, and its default only when the key is missing |
| JenpressConfig.DefineConfigIdempotent | packages/jenpress/src/node/config.ts:77-89 | the result has every handled key, a configuration with all of them is left as it is, and applying `defineConfig` twice is applying it once |
| JenpressConfig.UndefinedOverrides | packages/jenpress/src/node/config.ts:81-87 | a `base` or `cleanUrls` passed as `undefined` stays `undefined` instead of taking its default |
| JenpressConfig.FallbackConfig | packages/jenpress/src/node/config.ts:99-101 | the fallback configuration is the title `My Documentation` with the defaults `''`, `/`, `en`, `docs`, `dist`, `.jenpress-cache` and `cleanUrls` true |
| Msl.Without | scripts/Msl.js:14-91 | a global removal of one character leaves none of it and every other character as often as before, never lengthens the text, and leaves text without it unchanged |
| Msl.WithoutAppend | scripts/Msl.js:14-91 | the removal works piece by piece, so the other characters keep their order |
| Msl.NonBlank | scripts/Msl.js:14 | the filter keeps exactly the lines that are not blank once trimmed |
| Msl.Lines | scripts/Msl.js:14 | the lines of the markup hold no `\r` and none is blank |
| Msl.DropCrs | scripts/Msl.js:14 | one line out per line in, each without its `\r` |
| Msl.LinesFromPieces | scripts/Msl.js:14 | every line kept is a `\n`-separated piece of the markup with its `\r` removed |
| Msl.PiecesInLines | scripts/Msl.js:14 | every `\n`-separated piece that is not blank once its `\r` are removed is kept |
| Msl.StripQuotes | scripts/Msl.js:31-74 | at most one character is removed from each end: a leading `"` and then a trailing `"`, the rest kept as a prefix of what follows the leading quote, or of the text when there is none |
| Msl.QuotesStripped | scripts/Msl.js:31-74 | a quoted text loses exactly its two quotes; a text without a quote at either end is kept |
| Msl.Indent | scripts/Msl.js:35 | `search(/\S/)`: the index of the first character that is not white space, or -1 when there is none |
| Msl.IndentAfterTrim | scripts/Msl.js:25-35 | indentation is measured on the trimmed line, so it is always 0 |
| Msl.Members | scripts/Msl.js:91-97 | the alternatives between `|`: at least one, none holding a `"` |
| Msl.Cleaned | scripts/Msl.js:91-97 | each alternative trimmed and stripped of its quotes, one for one: alternative `i` out is alternative `i` in, trimmed, with every `"` removed |
| Msl.MembersSplit | scripts/Msl.js:91-97 | the alternatives are read one by one between the `|`s, trimmed and without quotes |
| Msl.KeyOf | scripts/Msl.js:37-38 | a key written with a final `?` loses it; any other key is kept |
| Msl.PopWhile | scripts/Msl.js:49 | frames are popped from the top while they are indented at least as far as the line: what remains is a prefix of the stack whose top is indented less |
| Msl.PopsEverything | scripts/Msl.js:49 | at indentation 0 every frame is popped |
| Msl.Constraint | scripts/Msl.js:71-74 | a validation value is a boolean exactly for `true` and `false`, true for `true`; a number exactly when `Number` reads one, and then that number; and otherwise `StripQuotes` of the text |
| Msl.WithExamples | scripts/Msl.js:54-59 | the `examples` key changes nothing but the object's examples |
| Msl.ExamplesRule | scripts/Msl.js:54-59 | `examples` becomes the parsed JSON once `'` are turned into `"`; when that fails the raw text is appended to the examples, which throws unless they are an array |
| Msl.MetadataRule | scripts/Msl.js:60-62 | `title` and `description` set the object's metadata without quotes, and nothing else changes |
| Msl.ValidationRule | scripts/Msl.js:67-76 | a validation key stores its value on the property named after the key itself, keeps every other property, and never makes anything required |
| Msl.PropertyRule | scripts/Msl.js:67-113 | a property line sets the property's type from its value after variable substitution, keeps what else the property had, and makes the key required unless written with `?`; the metadata stays |
| Msl.ArrayShorthand | scripts/Msl.js:84-88 | `[T]` is an array whose items have type `T`, trimmed |
| Msl.EnumArray | scripts/Msl.js:90-94 | `(m)[]` with a `|` in `m` is an array whose items are the alternatives of `m` |
| Msl.EnumType | scripts/Msl.js:96-98 | `(m)` is an enumeration of the alternatives of `m` |
| Msl.Reference | scripts/Msl.js:100-102 | a value starting with a capital letter refers to the definition of that name |
| Msl.OtherType | scripts/Msl.js:103-110 | any other value is itself the type |
| Msl.VariableUsed | scripts/Msl.js:81 | a variable bound to a non-empty text stands for that text in a later value; an unbound name, or one bound to the empty text, stands for itself |
| Msl.SkipsBlankAndComments | scripts/Msl.js:25-26 | blank lines and `#` comments change nothing |
| Msl.SplitPair | scripts/Msl.js:30-36 | splitting `x`, the separator, `y` where neither part holds it gives exactly the two parts |
| Msl.StepBinds | scripts/Msl.js:29-33 | a line starting with `$` is a variable binding |
| Msl.BindsVariable | scripts/Msl.js:29-33 | `$name=value` binds the name to the value without its quotes, and nothing else changes |
| Msl.UnboundWithoutEquals | scripts/Msl.js:30-31 | a `$` line without `=` throws |
| Msl.StepOpens | scripts/Msl.js:40-46 | a line with no value opens a definition: the key maps to a new empty object, which becomes the current one and is pushed with indentation 0 |
| Msl.OpensDefinition | scripts/Msl.js:36-46 | a trimmed line `key:` opens a new empty definition under the key without its `?` |
| Msl.StepAttaches | scripts/Msl.js:48-113 | a line with a value attaches to an object after the stack is popped |
| Msl.AttachesToCurrent | scripts/Msl.js:49-50 | a property or metadata line always attaches to the most recently opened object, because the stack is emptied first; with no object opened yet it throws; only that object changes |
| Msl.OpenValid | scripts/Msl.js:40-46 | a definition line keeps the loop's state well formed |
| Msl.OpenedValid | scripts/Msl.js:42-44 | pushing a new definition keeps every frame and the current object pointing at a definition |
| Msl.StepValid | scripts/Msl.js:24-114 | every line keeps the loop's state well formed, and no definition is ever removed |
| Msl.RunValid | scripts/Msl.js:24-114 | the whole loop keeps the state well formed and never removes a definition |
| Msl.RunStep | scripts/Msl.js:24 | a line that goes through moves the loop on to the next one |
| Msl.RunStops | scripts/Msl.js:24 | a line that throws ends the loop with its error |
| Msl.ParsedSchema | scripts/Msl.js:116 | the result is a draft-07 schema document whose definitions are those the loop built |
| Msl.Describe | scripts/Msl.js:52-113 | the loop body after `parent` is found updates that object by the metadata, validation and type rules |
| Msl.PopFrames | scripts/Msl.js:49 | the `while` loop pops exactly the frames the pop rule removes |
| Msl.AttachLine | scripts/Msl.js:49-113 | the loop body from the stack pops on: the frames are popped as the rules say, `parent` is found, and the update is the one the rules give |
| Msl.ParseLine | scripts/Msl.js:25-113 | one pass of the loop body, for every kind of line |
| Msl.ParseDsl | scripts/Msl.js:13-117 | the loop over the lines computes the document the rules give, stopping at the first line that throws |
| Msl.Step | scripts/Msl.js:25-113 | a blank or `#` line changes nothing, a `$` line binds a variable, a line with no value opens a definition, and any other attaches a property |
| Msl.Run | scripts/Msl.js:24-114 | the lines are taken in order and the first line that throws ends the loop with its error |
| Msl.Parsed | scripts/Msl.js:13-117 | the loop from the empty state over the lines, giving a draft-07 document of the definitions built, or the first error |
| GplHeader.PrefixEach | scripts/add-gpl-header.js:40-42 | `map(l => prefix + l)`: one line out per line in, each the prefix followed by that line |
| GplHeader.PrefixedLines | scripts/add-gpl-header.js:40-42 | splitting into lines, prefixing each and joining again is writing the prefix at the start and after every line break |
| GplHeader.CommentedLayout | scripts/add-gpl-header.js:38-45 | a block comment is `/*`, the text with ` * ` before every line, ` */` and a blank line; a hash comment is the text with `# ` before every line and a blank line; any other style gives the empty text |
| GplHeader.HeaderLayout | scripts/add-gpl-header.js:21-45 | the header text of any project and author follows that layout |
| GplHeader.CommentedKeeps | scripts/add-gpl-header.js:38-65 | a piece of one line of the text is still there once the text is commented and put in front of a file |
| GplHeader.HeaderMarked | scripts/add-gpl-header.js:22-36 | the header text names the licence on one of its lines, whatever the project and author |
| GplHeader.MarkedKeeps | scripts/add-gpl-header.js:38-65 | a commented text that names the licence on a line puts the licence name into the file it is written in front of |
| GplHeader.HeaderHasPhrase | scripts/add-gpl-header.js:21-65 | once the block or hash header is written in front of a file, the file names the licence |
| GplHeader.Extname | scripts/add-gpl-header.js:58 | an extension found starts with `.`, ends the name and is shorter than it |
| GplHeader.LastExtension | scripts/add-gpl-header.js:58 | the extension is the name's last `.` part, and a dot-file or `..` has none |
| GplHeader.NoExtension | scripts/add-gpl-header.js:58 | a name without `.` has no extension |
| GplHeader.CommentStyles | scripts/add-gpl-header.js:9-18 | the table as written: every style in it is `block` or `hash` |
| GplHeader.RustHashAsWritten | scripts/add-gpl-header.js:14 | as written, `.rs` has the hash style, which is not a comment in Rust, so a Rust file's header starts with `# ` |
| GplHeader.StyleFor | scripts/add-gpl-header.js:9-18 | the corrected table: every style in it is `block` or `hash` |
| GplHeader.TablesStyled | scripts/add-gpl-header.js:9-18 | both the table as written and the corrected one give only the block and hash styles |
| GplHeader.HashOnlyWhereCommented | scripts/add-gpl-header.js:9-18 | with `.rs` given the block style, only Python, Ruby, Lua and PHP files get `#` lines, and every other entry is as written |
| GplHeader.UpperCaseExtension | scripts/add-gpl-header.js:58-59 | the extension is lower-cased before the lookup in `commentStyles`, so `.TSX` gets a block comment |
| GplHeader.DotFile | scripts/add-gpl-header.js:58-59 | a dot-file such as `.ts` has no extension and gets no header |
| GplHeader.InnerExtension | scripts/add-gpl-header.js:58-59 | only the last extension counts: `notes.rs.md` gets no header |
| GplHeader.Processed | scripts/add-gpl-header.js:57-68 | for any style table, the file's old text always stays, at the end |
| GplHeader.ProcessedChanges | scripts/add-gpl-header.js:57-68 | for any table of block and hash styles, `CommentStyles` among them, a file changes exactly when the table has a style for its lower-cased extension and it does not name the licence yet |
| GplHeader.ProcessedIdempotent | scripts/add-gpl-header.js:62-67 | for any table of block and hash styles, `CommentStyles` among them, a second look at a file already processed changes nothing |
| GplHeader.ProcessFile | scripts/add-gpl-header.js:57-68 | the branch for a file, looking its lower-cased extension up in the given table (`CommentStyles` in the script), leaves the file with the text the rules give |
| GplHeader.WalkAll | scripts/add-gpl-header.js:49-71 | for the given table, one entry out per entry in, each the walk of the entry in |
| GplHeader.Walk | scripts/add-gpl-header.js:49-71 | the loop over the entries, with the given table, leaves each entry as the walk rules give, recursing into directories that are not skipped |
| GplHeader.WalkEntry | scripts/add-gpl-header.js:53-69 | one entry becomes what the walk rules give for the table: a directory that is not skipped is walked, a file is processed, anything else stays |
| GplHeader.WalkKeepsShape | scripts/add-gpl-header.js:49-71 | for any table, the walk only rewrites file texts: no entry is added, removed, renamed or moved, and `node_modules`, `dist` and `.git` are left whole |
| GplHeader.WalkIdempotent | scripts/add-gpl-header.js:49-71 | for any table of block and hash styles and a header that names the licence, a second walk over a tree changes nothing |
| GplHeader.ScriptIdempotent | scripts/add-gpl-header.js:4-74 | the script as written, with `commentStyles` and its own header: running it twice is running it once, and the tree keeps its shape |
| GplHeader.CorrectedScriptIdempotent | scripts/add-gpl-header.js:4-74 | with the corrected table as well, running the script twice is running it once, and the tree keeps its shape |
| GplHeader.MainRsStyles | scripts/add-gpl-header.js:14 | `main.rs` is looked up as `.rs`: `hash` in the table as written, `block` in the corrected one |
| GplHeader.RustFileAsWritten | scripts/add-gpl-header.js:57-68 | the script's walk puts a header beginning `# ` in front of a `main.rs` that does not name the licence; the corrected walk puts one beginning `/*` |
| GplHeader.RustFileHeaders | scripts/add-gpl-header.js:57-68 | the same for any header text: the processed `main.rs` begins `# ` as written and `/*` corrected |
| GplHeader.MakeHeader | scripts/add-gpl-header.js:21-46 | the header text with ` * ` before each line inside `/*` and ` */` for the block style, `# ` before each line for the hash style, and nothing for any other style |
| GplHeader.WalkNode | scripts/add-gpl-header.js:53-69 | with the given table, a skipped directory stays as it is, another directory has its entries walked, a file is processed and anything else stays |

## Left out

- The document store's `Collection` and engine: insert, find with sort/skip/limit, persistence and connection handling. Their implementation is not part of this model. `JdbTypes` gives their call and reply shapes only.
- `readJSON`, `writeJSON`, `ensureDir` and `generateId` of src/jdb/utils.ts: file I/O and `crypto.randomUUID`.
- JdbUtils.MatchFilter: requires `$in`/`$nin` targets to be arrays or strings, because on anything else `includes` throws a TypeError that the model does not carry.
- JdbUtils.ApplyUpdate: requires `$inc` amounts that are not `undefined`. Adding `undefined` gives NaN, and numbers here are integers.
- `$regex` in matchFilter calls the JavaScript `RegExp` engine. It is the `regexTest` parameter of `JdbUtils.Env`.
- Numbers throughout are integers. NaN, infinities, fractions and `-0` are not modelled. `Number()` conversion is a parameter wherever the source converts a string.
- `localeCompare` in route sorting is replaced by code-unit order (`JsValues.StrLess`). Collation rules are locale data outside the program.
- Strings are sequences of `char`. UTF-16 surrogate pairs and non-ASCII case mapping are not modelled, and neither is Rust's Unicode `to_lowercase`: the model uses ASCII case mapping.
- The SCSS parser and `read_ident` step over byte indices. Non-ASCII input is not modelled: the source reads a character but advances its index by one byte, so the next slice `self.s[self.i..]` panics when the index falls inside a multi-byte character.
- ScssParser.Parser.ParseAtStmt: states that the node is raw text starting with `@`, not its exact extent.
- ScssParser.Parser.ParseRuleOrDecl: a rule's body is stated to be well formed, not as a function of the text after the `{`.
- ScssParser.Parser.ParseBlockUntil: states well-formed nodes and the final cursor position, not the exact node list.
- ScssParser.ParseScss: states well-formed nodes, not the exact tree.
- Route-file names are matched against `routeFilePattern`, a regular expression. It is the `routeName` parameter of `RoutesScan.RouteConfig`, which gives the captured name or none. The recursive directory `walk` of `scanRoutes` is file I/O; the model starts from the list of files it returns.
- `decodeURIComponent` and `encodeURIComponent` are parameters. A decoder answers none where the built-in throws.
- `JSON.stringify` and `JSON.parse` are parameters, for islands, the manifest and the schema parser's `examples`.
- `Math.random` and `Date.now`: the session model takes the 32 alphabet indices and `now` as parameters, and the rate limiter and document updater take `now`. The random suffix of an island id is a parameter too.
- The session table's `setInterval` cleanup timer is not modelled. Its callback is `Sessions.SessionManager.CleanupExpiredSessions`.
- Sessions.NewSession: a `createdAt` or `expiresAt` in the caller's data is modelled only as a number. In the source any value may be spread in; a non-numeric `expiresAt` (an explicit `undefined`, a non-numeric string, an object) makes `Date.now() > session.expiresAt` false at every later look, so such a session never expires, which the model does not express.
- Sessions.SessionManager.GetSession: the source returns the stored session object itself, so a caller that changes it changes the table, and `refreshSession` sets `expiresAt` on that shared object. The model returns a copy and writes the refreshed session back into the table. The table agrees, but a caller still holding an older object does not see the refresh.
- `process.env.NODE_ENV` in the cookie helpers is a boolean parameter.
- The middleware functions' asynchronous `next` and the response objects are modelled as returned outcomes and a recorded header table. Promises and streams are not modelled.
- `Registry.MiddlewareRegistry`: middleware are values of a type parameter; the registry never calls them.
- The `headersToObject` of src/core/http.js is the same code as that of src/core/http.ts. Both are modelled by `HttpTs.HeadersToObject`.
- `computeFileHash` in jenpack/src/cache/index.ts and `compute_hash` are SHA-256 digests. The hash is a plain string the caller supplies.
- The build cache's `load` and `save` read and write a JSON file. The saved index is part of `BuildCache.Cache`'s state rather than a file.
- `extract_assets`, `minify_css` and `minify_html` of jenpack are regular-expression passes outside the modelled core. `HtmlProcessor`'s logging is not modelled.
- The minifier's test sample: the model proves the output is shorter (`Minifier.MinifiedLength`), but not that it holds no `//`. `Minifier.SlashesRejoined` shows that in general the later whitespace passes can join two `/` into a new `//`.
- `JenPackConfig::load` reads a TOML file (I/O), and the documentation site's `loadConfig` imports a module. Only their fallback values are modelled.
- The `Navigation` component's JSX rendering is not modelled. Only the breadcrumbs and neighbours it renders from are.
- Shiki, loaded by `highlight`, is a parameter that may fail.
- `generateHTML` and the command-line part of scripts/Msl.js (file reading and writing) are not modelled. Only `parseDSL` is.
- Msl: keys are plain map keys; the JavaScript prototype chain (`__proto__`, `constructor` as a key) is not modelled. Object key order is not modelled either.
- Msl: stack frames hold a definition's key rather than an object reference. Every frame points at a top-level definition, so this is the same object.
- InputValidation: `__proto__` passes the key test but is not kept as an own key, because assigning it sets the prototype; the model drops it.
- src/middleware/builtins/input-validation.js carries TypeScript type annotations at lines 92 and 107 (`input: any`, `const sanitized: any`), which a JavaScript parser rejects, so the file as shipped does not load. The model reads the code as if the annotations were absent.
- InputValidation.Limit: an explicit `maxJsonSize: undefined` in the options is not modelled. The spread keeps the `undefined`, and `contentLength > undefined` is always false, so the 413 check is switched off; the model's option is either a number or absent.
- Registry.MiddlewareRegistry.GetGroup: the `filter((m) => !!m)` is modelled for names that were never registered, not for registered falsy values (`null`, `0`, `""`, `false`), which the source also drops; middleware are values of a type parameter with no falsiness.
- JdbUtils.ApplyUpdate: documents are values, so `$push` yields a document with the longer array, but other documents or variables that share the same array object are not updated through that sharing.
- Cookies.ParseCookies: a cookie named `__proto__` is kept as an entry of the map; in the source the assignment sets the result object's prototype and no own key appears.
- HttpTs.ParseCookies: a cookie named `__proto__` is kept as an entry of the map, while the source's assignment sets the prototype instead.
- HttpJs.ParseCookies: a cookie named `__proto__` is kept as an entry of the map, while the source's assignment sets the prototype instead.
- RoutesMatch.DecodeParams: a parameter named `__proto__` is kept as an entry of the map, while the source's assignment sets the prototype instead.
- The `console.warn` that `parseCookies` in src/auth/cookie-utils.ts logs (line 79) for a cookie it cannot decode is not modelled. The cookie is skipped, as in `Cookies.ParseCookies`.
- The three `console.warn` calls of `createManifest` in preactsc/src/shared/manifest.js (lines 28, 35 and 43: an invalid file path, an invalid manifest path, a duplicate component id) are not modelled; only the skipping of the entry they report is.
- The licence tool's file system is a value. `GplHeader.Walk` returns the tree as it is after the writes. The walk takes its style table as a parameter: the script's own run is the one with `GplHeader.CommentStyles`, and the one with `GplHeader.StyleFor` is the corrected run. Logging is not modelled. The header text is parametrized by the project name and author; `GplHeader.Default` holds the script's own values.

## Findings

| source | as written | input that shows it | evidently intended | confidence | as-written member | corrected member |
|---|---|---|---|---|---|---|
| src/db/drivers/sql.ts:214 | `sql.replace("SELECT \\*", "DELETE")` searches for the text `SELECT \*` with a backslash, which the generated `SELECT * FROM` never contains, so `delete` executes the `SELECT` unchanged | any registered table and non-empty filter, e.g. `delete("users", {id: 1})` | the statement `DELETE FROM`, with the same table, conditions and parameters | not executed | SqlDriver.DeleteRunsSelect | SqlDriver.DeleteSqlDeletes |
| src/middleware/builtins/input-validation.js:96-98 | each dangerous pattern is removed in one left-to-right pass, so removing an inner match can join the pieces around it into a new match | `<scr<scriptipt>` sanitises to `<script>` | a sanitised string holding none of the patterns | not executed | InputValidation.SinglePassLeavesScript | InputValidation.SanitizedFullyIsFree |
| jenpack/src/minifier.rs:64-66 | the closing `*/` is searched from the `/*` itself, so the `*` of the opening can also start the closing | `a/*/b*/c` becomes `ab*/c` | the comment ends at the first `*/` after the opening `/*`, giving `ac` | not executed | Minifier.OverlappingCloseAsWritten | Minifier.OverlappingCloseCorrected |
| src/build/island-hydration.ts:78 | `html.replace('</body>', script + '</body>')` with a string replacement expands `$&`, `` $` ``, `$'` and `$$` in the script, which holds the islands' JSON | an island whose props JSON holds `$&`, e.g. `["$&"]`: the `$&` becomes `</body>` | the script inserted literally before the first `</body>` | not executed | Islands.DollarInPropsAsWritten | Islands.LiteralAgreesWithoutDollar |
| scripts/add-gpl-header.js:14 | `commentStyles` gives `.rs` the `hash` style, so `#` comment lines go in front of Rust sources, where `#` starts an attribute | any `main.rs` without the licence phrase gets a header beginning `# ` | Rust files get the block style, `/* ... */`, which Rust accepts | not executed | GplHeader.RustFileAsWritten | GplHeader.HashOnlyWhereCommented |
