# PHPDAL in Dafny

PHPDAL is a small PHP database abstraction layer. The model covers its
core, which is sequential string and array handling with explicit error
codes:

- **The condition compiler** (`DatabaseConditionModel`). A nested condition
  array becomes a statement fragment: a template with `?` placeholders and
  the ordered values to bind to them.
  - Leaves are resolved against a two-tier grammar table.
  - Groups are joined with ` AND `, ` OR ` or ` XOR ` and wrapped in
    parentheses.
  - `add` and `del` change the stored structure in place.
- **The grammar tables** (`DatabaseGrammarModel`, `MySQLGrammar`). These are
  the standard operator table and the MySQL override of the identifier
  quotes.
- **Prepared statements** (`DatabaseStatement`). A statement counts the
  placeholders of its query. `exec` checks the argument list, binds it at
  positions 1..n and counts successful executions.
- **Utilities** (`DatabaseUtils`, the older `DatabaseTools`): the maximum
  and minimum depth of nested arrays, and replacement of a string's first
  occurrence.
- **The connection object** (`DatabaseModel`):
  - identifier quoting;
  - the constructor's argument checks;
  - the statements and argument lists `insert` builds;
  - the LIMIT defaults and sort-direction check of `select`.
- **The facade** (`Database`): type normalisation and `hasDefaultTable`.
- **The schema registry** (`Schema`) and the trigger definition
  (`SchemaTrigger`).

## How PHP is represented

PHP values are the datatype `Php.Value`:

- **Kinds:** null, bool, int, float (kept as its decimal text), string,
  array, object (its class and its strict ancestors) and resource.
- **Arrays:** ordered sequences of entries with normalised keys.
- **Comparisons and built-ins:** loose comparison, `is_numeric`,
  `(string)` conversion, `implode`, `explode`, `strtolower`, `array_merge`,
  `array_unique` and `array_diff` follow PHP 8.
- **Exceptions:** a `DatabaseException` becomes `Err(code)`.
- **Engine errors:** an uncaught PHP engine error (a `TypeError`, or a failed
  string conversion) becomes `Err(EngineError)`.

Classes whose fields the source updates are Dafny classes:

- `DatabaseConditionModel`
- `DatabaseStatement`
- `Model` for `DatabaseModel`
- `Database`
- `Schema`
- `SchemaTrigger`

Their loops are methods with loop invariants. Each method is proved equal to
a specification function, or is specified pointwise. The properties are then
proved about those functions.

The driver is not modelled. Where the source asks the database something, the
answer is a parameter:

- `tableExists` is a boolean argument of `Model.Insert`;
- `DatabaseStatement.Exec` stands for PDO's `execute`, which the source
  evidently means where it calls `exec` (src/class/DatabaseStatement.php:151);
  whether the execution succeeds is a boolean argument.

The bindings handed to the driver are kept as a ghost log.

## Model

| member | source | states |
|---|---|---|
| Grammars.PlaceholdersConcat | src/class/DatabaseStatement.php:48 | the `?` count of a concatenation is the sum of the parts' counts |
| Grammars.Resolve | src/class/DatabaseGrammarModel.php:91-96 | the extended table's entry when it has the key, else the standard table's entry (None standing for `false`) |
| Grammars.Lookup | src/class/DatabaseConditionModel.php:177-206 | an unset key is MISSING_REQUIRED_ARGUMENT, a non-string key is INPUT_INVALID_TYPE, and a string key always resolves |
| Grammars.GetToken | src/class/DatabaseGrammarModel.php:84-113 | extended entry, else standard entry, else nothing; the error codes of unset and non-string keys |
| Grammars.OperatorEntryWellFormed | src/class/DatabaseGrammarModel.php:11-74 | every `op_*` template has as many `?` as its `args` list has names, and the first name is `key` |
| Grammars.StandardWellFormed | src/class/DatabaseGrammarModel.php:8-82 | every entry of both standard tables is well formed |
| Grammars.ResolveWellFormed | src/class/DatabaseGrammarModel.php:91-96 | a lookup over a well-formed DBMS table only finds well-formed entries |
| Grammars.StandardTablesAgree | src/class/DatabaseConditionModel.php:17-89 | the condition model's standard table equals the grammar model's on every key except the identifier quotes |
| Grammars.ExclusiveRangeOperators | src/class/DatabaseGrammarModel.php:63-74 | `op_xrange` and `op_nxrange` take `key,lower,upper,key,lower,key,upper`, and their templates hold seven `?` |
| Grammars.JoinerTokens | src/class/DatabaseGrammarModel.php:8-82 | the tokens `and`, `or`, `xor`, `encapLeft`, `encapRight` and `setDelimiter` |
| Grammars.IdentifierQuotes | src/class/DatabaseGrammarModel.php:76-77 | only the grammar model's table quotes identifiers, with a double quote |
| MySQLGrammar.GetToken | src/class/MySQLGrammar.php:5-8 | both identifier quotes resolve to a backtick, every other string key to the standard entry |
| MySQLGrammar.ExtendedKeys | src/class/MySQLGrammar.php:5-8 | the override table holds exactly the two identifier quotes |
| MySQLGrammar.OtherTokensStandard | src/class/MySQLGrammar.php:5-8 | any other token, `op_eq` among them, resolves to the standard entry unchanged |
| MySQLGrammar.QuotesOverridden | src/class/MySQLGrammar.php:6-7 | the backtick overrides the standard double quote |
| Conditions.GetGrammar | src/class/DatabaseConditionModel.php:177-206 | DBMS entry, else standard entry, else nothing; the error codes of unset and non-string keys |
| Conditions.OperatorOf | src/class/DatabaseConditionModel.php:389-494 | the operator found is one whose symbol or name the `type` loosely equals |
| Conditions.MatchIsFound | src/class/DatabaseConditionModel.php:389-494 | a type that matches some operator selects an operator |
| Conditions.MatchIsUnique | src/class/DatabaseConditionModel.php:389-494 | a type other than `true` matches at most one operator, the one selected |
| Conditions.WordsIdentifyOperators | src/class/DatabaseConditionModel.php:389-494 | each operator's symbol and name lead back to that operator, so no two operators share a word |
| Conditions.NoneMatchesNothing | src/class/DatabaseConditionModel.php:389-494 | when no operator is selected, the type matches neither the symbol nor the name of any of the sixteen operators |
| Conditions.OperatorOfFirstMatch | src/class/DatabaseConditionModel.php:389-494 | no operator is selected exactly when the type matches none; `true` matches all and selects EQ; any other type selects the only operator it matches |
| Conditions.OperatorDefined | src/class/DatabaseConditionModel.php:17-89 | each of the sixteen operators has an operator entry in both standard tables |
| Conditions.ElementStrings | src/class/DatabaseConditionModel.php:384-386 | the set's elements as strings, one per element in order; an engine error exactly when one has no string form |
| Conditions.LeafArgs | src/class/DatabaseConditionModel.php:496-506 | the leaf's fields read in the template's argument order (repeats allowed); MISSING_REQUIRED_ARGUMENT exactly when one is not set |
| Conditions.CheckLeaf | src/class/DatabaseConditionModel.php:293-381 | the checks in source order, each once the earlier ones pass: a non-scalar value is INPUT_INVALID_TYPE; a missing key INPUT_NOT_VALID; a key, lower or upper without a string form an engine error; a value, lower, upper or set that the type needs but is missing INPUT_NOT_VALID; a set that is neither array nor string INPUT_INVALID_TYPE; it passes exactly when all of them pass |
| Conditions.CompileLeaf | src/class/DatabaseConditionModel.php:293-506 | a failed leaf check is that check's error, then a failed set conversion is that error; an unknown type is INPUT_NOT_VALID; an operator without a template entry is MISSING_DEFINITION; otherwise the leaf compiles exactly when every field the template names is set, else MISSING_REQUIRED_ARGUMENT, and the statement is the template with the fields its names select |
| Conditions.StandardLeafCompiles | src/class/DatabaseConditionModel.php:389-506 | over the standard template of its operator, a checked leaf compiles exactly when every field the template names is set, to that template's statement |
| Conditions.KeyValueArgs | src/class/DatabaseConditionModel.php:496-506 | a leaf with key and value set gives a `key, value` template exactly those two fields |
| Conditions.EqualityCompiles | src/class/DatabaseConditionModel.php:389-396 | a checked `=` leaf without a set compiles to `? = ?` over its key and its value |
| Conditions.EqualityLeafCompiles | src/class/DatabaseConditionModel.php:279-506 | `['type' => '=', 'key' => 'a', 'value' => 1]` compiles to `? = ?` with `a` and `1` |
| Conditions.CompileByElements | src/class/DatabaseConditionModel.php:263-565 | a block compiles to its elements' fragments joined in order, arguments concatenated in the same order; every error comes from an element |
| Conditions.EmptyStructure | src/class/DatabaseConditionModel.php:274-276 | an empty structure compiles to an empty statement with no arguments |
| Conditions.BadElementFails | src/class/DatabaseConditionModel.php:516-521 | an element that is neither an array nor a string fails the block with INPUT_INVALID_TYPE once the elements before it compile |
| Conditions.WildcardEndsBlock | src/class/DatabaseConditionModel.php:509-515 | a `*` element ends the block with an empty statement and no arguments, whatever follows it |
| Conditions.CompileValues | src/class/DatabaseConditionModel.php:279-529 | the compiled fragment depends only on the block's values, not its keys |
| Conditions.RequiredFieldTestsAreLoose | src/class/DatabaseConditionModel.php:314-381 | the required-field tests are PHP's loose `in_array` over the type lists |
| Conditions.DispatchIsLoose | src/class/DatabaseConditionModel.php:389-494 | each dispatch test is the loose `$type == symbol or $type == name` |
| Conditions.CombinatorIsLoose | src/class/DatabaseConditionModel.php:287 | a `%` value names a combinator exactly when it is loosely in AND, OR, XOR |
| Conditions.LeafParity | src/class/DatabaseConditionModel.php:496-506 | over a well-formed DBMS table, a compiled leaf has one argument per placeholder |
| Conditions.CompileParity | src/class/DatabaseConditionModel.php:263-565 | over a well-formed DBMS table, every compiled block binds one argument per placeholder |
| Conditions.ExclusiveRangeLeaf | src/class/DatabaseConditionModel.php:431-506 | XRANGE and NXRANGE bind `key, lower, upper, key, lower, key, upper` into their seven-placeholder templates |
| Conditions.SetLeaf | src/class/DatabaseConditionModel.php:449-462 | IN and NOT IN bind the key and the set joined with commas into one `setstring`, under `? IN (?)` and `? NOT IN (?)` |
| Conditions.SetString | src/class/DatabaseConditionModel.php:384-386 | with the standard delimiter, `setstring` is the set's elements joined with commas |
| Conditions.WithSetStringKeeps | src/class/DatabaseConditionModel.php:384-386 | adding `setstring` changes no other field |
| Conditions.SetTypeNeedsSet | src/class/DatabaseConditionModel.php:357-381 | IN and NOT IN are among the types that require a set |
| Conditions.StringSetRoundTrip | src/class/DatabaseConditionModel.php:384-386 | a string set passes through split-and-join unchanged |
| Conditions.GroupUsesItsCombinator | src/class/DatabaseConditionModel.php:284-289 | a group compiles to its elements' statements joined with its own combinator, in parentheses, with their arguments in order |
| Conditions.ComparatorAfter | src/class/DatabaseConditionModel.php:284-286 | an element's `%` entry replaces the comparator in force; without one the comparator carries over |
| Conditions.CondTypeFrom | src/class/DatabaseConditionModel.php:279-521 | as written, the join type never becomes XOR unless it already was; a failure is INPUT_INVALID_TYPE |
| Conditions.CondTypeAsWritten | src/class/DatabaseConditionModel.php:272-521 | as written, an empty block is NONE, no block is XOR, and a failure is INPUT_INVALID_TYPE |
| Conditions.AsWrittenOrNeedsWildcard | src/class/DatabaseConditionModel.php:509-515 | as written, the join type becomes OR only through a `*` element |
| Conditions.AsWrittenNeverXor | src/class/DatabaseConditionModel.php:280-288 | as written, no block is joined with XOR, and none with OR unless it holds a `*` |
| Conditions.GroupTail | src/class/DatabaseConditionModel.php:284-288 | as written, once the comparator in force names a combinator, arrays without their own `%` are taken as groups and the join type ends undefined |
| Conditions.GroupPoisonsBlock | src/class/DatabaseConditionModel.php:284-288 | as written, a group followed only by arrays without a `%` makes the block fail with INPUT_NOT_VALID |
| Conditions.GroupLastFinding | src/class/DatabaseConditionModel.php:539-555 | a structure ending in a group fails as written with INPUT_NOT_VALID, where the group compiles to `()` |
| Conditions.CarriedComparatorFinding | src/class/DatabaseConditionModel.php:284-289 | a group followed by an `=` leaf fails as written with INPUT_NOT_VALID, where the leaf has no `%` and selects EQ |
| Conditions.StringSetFinding | src/class/DatabaseConditionModel.php:385 | the string set `a,b` is an engine error as written, where it splits to `a`, `b` and joins back to `a,b` |
| ConditionModel.DatabaseConditionModel.New | src/class/DatabaseConditionModel.php:98-103 | the structure is stored and its compiled AND block cached; a compile error propagates; the statement binds one argument per placeholder |
| ConditionModel.DatabaseConditionModel.Parse | src/class/DatabaseConditionModel.php:263-565 | the element loop computes exactly the compiler function `Compile` |
| ConditionModel.DatabaseConditionModel.ParseElement | src/class/DatabaseConditionModel.php:283-292 | a group is parsed in its own parentheses, anything else as a leaf |
| ConditionModel.DatabaseConditionModel.ParseLeaf | src/class/DatabaseConditionModel.php:293-506 | the leaf checks, dispatch and argument loop compute exactly `CompileLeaf` |
| ConditionModel.DatabaseConditionModel.AppendArgs | src/class/DatabaseConditionModel.php:524-528 | the copy loop appends the element's arguments in order |
| ConditionModel.DatabaseConditionModel.ReadArgs | src/class/DatabaseConditionModel.php:496-506 | the argument loop computes exactly `LeafArgs` |
| ConditionModel.DatabaseConditionModel.Add | src/class/DatabaseConditionModel.php:127-151 | a non-array rule is INPUT_INVALID_TYPE; otherwise the structure becomes the de-duplicated merge of rule then structure and the statement is recompiled; parity is preserved |
| ConditionModel.DatabaseConditionModel.Del | src/class/DatabaseConditionModel.php:153-166 | entries whose value is one of the rule's are removed; the cached statement is unchanged |
| ConditionModel.DatabaseConditionModel.GetStatement | src/class/DatabaseConditionModel.php:208-212 | returns the cached statement |
| ConditionModel.DatabaseConditionModel.GetStructure | src/class/DatabaseConditionModel.php:214-218 | returns the stored structure |
| ConditionModel.MergeLists | src/class/DatabaseConditionModel.php:134 | merging two lists keeps every value, the rule's first |
| ConditionModel.DelUndoesAdd | src/class/DatabaseConditionModel.php:127-166 | deleting a rule just added gives back the structure's values, when rule and structure are lists of distinct values |
| ConditionModel.DelUndoesAddStatement | src/class/DatabaseConditionModel.php:127-166 | the statement compiled after `add` then `del` of the same rule is the original one |
| Statements.ParamPrepareType | src/class/DatabaseStatement.php:275-329 | bool gives BOOL, int gives INT, null gives NULL, everything else STR; arrays and objects are serialised; a resource has no type |
| Statements.ArgBinding | src/class/DatabaseStatement.php:89-130 | an array argument needs a `value` (else INPUT_NOT_VALID), its type defaulting to STR; anything else through `paramPrepareType`, a resource being INPUT_INVALID_TYPE |
| Statements.BindArgs | src/class/DatabaseStatement.php:89-130 | bindings at positions 1..n in list order, stopping at the first argument that cannot be bound |
| Statements.DatabaseStatement.constructor | src/class/DatabaseStatement.php:41-68 | the argument count is the number of `?` in the query; nothing is executed or bound yet |
| Statements.DatabaseStatement.Exec | src/class/DatabaseStatement.php:85-165 | a non-array is INPUT_INVALID_TYPE and a wrong length INPUT_NOT_VALID before anything is bound; then the bindings are logged; the execution count rises by one only on success |
| Statements.DatabaseStatement.GetArgCount | src/class/DatabaseStatement.php:176-180 | returns the query's placeholder count |
| Statements.DatabaseStatement.GetExecCount | src/class/DatabaseStatement.php:202-206 | returns the execution count |
| Statements.DatabaseStatement.GetParent | src/class/DatabaseStatement.php:215-219 | returns the parent fixed at construction |
| Statements.DatabaseStatement.GetQuery | src/class/DatabaseStatement.php:228-232 | returns the query fixed at construction |
| Statements.BindPrefixFailure | src/class/DatabaseStatement.php:89-130 | once binding a prefix fails, the whole list fails the same way |
| Statements.BindAllPlain | src/class/DatabaseStatement.php:89-130 | a list of scalars and nulls binds in full, each value as it is, at positions 1..n |
| DatabaseUtils.MaxDepth | src/class/DatabaseUtils.php:13-30 | the depth is at least 1 |
| DatabaseUtils.ArrayMaxDepth | src/class/DatabaseUtils.php:13-30 | the loop computes exactly `MaxDepth` |
| DatabaseUtils.MaxDepthFlat | src/class/DatabaseUtils.php:16-30 | an array with no nested array has depth 1 |
| DatabaseUtils.MaxDepthBound | src/class/DatabaseUtils.php:19-27 | every nested array is at least one level shallower than its parent |
| DatabaseUtils.MaxDepthAttained | src/class/DatabaseUtils.php:19-27 | a depth above 1 is one more than some nested array's depth |
| DatabaseUtils.MaxDepthConcat | src/class/DatabaseUtils.php:19-27 | the depth of two arrays one after the other is the larger of their depths |
| DatabaseUtils.ScalarIgnored | src/class/DatabaseUtils.php:19-27 | an element that is not an array does not change the depth |
| DatabaseUtils.Min | src/class/DatabaseUtils.php:59 | the minimum is an element and no element is smaller |
| DatabaseUtils.DepthMap | src/class/DatabaseUtils.php:42-58 | one entry per element, at least 1, exactly 1 for an element that is not an array |
| DatabaseUtils.MinDepth | src/class/DatabaseUtils.php:42-60 | at least 1; the empty array is an engine error |
| DatabaseUtils.ArrayMinDepth | src/class/DatabaseUtils.php:42-60 | the loop computes exactly `MinDepth` |
| DatabaseUtils.MinDepthScalar | src/class/DatabaseUtils.php:53-59 | one element that is not an array makes the minimum depth 1 |
| DatabaseUtils.MinDepthOfElements | src/class/DatabaseUtils.php:48-59 | the minimum depth is at most one more than each nested array's minimum depth |
| DatabaseUtils.MinDepthAttained | src/class/DatabaseUtils.php:48-59 | the minimum depth is attained by some element: a scalar gives 1, a nested array one more than its own minimum |
| DatabaseUtils.MinDepthAtMostMaxDepth | src/class/DatabaseUtils.php:13-60 | the minimum depth never exceeds the maximum depth |
| DatabaseUtils.StrPos | src/class/DatabaseUtils.php:203 | the first position where the needle occurs, or none when it occurs nowhere |
| DatabaseUtils.ReplaceOnce | src/class/DatabaseUtils.php:201-209 | false (None) exactly when the needle does not occur |
| DatabaseUtils.ReplaceOnceKeepsTheRest | src/class/DatabaseUtils.php:203-206 | only the first occurrence is replaced: the text before and after it is unchanged |
| DatabaseUtils.ReplaceBySelf | src/class/DatabaseUtils.php:201-209 | replacing the needle by itself gives the haystack back |
| DatabaseUtils.ReplaceOnceFinding | src/class/DatabaseUtils.php:206 | replacing `a` by `b` in `a` gives the empty string as written and `b` as intended |
| DatabaseTools.ArrayDepth | class/DatabaseUtils.php:13-26 | computes `MaxDepth`: at least 1, and exactly 1 with no nested array |
| DatabaseModel.UndoubleDouble | src/class/DatabaseModel.php:762 | doubling the backticks loses nothing: the body reads back to the name |
| DatabaseModel.QuoteColumn | src/class/DatabaseModel.php:758-779 | null is MISSING_REQUIRED_ARGUMENT, a non-string INPUT_INVALID_TYPE; a string is quoted between backticks and unquotes to exactly itself |
| DatabaseModel.QuoteTable | src/class/DatabaseModel.php:795-816 | the same contract as `QuoteColumn` |
| DatabaseModel.QuoteInjective | src/class/DatabaseModel.php:758-763 | two names quote alike only when they are the same name |
| DatabaseModel.DefaultPort | src/class/DatabaseModel.php:181-185 | the default port is a legal port |
| DatabaseModel.CheckPort | src/class/DatabaseModel.php:158-186 | null takes the default; a non-numeric port is INPUT_INVALID_TYPE; a numeric one is truncated to an integer and must lie in 0..65535, else INPUT_NOT_VALID |
| DatabaseModel.QuestionMarks | src/class/DatabaseModel.php:640-643 | the loop builds `n` question marks |
| DatabaseModel.ImplodeMarks | src/class/DatabaseModel.php:645 | `n` marks joined with commas hold `n` placeholders |
| DatabaseModel.InsertQueryPlaceholders | src/class/DatabaseModel.php:644-648 | the INSERT template over `n` marks has 1 + 2n placeholders |
| DatabaseModel.ExecutionArray | src/class/DatabaseModel.php:686-692 | the table, each key as a string, each value as a string, in row order (1 + 2n values); an engine error exactly when a value has no string form |
| DatabaseModel.InsertGuard | src/class/DatabaseModel.php:613-637 | passes exactly for an array input with an absent table or a string naming an existing table; the error code of each other case |
| DatabaseModel.InsertGuardAsWrittenNeedsNoTable | src/class/DatabaseModel.php:631-634 | as written, only an array input with no table argument and no existing table gets past the checks |
| DatabaseModel.InsertGuardFinding | src/class/DatabaseModel.php:631-634 | an insert into an existing table is rejected as written and accepted as intended |
| DatabaseModel.MultiRowParityAsWritten | src/class/DatabaseModel.php:641-715 | as written, a row fits the shared template only when it has as many fields as the input has rows |
| DatabaseModel.MultiRowFinding | src/class/DatabaseModel.php:641-715 | two rows of one field: five placeholders as written for three arguments per execution |
| DatabaseModel.SelectLimits | src/class/DatabaseModel.php:885-933 | passes exactly when start and count are each absent or a non-negative integer; a lone start gets count `18446744073709551615`, a lone count gets start `0` |
| DatabaseModel.CheckSortDirection | src/class/DatabaseModel.php:935-950 | a given direction must loosely equal 0, 1 or 2, else INPUT_NOT_VALID; the direction is kept as given |
| DatabaseModel.NewError | src/class/DatabaseModel.php:47-257 | no error exactly when name, user, password, port, table and type all pass; otherwise MISSING_REQUIRED_ARGUMENT (exactly for a null name), INPUT_INVALID_TYPE or INPUT_NOT_VALID |
| DatabaseModel.Model.New | src/class/DatabaseModel.php:47-257 | each check in order, once the earlier ones pass: a null name MISSING_REQUIRED_ARGUMENT, a non-string name, user or password INPUT_INVALID_TYPE, a non-numeric port INPUT_INVALID_TYPE, a port outside 0..65535 INPUT_NOT_VALID, a non-string table INPUT_INVALID_TYPE, an unknown type INPUT_NOT_VALID; when all pass it succeeds, storing the name, type, table and the given or default port; it fails exactly when `NewError` gives an error, with that error |
| DatabaseModel.Model.HasDefaultTable | src/class/DatabaseModel.php:594-601 | a default table is set and not loosely null, that is a non-empty string |
| DatabaseModel.Model.Insert | src/class/DatabaseModel.php:611-740 | the guard's errors, CORRUPTED_OBJECT and INPUT_ARRAY_TOO_DEEP; depth 1 gives one execution of the whole row; depth 2 gives one execution per row in order; every execution has one argument per placeholder |
| DatabaseModel.InsertRows | src/class/DatabaseModel.php:703-724 | the multi-row loop as intended: one execution per row in order, each of its row's own template and execution array, each with as many arguments as placeholders; it stops with an engine error exactly at the first row with a value that has no string form |
| DatabaseModel.RowExecutionsParity | src/class/DatabaseModel.php:641-724 | every per-row execution binds as many arguments as its template has placeholders |
| Databases.NormaliseType | src/class/Database.php:60-106 | null is MISSING_REQUIRED_ARGUMENT; an int must be 1, 2 or 3; a string must name mysql, pgsql or sqlite in any case; other types are INPUT_INVALID_TYPE |
| Databases.LowerUpper | src/class/Database.php:78 | lowering an upper-cased lower-case name gives it back |
| Databases.TypeNames | src/class/Database.php:63-84 | each code is accepted as itself, as its name and as its name in capitals |
| Databases.NormaliseIdempotent | src/class/Database.php:60-106 | a normalised type normalises to itself |
| Databases.Database.New | src/class/Database.php:44-140 | a type that does not normalise is that error; otherwise it succeeds exactly when the connection constructor's checks pass (`NewError` is none), and fails with that constructor's first error; on success the type field holds the code, the connection object is fresh with the given name and the given or default port, and facade and connection share the default table |
| Databases.Database.HasDefaultTable | src/class/Database.php:255-263 | both the facade and its connection object have a default table |
| Databases.Database.GetType | src/class/Database.php:241-245 | returns the normalised type code |
| SchemaTriggers.WithinOneTwoCodes | src/class/SchemaTrigger.php:20-38 | the integers that pass the range check are exactly the non-NONE timing and event codes |
| SchemaTriggers.ConstructAsWrittenIgnoresEvent | src/class/SchemaTrigger.php:30-38 | as written, any event is stored once timing, table and code are valid |
| SchemaTriggers.EventGuardFinding | src/class/SchemaTrigger.php:30-38 | event 9 with a valid timing is accepted as written though outside the event codes |
| SchemaTriggers.SchemaTrigger.New | src/class/SchemaTrigger.php:18-60 | timing and event outside `1 <= v <= 2` under PHP 8 comparison (an object compares as 1 and passes) are INPUT_NOT_VALID, a non-string table or code INPUT_INVALID_TYPE, in that order; it succeeds exactly when all pass, storing all four |
| SchemaTriggers.SchemaTrigger.GetCode | src/class/SchemaTrigger.php:62-66 | returns the stored code |
| SchemaTriggers.SchemaTrigger.GetEvent | src/class/SchemaTrigger.php:68-72 | returns the stored event, which lies in the event range |
| SchemaTriggers.SchemaTrigger.GetTable | src/class/SchemaTrigger.php:74-78 | returns the stored table |
| SchemaTriggers.SchemaTrigger.GetTiming | src/class/SchemaTrigger.php:80-84 | returns the stored timing, which lies in the timing range |
| Schemas.KindOf | src/class/Schema.php:41-57 | routing by ancestry: not a component exactly when not descended from SchemaComponentModel; a table, view or trigger component by the first ancestor that matches; any other component descends from none of the three |
| Schemas.ItemError | src/class/Schema.php:41-64 | an item fails with INPUT_INVALID_TYPE unless it is a table, view or trigger component, then with ALREADY_EXISTS when an earlier stored item has its key |
| Schemas.AddTriggerAsWrittenLosesTrigger | src/class/Schema.php:95-115 | as written, the trigger's name is left free and no trigger is stored |
| Schemas.AddTriggerFinding | src/class/Schema.php:98-99 | adding trigger `audit` to an empty schema leaves the name free as written |
| Schemas.Schema.Exists | src/class/Schema.php:145-157 | the name is set in one of the three registries, that is a key of one in a valid schema |
| Schemas.Schema.Available | src/class/Schema.php:139-143 | the negation of `Exists` |
| Schemas.Schema.AddTable | src/class/Schema.php:73-93 | a non-table is INPUT_INVALID_TYPE, a taken name ALREADY_EXISTS with nothing changed; otherwise only the tables map gains the entry; validity is preserved |
| Schemas.Schema.AddTrigger | src/class/Schema.php:95-115 | the same contract over the triggers map |
| Schemas.Schema.AddView | src/class/Schema.php:117-137 | the same checks, but nothing is stored |
| Schemas.Schema.TakenIsRegistered | src/class/Schema.php:139-157 | while the constructor runs, an item's key is registered exactly when an earlier table or trigger item has it |
| Schemas.Schema.New | src/class/Schema.php:37-71 | a non-array is INPUT_INVALID_TYPE; construction succeeds exactly when `FirstError` finds no failing item and otherwise returns that error; on success the schema is fresh and valid, no view is stored, and the tables and triggers maps are `Stored` for the table and trigger items |
| Schemas.FirstErrorFrom | src/class/Schema.php:39-67 | the error the constructor stops with is INPUT_INVALID_TYPE or ALREADY_EXISTS |
| Schemas.FirstErrorIsFirst | src/class/Schema.php:39-67 | construction fails exactly when some item fails, and then with the error of the first failing item, every earlier item having passed |
| Schemas.NonComponentFails | src/class/Schema.php:41-61 | an item that is not a table, view or trigger component makes construction fail |
| Schemas.DistinctComponentsSucceed | src/class/Schema.php:39-67 | table, view and trigger components under distinct keys are all added |
| Schemas.StoredExactly | src/class/Schema.php:73-115 | after a successful run, a registry has a key exactly when an item of its kind has that key, and holds that item under it |
| Schemas.StoredObjects | src/class/Schema.php:73-115 | the registries hold only component objects, so a stored name counts as taken |
| Schemas.ItemErrorOfPrefix | src/class/Schema.php:39-67 | whether an item fails depends only on the items before it |

## Left out

- **Connections and queries.** PDO connections, DSN construction, `tableExists`, `columnExists`, `getColumns`, `getTables` and `genStmt` are foreign I/O. They are left out. Where a result is needed it is a parameter.
- **Driver failures.** PDO `execute` failures inside `insert` (GENERIC_DATABASE_ERROR) are not modelled. `Model.Insert` returns the executions it would hand to the driver.
- **Statement signature.** The MD5 `signature` and the `getSignature`, `getStmt` and `getConnector` accessors of DatabaseStatement are left out, because they are a foreign hash and driver handles.
- **Helpers.** `isValidHost`, `arrayPath` and `recurseArray` are left out. The first is regex matching over an undefined variable; the other two are higher-order and read uninitialised variables. The constructor's `host` check goes with `isValidHost`.
- **Configuration classes.** `MySQLDatabase`, `PostgreSQLDatabase` and `SQLiteDatabase` are represented by the single class `DatabaseModel.Model`. Its type is a constructor parameter, because `src/class/DatabaseModel.php` declares the class as `MySQLDatabase`, reads undefined `self::TYPE_*` constants and never receives `$type`.
- **Other files.** `DatabaseException`, `SchemaModel`, `SchemaTable`, the interfaces, `PHPDAL.php` and the test page are not part of this model.
- **Rest of `select`.** The columns, conditions, table and sort-column handling of `select` (CSV parsing, JSON decoding, condition objects) and the statement it prepares are left out. Only the LIMIT defaults and the sort-direction check are modelled.
- **`getToken`.** It is declared static but reads `$this` (src/class/DatabaseGrammarModel.php:84-91), so it cannot run as written. `Grammars.GetToken` takes the extended table as a parameter, as an instance method would. `MySQLGrammar` redeclares the inherited protected `$tableExtended` as private (src/class/MySQLGrammar.php:5-8), which PHP rejects with a fatal error when the class is declared; the model lays the override over the standard table, as evidently intended.
- **Group combinator.** In `parse`, `$comparator` survives from one element to the next and `$condType` is set from `$key`, which is undefined, or the empty string once an earlier leaf has cast it (line 292) (src/class/DatabaseConditionModel.php:284-289). The model reads each group's own `%` entry, and joins a group's elements with its combinator (`Conditions.GroupUsesItsCombinator`). The as-written join type, with the comparator carried from element to element, is modelled for the findings (`Conditions.CondTypeAsWritten`); the fragments an element wrongly taken as a group would give are not.
- **Non-`*` strings.** `$tmp` is reset to an empty array for every element (src/class/DatabaseConditionModel.php:281), so a string element other than `*` pushes a null `$tmp['stmt']` (line 525): the block gains an empty piece and a stray joiner (`['x', leaf]` gives ` AND a = ?`). A group's own `%` entry is such a string inside the recursive `parse`, so as written every group starts with an empty piece (`( AND a = ?)`). The model skips these strings and contributes no piece.
- **Wildcard.** A `*` element yields an empty statement and no arguments. The source keeps earlier arguments; the model follows the evident intent that an empty statement binds nothing.
- **Comparisons in `add` and `del`.** `array_unique` compares nested arrays by their string form ("Array"), and `array_diff` does the same. The model compares values structurally.
- **Join text.** The join strings ` AND `, ` OR `, ` XOR ` and the parentheses are hard-coded in the source, as in the model. The grammar's `and`/`or`/`xor`/`encap*` tokens are not used.
- **Missing grammar entry.** A grammar entry the lookup cannot find is MISSING_DEFINITION in the model (`Conditions.CompileLeaf`). The source would index into `false`.
- **String conversion.** `str_getcsv` quoting and float-to-string formatting are not modelled. A float keeps its decimal text.
- Php.ToStr: every object is unconvertible here, an engine error. PHP converts an object whose class defines `__toString`; objects carry no methods in this model, so a key, bound, set element (src/class/DatabaseConditionModel.php:292-385) or insert field (src/class/DatabaseModel.php:686-692) holding such an object is an engine error in the model where the source compiles or inserts it.
- **Numeric strings.** `is_numeric` is modelled for optionally signed decimal numbers without exponent or surrounding whitespace.
- **Undefined database-type error.** `Database` throws `EXCEPTION_INVALID_DATABASE_TYPE`, which DatabaseException never declares. It is modelled as its own code, `InvalidDatabaseType`.
- **Default port.** It reads `$this->type` before it is assigned (src/class/DatabaseModel.php:181). The model uses the type the object is built for.
- **Syntax errors.** `src/class/DatabaseModel.php` does not parse as written: line 3 opens a second `<?php` tag inside PHP code, and line 918 concatenates `'->'__METHOD__` without an operator. Each is a parse error. The model follows the evident intent.
- **Undefined `$i`.** The `insert` loop starts from an undefined `$i`, which the model takes as 0.
- **Execution array table.** The execution array holds the `$table` argument, not the default table, as written.
- **Sort-direction check.** The statement `$sortDirection == self::SORT_NONE` (src/class/DatabaseModel.php:949) has no effect and is modelled as such.
- **Octal literals.** `Schema` declares column-type constants with the literals `008`, `009`, `018` and `019` (src/class/Schema.php:13-24), which PHP rejects as invalid octal. No modelled operation uses these constants, so they are left out.
- **Strict ancestry.** `is_subclass_of` is strict, so a direct `SchemaTable` or `SchemaTrigger` instance is rejected. This is modelled as written.
- KindOf: a class-name string is never a component here, although `is_subclass_of` also accepts the name of a class (its `allow_string` argument defaults to true), so `new Schema(['t' => 'UsersTable'])` would route the string by that class's ancestry. Strings carry no class table in this model.
- **Registry names.** Registry names are normalised PHP array keys.
- SchemaTriggers.SchemaTrigger.New: as written, every exception the constructor throws is an engine error, not a DatabaseException with the intended code. `DatabaseException::__construct` takes its first parameter (the caller) by reference (src/class/DatabaseException.php:64-68), and the constructor passes a string expression there (src/class/SchemaTrigger.php:23-27, 33-37, 43-47, 53-57), which PHP refuses. The object would also land in the code parameter. The model gives the error codes the constructor evidently intends.
- **Undefined statement connector.** DatabaseStatement's constructor reads an undefined `$connector` (src/class/DatabaseStatement.php:49) and then calls `prepare` on it (line 56). That is a method call on null, so as written every construction ends in an uncaught engine error. The model follows the evident intent, a prepared statement, and models only the parent, query and placeholder count.
- **Binding log.** The bindings handed to the driver are a ghost log of position, value and type.
- Statements.DatabaseStatement.Exec: as written, the execution calls `exec` on the PDOStatement (src/class/DatabaseStatement.php:151), a method PDOStatement does not have. Every call that gets past the argument checks ends in an uncaught engine error, and the execution count is never raised. The model follows the evident intent, `execute`.
- Statements.DatabaseStatement.GetExecCount: `$executions` is never initialised (src/class/DatabaseStatement.php:25), so before the first execution the source returns null, not 0. The model starts the count at 0; the first increment gives 1 either way.
- **Bind types.** `DatabaseStatement.Exec` does not validate the bind type an array argument names. It is passed on as given.

## Findings

| source | as written | input that shows it | evidently intended | confidence | as-written member | corrected member |
|---|---|---|---|---|---|---|
| src/class/DatabaseConditionModel.php:284-289 | `$comparator` carries over from a group to the elements after it, so a leaf after a group is taken as a group and the block fails | `[['%' => 'OR'], ['type' => '=', 'key' => 'a', 'value' => '1']]` | each element is a group only when its own `%` names a combinator | not executed | Conditions.CarriedComparatorFinding | Conditions.CompileByElements |
| src/class/DatabaseConditionModel.php:288 | a group sets the block's join type to `$key`, undefined or empty, so a block ending in a group fails and no block is ever joined with XOR | the structure `[['%' => 'OR']]` | each group joins its own elements with the combinator its `%` names | not executed | Conditions.GroupLastFinding | Conditions.GroupUsesItsCombinator |
| src/class/DatabaseUtils.php:206 | the replacement is the undefined `$replace`, so the needle is cut out | `replaceOnce('a', 'b', 'a')` gives `''` | the first occurrence becomes `$replacement`, giving `'b'` | not executed | DatabaseUtils.ReplaceOnceFinding | DatabaseUtils.ReplaceOnceKeepsTheRest |
| src/class/DatabaseConditionModel.php:385 | `implode` receives `$value['set']` itself, so a string set is a TypeError | a leaf with `'set' => 'a,b'` | a string set is split at commas and joined with the delimiter | not executed | Conditions.StringSetFinding | Conditions.StringSetRoundTrip |
| src/class/Schema.php:98-99 | `addTrigger` writes the undefined `$table` into the tables map | adding trigger `audit` to an empty schema | the trigger is stored in the triggers map under its name | not executed | Schemas.AddTriggerFinding | Schemas.Schema.AddTrigger |
| src/class/DatabaseModel.php:631-634 | `$typeof_in` is only set when the table does not exist | an array input for the existing table `users` gives INPUT_INVALID_TYPE | any array input for an existing or default table is inserted | not executed | DatabaseModel.InsertGuardFinding | DatabaseModel.InsertGuard |
| src/class/DatabaseModel.php:641-715 | the multi-row template has one mark per row, not per field | two rows of one field each: 5 placeholders, 3 arguments | each row's template has one mark per field of the row | not executed | DatabaseModel.MultiRowFinding | DatabaseModel.Model.Insert |
| src/class/SchemaTrigger.php:30-38 | the event guard tests the timing again | timing 1, event 9 is accepted | an event outside 1..2 is INPUT_NOT_VALID | not executed | SchemaTriggers.EventGuardFinding | SchemaTriggers.SchemaTrigger.New |
