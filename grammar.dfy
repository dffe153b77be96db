/**
 * SQL grammar tables: the standard operator entries, the plain-text tokens
 * (joiners, encapsulation, quoting, set delimiter) and the two-tier lookup
 * that lets a DBMS-specific table override the standard one. Both
 * DatabaseGrammarModel and DatabaseConditionModel carry such a pair of
 * tables; they differ only in that the grammar model also defines the
 * identifier quotes.
 */
module Grammars {
  import opened Errors
  import opened Php

  /** A grammar entry: a plain string, or an operator template with its argument names. */
  datatype Token = Text(s: string) | Operator(stmt: string, args: seq<string>)

  /** A DBMS-specific (extended) table. */
  type Table = map<string, Token>

  /* ---------------------------------------------------------------------
   * Placeholder counting: `substr_count($s, '?')`
   * ------------------------------------------------------------------- */

  /** The number of `?` in `s` from index `i` on. */
  function CountFrom(s: string, i: nat): nat
    decreases |s| - i
  {
    if i >= |s| then 0 else (if s[i] == '?' then 1 else 0) + CountFrom(s, i + 1)
  }

  /** The number of bind placeholders in a template. */
  function Placeholders(s: string): nat {
    CountFrom(s, 0)
  }

  lemma {:induction false} CountSuffix(a: string, b: string, j: nat)
    requires j <= |b|
    ensures CountFrom(a + b, |a| + j) == CountFrom(b, j)
    decreases |b| - j
  {
    if j < |b| {
      assert (a + b)[|a| + j] == b[j];
      CountSuffix(a, b, j + 1);
    }
  }

  lemma {:induction false} CountConcat(a: string, b: string, i: nat)
    requires i <= |a|
    ensures CountFrom(a + b, i) == CountFrom(a, i) + CountFrom(b, 0)
    decreases |a| - i
  {
    if i < |a| {
      assert (a + b)[i] == a[i];
      CountConcat(a, b, i + 1);
    } else {
      CountSuffix(a, b, 0);
    }
  }

  /** Placeholders add up over concatenation. */
  lemma PlaceholdersConcat(a: string, b: string)
    ensures Placeholders(a + b) == Placeholders(a) + Placeholders(b)
  {
    CountConcat(a, b, 0);
  }

  /** A string without `?` has no placeholders, and conversely. */
  lemma {:induction false} NoPlaceholders(s: string, i: nat)
    requires i <= |s|
    ensures CountFrom(s, i) == 0 <==> '?' !in s[i..]
    decreases |s| - i
  {
    if i < |s| {
      NoPlaceholders(s, i + 1);
      assert s[i..] == [s[i]] + s[i + 1..];
    }
  }

  /* ---------------------------------------------------------------------
   * The standard tables
   * ------------------------------------------------------------------- */

  // The two longest templates, spelled as three clauses each:
  // "? BETWEEN ? AND ? AND ? != ? AND ? != ?" and
  // "? NOT BETWEEN ? AND ? OR ? = ? OR ? = ?".
  const XRangeStmt: string := "? BETWEEN ? AND ?" + " AND ? != ?" + " AND ? != ?"
  const NXRangeStmt: string := "? NOT BETWEEN ? AND ?" + " OR ? = ?" + " OR ? = ?"

  const ExclusiveRangeArgs: seq<string> := ["key", "lower", "upper", "key", "lower", "key", "upper"]

  /** The `op_*` entries, identical in both standard tables. */
  function OperatorEntry(key: string): Option<Token> {
    if key == "op_eq" then Some(Operator("? = ?", ["key", "value"]))
    else if key == "op_gt" then Some(Operator("? > ?", ["key", "value"]))
    else if key == "op_gte" then Some(Operator("? >= ?", ["key", "value"]))
    else if key == "op_in" then Some(Operator("? IN (?)", ["key", "setstring"]))
    else if key == "op_isnull" then Some(Operator("? IS NULL", ["key"]))
    else if key == "op_like" then Some(Operator("? LIKE ?", ["key", "value"]))
    else if key == "op_lt" then Some(Operator("? < ?", ["key", "value"]))
    else if key == "op_lte" then Some(Operator("? <= ?", ["key", "value"]))
    else if key == "op_nin" then Some(Operator("? NOT IN (?)", ["key", "setstring"]))
    else if key == "op_nisnull" then Some(Operator("? IS NOT NULL", ["key"]))
    else if key == "op_nlike" then Some(Operator("? NOT LIKE ?", ["key", "value"]))
    else if key == "op_not" then Some(Operator("? != ?", ["key", "value"]))
    else if key == "op_nrange" then Some(Operator("? NOT BETWEEN ? AND ?", ["key", "lower", "upper"]))
    else if key == "op_nxrange" then Some(Operator(NXRangeStmt, ExclusiveRangeArgs))
    else if key == "op_range" then Some(Operator("? BETWEEN ? AND ?", ["key", "lower", "upper"]))
    else if key == "op_xrange" then Some(Operator(XRangeStmt, ExclusiveRangeArgs))
    else None
  }

  /**
   * The two standard tables: `DatabaseConditionModel::$standardGrammarTable`
   * and `DatabaseGrammarModel::$tableStandard`.
   */
  datatype StandardTable = ConditionTable | GrammarTable

  /** The standard entry for `key`, if the table defines one. */
  function Standard(table: StandardTable, key: string): Option<Token> {
    if key == "and" then Some(Text(" AND "))
    else if key == "encapLeft" then Some(Text("("))
    else if key == "encapRight" then Some(Text(")"))
    else if key == "or" then Some(Text("OR"))
    else if key == "quoteStringLeft" then Some(Text("'"))
    else if key == "quoteStringRight" then Some(Text("'"))
    else if key == "setDelimiter" then Some(Text(","))
    else if key == "xor" then Some(Text("XOR"))
    else if table == GrammarTable && key == "quoteIdentLeft" then Some(Text("\""))
    else if table == GrammarTable && key == "quoteIdentRight" then Some(Text("\""))
    else OperatorEntry(key)
  }

  /* ---------------------------------------------------------------------
   * Lookup
   * ------------------------------------------------------------------- */

  /**
   * The two-tier lookup: the extended (DBMS) table if it defines `key`, else
   * the standard table, else nothing (`false` in the source).
   */
  function Resolve(extended: Table, table: StandardTable, key: string): (r: Option<Token>)
    ensures key in extended ==> r == Some(extended[key])
    ensures key !in extended ==> r == Standard(table, key)
  {
    if key in extended then Some(extended[key]) else Standard(table, key)
  }

  /**
   * `getToken($key)` / `getGrammar($key)`: an unset key fails with
   * MISSING_REQUIRED_ARGUMENT, a key that is not a string with
   * INPUT_INVALID_TYPE; a string key is resolved.
   */
  function Lookup(extended: Table, table: StandardTable, key: Value): (r: Result<Option<Token>>)
    ensures key.Null? <==> r == Err(MissingRequiredArgument)
    ensures !key.Null? && !key.Str? <==> r == Err(InputInvalidType)
    ensures key.Str? <==> r.Ok?
    ensures key.Str? ==> r.value == Resolve(extended, table, key.s)
  {
    match key
    case Null => Err(MissingRequiredArgument)
    case Str(k) => Ok(Resolve(extended, table, k))
    case _ => Err(InputInvalidType)
  }

  /** `DatabaseGrammarModel::getToken($key)` for a grammar whose extended table is `extended`. */
  function GetToken(extended: Table, key: Value): (r: Result<Option<Token>>)
    ensures key.Str? && key.s in extended ==> r == Ok(Some(extended[key.s]))
    ensures key.Str? && key.s !in extended ==> r == Ok(Standard(GrammarTable, key.s))
    ensures key.Null? ==> r == Err(MissingRequiredArgument)
    ensures !key.Null? && !key.Str? ==> r == Err(InputInvalidType)
  {
    Lookup(extended, GrammarTable, key)
  }

  /* ---------------------------------------------------------------------
   * Well-formedness of operator entries
   * ------------------------------------------------------------------- */

  /** An operator template has one placeholder per argument, and its first argument is the column key. */
  predicate WellFormedToken(t: Token) {
    t.Operator? ==> Placeholders(t.stmt) == |t.args| && |t.args| > 0 && t.args[0] == "key"
  }

  predicate WellFormed(table: Table) {
    forall k :: k in table ==> WellFormedToken(table[k])
  }

  lemma RangePlaceholders()
    ensures Placeholders("? BETWEEN ? AND ?") == 3
  {
    assert CountFrom("? BETWEEN ? AND ?", 12) == 1;
    assert CountFrom("? BETWEEN ? AND ?", 8) == 2;
    assert CountFrom("? BETWEEN ? AND ?", 4) == 2;
  }

  lemma NRangePlaceholders()
    ensures Placeholders("? NOT BETWEEN ? AND ?") == 3
  {
    assert CountFrom("? NOT BETWEEN ? AND ?", 16) == 1;
    assert CountFrom("? NOT BETWEEN ? AND ?", 12) == 2;
    assert CountFrom("? NOT BETWEEN ? AND ?", 8) == 2;
    assert CountFrom("? NOT BETWEEN ? AND ?", 4) == 2;
  }

  lemma XRangePlaceholders()
    ensures Placeholders(XRangeStmt) == 7
  {
    RangePlaceholders();
    assert Placeholders(" AND ? != ?") == 2;
    PlaceholdersConcat("? BETWEEN ? AND ?", " AND ? != ?");
    PlaceholdersConcat("? BETWEEN ? AND ?" + " AND ? != ?", " AND ? != ?");
  }

  lemma NXRangePlaceholders()
    ensures Placeholders(NXRangeStmt) == 7
  {
    NRangePlaceholders();
    assert Placeholders(" OR ? = ?") == 2;
    PlaceholdersConcat("? NOT BETWEEN ? AND ?", " OR ? = ?");
    PlaceholdersConcat("? NOT BETWEEN ? AND ?" + " OR ? = ?", " OR ? = ?");
  }

  lemma ShortPlaceholders()
    ensures Placeholders("? = ?") == 2 && Placeholders("? > ?") == 2
    ensures Placeholders("? >= ?") == 2 && Placeholders("? IN (?)") == 2
    ensures Placeholders("? IS NULL") == 1 && Placeholders("? LIKE ?") == 2
    ensures Placeholders("? < ?") == 2 && Placeholders("? <= ?") == 2
    ensures Placeholders("? != ?") == 2
  {
  }

  lemma LongPlaceholders()
    ensures Placeholders("? NOT IN (?)") == 2
    ensures Placeholders("? IS NOT NULL") == 1
    ensures Placeholders("? NOT LIKE ?") == 2
  {
    assert CountFrom("? NOT IN (?)", 4) == 1;
    assert CountFrom("? IS NOT NULL", 4) == 0;
    assert CountFrom("? NOT LIKE ?", 4) == 1;
  }

  /** Every `op_*` entry has as many `?` as arguments, the first being `key`. */
  lemma {:induction false} OperatorEntryWellFormed(key: string)
    requires OperatorEntry(key).Some?
    ensures WellFormedToken(OperatorEntry(key).value)
  {
    ShortPlaceholders();
    LongPlaceholders();
    if key == "op_nrange" {
      NRangePlaceholders();
    } else if key == "op_nxrange" {
      NXRangePlaceholders();
    } else if key == "op_range" {
      RangePlaceholders();
    } else if key == "op_xrange" {
      XRangePlaceholders();
    }
  }

  /** Every entry of both standard tables is well formed. */
  lemma {:induction false} StandardWellFormed(table: StandardTable, key: string)
    ensures Standard(table, key).Some? ==> WellFormedToken(Standard(table, key).value)
  {
    if OperatorEntry(key).Some? {
      OperatorEntryWellFormed(key);
    }
  }

  /** Whatever a lookup over a well-formed extended table finds is well formed. */
  lemma {:induction false} ResolveWellFormed(extended: Table, table: StandardTable, key: string)
    requires WellFormed(extended)
    ensures Resolve(extended, table, key).Some? ==> WellFormedToken(Resolve(extended, table, key).value)
  {
    if key !in extended {
      StandardWellFormed(table, key);
    }
  }

  /** Both standard tables agree on every key but the identifier quotes. */
  lemma StandardTablesAgree(key: string)
    requires key != "quoteIdentLeft" && key != "quoteIdentRight"
    ensures Standard(ConditionTable, key) == Standard(GrammarTable, key)
  {
  }

  /** The exclusive ranges take seven arguments, repeating the key and both bounds. */
  lemma ExclusiveRangeOperators(table: StandardTable)
    ensures Standard(table, "op_xrange") == Some(Operator(XRangeStmt, ExclusiveRangeArgs))
    ensures Standard(table, "op_nxrange") == Some(Operator(NXRangeStmt, ExclusiveRangeArgs))
    ensures |ExclusiveRangeArgs| == 7 && Placeholders(XRangeStmt) == 7 && Placeholders(NXRangeStmt) == 7
  {
    XRangePlaceholders();
    NXRangePlaceholders();
  }

  /** The joiner, encapsulation and delimiter tokens. */
  lemma JoinerTokens(table: StandardTable)
    ensures Standard(table, "and") == Some(Text(" AND "))
    ensures Standard(table, "or") == Some(Text("OR"))
    ensures Standard(table, "xor") == Some(Text("XOR"))
    ensures Standard(table, "encapLeft") == Some(Text("("))
    ensures Standard(table, "encapRight") == Some(Text(")"))
    ensures Standard(table, "setDelimiter") == Some(Text(","))
  {
  }

  /** Only the grammar model's table quotes identifiers, with a double quote. */
  lemma IdentifierQuotes()
    ensures Standard(GrammarTable, "quoteIdentLeft") == Some(Text("\""))
    ensures Standard(GrammarTable, "quoteIdentRight") == Some(Text("\""))
    ensures Standard(ConditionTable, "quoteIdentLeft") == None
    ensures Standard(ConditionTable, "quoteIdentRight") == None
  {
  }
}
