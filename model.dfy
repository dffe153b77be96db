/**
 * DatabaseModel: the connection object behind `Database` (the file declares
 * it as `MySQLDatabase`). Modelled here: identifier quoting, the validation
 * of the constructor's arguments (name, user, password, port, default
 * table), `hasDefaultTable`, the statements and argument lists `insert`
 * builds, and the LIMIT and sort-direction handling of `select`.
 *
 * The driver is not modelled: `tableExists` is a parameter, and `insert`
 * returns the executions it would hand to the prepared statement.
 */
module DatabaseModel {
  import opened Errors
  import opened Php
  import opened Grammars
  import DatabaseUtils
  import DatabaseTools

  /** The database types, as `Database` numbers them. */
  const TYPE_MYSQL := 1
  const TYPE_PGSQL := 2
  const TYPE_SQLITE := 3

  predicate KnownType(dbType: int) {
    dbType == TYPE_MYSQL || dbType == TYPE_PGSQL || dbType == TYPE_SQLITE
  }

  /** The sort directions `select` accepts. */
  const SORT_NONE := 0
  const SORT_ASC := 1
  const SORT_DESC := 2

  /** MySQL's largest row count: the LIMIT count used when only a start is given. */
  const MAX_ROWS := "18446744073709551615"

  /* ---------------------------------------------------------------------
   * Identifier quoting
   * ------------------------------------------------------------------- */

  /** `str_replace('`', '``', $s)`. */
  function DoubleBackticks(s: string): (r: string)
    ensures |r| >= |s|
  {
    if s == [] then []
    else (if s[0] == '`' then "``" else [s[0]]) + DoubleBackticks(s[1..])
  }

  /** Reads a body with doubled backticks back; `None` when a lone backtick occurs. */
  function UndoubleBackticks(s: string): Option<string>
    decreases |s|
  {
    if s == [] then Some([])
    else if s[0] != '`' then
      match UndoubleBackticks(s[1..])
      case None => None
      case Some(t) => Some([s[0]] + t)
    else if |s| >= 2 && s[1] == '`' then
      match UndoubleBackticks(s[2..])
      case None => None
      case Some(t) => Some(['`'] + t)
    else None
  }

  /** Doubling the backticks loses nothing: the body reads back to the name. */
  lemma {:induction false} UndoubleDouble(s: string)
    ensures UndoubleBackticks(DoubleBackticks(s)) == Some(s)
  {
    if s != [] {
      UndoubleDouble(s[1..]);
      var rest := DoubleBackticks(s[1..]);
      if s[0] == '`' {
        assert DoubleBackticks(s) == "``" + rest;
        assert DoubleBackticks(s)[2..] == rest;
      } else {
        assert DoubleBackticks(s) == [s[0]] + rest;
        assert DoubleBackticks(s)[1..] == rest;
      }
      assert [s[0]] + s[1..] == s;
    }
  }

  /** The name a quoted identifier stands for. */
  function Unquote(q: string): Option<string> {
    if |q| >= 2 && q[0] == '`' && q[|q| - 1] == '`' then UndoubleBackticks(q[1..|q| - 1]) else None
  }

  /**
   * `quoteColumn($string)`: the name between backticks, each backtick in it
   * doubled, so that the quoted identifier reads back to exactly the name.
   */
  function QuoteColumn(name: Value): (r: Result<string>)
    ensures name.Null? ==> r == Err(MissingRequiredArgument)
    ensures !name.Null? && !name.Str? ==> r == Err(InputInvalidType)
    ensures name.Str? ==> r.Ok? && Unquote(r.value) == Some(name.s)
    ensures r.Ok? ==> |r.value| >= 2 && r.value[0] == '`' && r.value[|r.value| - 1] == '`'
  {
    match name
    case Null => Err(MissingRequiredArgument)
    case Str(s) =>
      var q := "`" + DoubleBackticks(s) + "`";
      UndoubleDouble(s);
      assert q[1..|q| - 1] == DoubleBackticks(s);
      Ok(q)
    case _ => Err(InputInvalidType)
  }

  /** `quoteTable($string)`: the same quoting as `quoteColumn`. */
  function QuoteTable(name: Value): (r: Result<string>)
    ensures name.Null? ==> r == Err(MissingRequiredArgument)
    ensures !name.Null? && !name.Str? ==> r == Err(InputInvalidType)
    ensures name.Str? ==> r.Ok? && Unquote(r.value) == Some(name.s)
    ensures r.Ok? ==> |r.value| >= 2 && r.value[0] == '`' && r.value[|r.value| - 1] == '`'
  {
    QuoteColumn(name)
  }

  /** Two names quote alike only when they are the same name. */
  lemma QuoteInjective(a: string, b: string)
    requires QuoteColumn(Str(a)) == QuoteColumn(Str(b))
    ensures a == b
  {
  }

  /* ---------------------------------------------------------------------
   * Constructor arguments
   * ------------------------------------------------------------------- */

  /** `is_numeric($v)` followed by `(integer)$v`; `None` when `$v` is not numeric. */
  function IntegerOf(v: Value): Option<int> {
    match v
    case Int(i) => Some(i)
    case Float(t) => (match DecimalValue(t) case Some(x) => Some(Truncate(x)) case None => None)
    case Str(s) => (match DecimalValue(s) case Some(x) => Some(Truncate(x)) case None => None)
    case _ => None
  }

  /** The port a server type listens on by default; SQLite has none. */
  function DefaultPort(dbType: int): (r: Option<int>)
    ensures r.Some? ==> 0 <= r.value <= 65535
  {
    if dbType == TYPE_MYSQL then Some(3306)
    else if dbType == TYPE_PGSQL then Some(5432)
    else None
  }

  /**
   * The constructor's port handling: a missing port takes the server's
   * default, a numeric one is converted to an integer, anything else is of
   * the wrong type, and the result must lie in 0..65535.
   */
  method CheckPort(port: Value, dbType: int) returns (r: Result<Option<int>>)
    ensures port.Null? ==> r == Ok(DefaultPort(dbType))
    ensures port.Int? ==> (r.Ok? <==> 0 <= port.i <= 65535)
    ensures port.Int? && r.Ok? ==> r.value == Some(port.i)
    ensures !port.Null? && IntegerOf(port).None? ==> r == Err(InputInvalidType)
    ensures !port.Null? && IntegerOf(port).Some? ==>
              r == if 0 <= IntegerOf(port).value <= 65535 then Ok(Some(IntegerOf(port).value)) else Err(InputNotValid)
    ensures r.Ok? && r.value.Some? ==> 0 <= r.value.value <= 65535
  {
    if port.Null? {
      var p: Option<int> := None;
      if dbType == TYPE_MYSQL {
        p := Some(3306);
      } else if dbType == TYPE_PGSQL {
        p := Some(5432);
      }
      return Ok(p);
    }
    var p: int;
    if port.Int? {
      p := port.i;
    } else {
      var n := IntegerOf(port);
      if n.None? {
        return Err(InputInvalidType);
      }
      p := n.value;
    }
    if 0 > p || p > 65535 {
      return Err(InputNotValid);
    }
    return Ok(Some(p));
  }

  /* ---------------------------------------------------------------------
   * insert
   * ------------------------------------------------------------------- */

  /** One `execute` call on the prepared statement. */
  datatype Execution = Execution(query: string, args: seq<Value>)

  /** The executions `insert` performs, in order, and the error it stops with. */
  datatype InsertOutcome = InsertOutcome(executed: seq<Execution>, failure: Option<ErrorCode>)

  /** `n` question marks. */
  function Marks(n: nat): (r: seq<string>)
    ensures |r| == n
  {
    seq(n, _ => "?")
  }

  /** The INSERT template over a list of question marks. */
  function InsertQuery(marks: seq<string>): string {
    "INSERT INTO ? (" + Implode(",", marks) + ") VALUES (" + Implode(",", marks) + ");"
  }

  /** The `$qmArray` loop: one question mark per input element. */
  method QuestionMarks(n: nat) returns (marks: seq<string>)
    ensures marks == Marks(n)
  {
    marks := [];
    var i := 0;
    while i < n
      invariant 0 <= i <= n
      invariant marks == Marks(i)
    {
      assert Marks(i) + ["?"] == Marks(i + 1);
      marks := marks + ["?"];
      i := i + 1;
    }
  }

  lemma {:induction false} ImplodeMarks(n: nat)
    ensures Placeholders(Implode(",", Marks(n))) == n
  {
    if n == 1 {
      assert Implode(",", Marks(1)) == "?";
    } else if n > 1 {
      assert Marks(n)[..n - 1] == Marks(n - 1);
      ImplodeMarks(n - 1);
      var front := Implode(",", Marks(n - 1));
      assert Implode(",", Marks(n)) == front + "," + "?";
      PlaceholdersConcat(front, ",");
      PlaceholdersConcat(front + ",", "?");
    }
  }

  /** The template over `n` marks has the table's placeholder and two per field. */
  lemma InsertQueryPlaceholders(n: nat)
    ensures Placeholders(InsertQuery(Marks(n))) == 1 + 2 * n
  {
    var m := Implode(",", Marks(n));
    ImplodeMarks(n);
    var head, mid, tail := "INSERT INTO ? (", ") VALUES (", ");";
    assert InsertQuery(Marks(n)) == head + m + mid + m + tail;
    assert "INSERT INTO "[0..] == "INSERT INTO " && " ("[0..] == " (" && mid[0..] == mid && tail[0..] == tail;
    NoPlaceholders("INSERT INTO ", 0);
    NoPlaceholders(" (", 0);
    NoPlaceholders(mid, 0);
    NoPlaceholders(tail, 0);
    assert Placeholders("?") == 1;
    PlaceholdersConcat("INSERT INTO ", "?");
    PlaceholdersConcat("INSERT INTO ?", " (");
    assert "INSERT INTO ?" + " (" == head;
    assert "INSERT INTO " + "?" == "INSERT INTO ?";
    assert Placeholders(head) == 1;
    PlaceholdersConcat(head, m);
    PlaceholdersConcat(head + m, mid);
    PlaceholdersConcat(head + m + mid, m);
    PlaceholdersConcat(head + m + mid + m, tail);
  }

  /** Every value of the row converts to a string. */
  predicate Stringable(row: seq<Entry>) {
    forall i :: 0 <= i < |row| ==> ToStr(row[i].val).Some?
  }

  /**
   * `$executionArray` for one row: the table, then each key as a string,
   * then each value as a string, both in the row's order.
   */
  predicate IsExecutionArray(table: Value, row: seq<Entry>, a: seq<Value>) {
    |a| == 1 + 2 * |row| && a[0] == table
    && (forall i :: 0 <= i < |row| ==> a[1 + i] == Str(KeyString(row[i].key)))
    && (forall i :: 0 <= i < |row| ==> ToStr(row[i].val).Some? && a[1 + |row| + i] == Str(ToStr(row[i].val).value))
  }

  /**
   * The two `foreach` loops that fill `$executionArray`; a value that has no
   * string form stops them with an engine error.
   */
  method ExecutionArray(table: Value, row: seq<Entry>) returns (r: Result<seq<Value>>)
    ensures r.Ok? <==> Stringable(row)
    ensures r.Ok? ==> IsExecutionArray(table, row, r.value)
    ensures r.Err? ==> r.error == EngineError
  {
    var a := [table];
    var i := 0;
    while i < |row|
      invariant 0 <= i <= |row|
      invariant |a| == 1 + i && a[0] == table
      invariant forall k :: 0 <= k < i ==> a[1 + k] == Str(KeyString(row[k].key))
    {
      a := a + [Str(KeyString(row[i].key))];
      i := i + 1;
    }
    i := 0;
    while i < |row|
      invariant 0 <= i <= |row|
      invariant |a| == 1 + |row| + i && a[0] == table
      invariant forall k :: 0 <= k < |row| ==> a[1 + k] == Str(KeyString(row[k].key))
      invariant forall k :: 0 <= k < i ==> ToStr(row[k].val).Some? && a[1 + |row| + k] == Str(ToStr(row[k].val).value)
    {
      var s := ToStr(row[i].val);
      if s.None? {
        return Err(EngineError);
      }
      a := a + [Str(s.value)];
      i := i + 1;
    }
    return Ok(a);
  }

  /** The fields `foreach` visits in one row of a multi-row insert; a scalar row has none. */
  function Fields(row: Value): seq<Entry> {
    if row.Arr? then row.entries else []
  }

  /** One execution for a row: its own template and its execution array. */
  predicate RowExecution(table: Value, row: seq<Entry>, e: Execution) {
    e.query == InsertQuery(Marks(|row|)) && IsExecutionArray(table, row, e.args)
  }

  /**
   * The checks before the statement is built: a table argument that is
   * given must be a string naming an existing table, and the input must be
   * an array.
   */
  function InsertGuard(input: Value, table: Value, tableExists: bool): (r: Result<()>)
    ensures r.Ok? <==> input.Arr? && (LooselyNull(table) || (table.Str? && tableExists))
    ensures !LooselyNull(table) && !table.Str? ==> r == Err(InputInvalidType)
    ensures !LooselyNull(table) && table.Str? && !tableExists ==> r == Err(InputNotValid)
    ensures (LooselyNull(table) || (table.Str? && tableExists)) && !input.Arr? ==> r == Err(InputInvalidType)
  {
    if !LooselyNull(table) && !table.Str? then Err(InputInvalidType)
    else if !LooselyNull(table) && !tableExists then Err(InputNotValid)
    else if !input.Arr? then Err(InputInvalidType)
    else Ok(())
  }

  /**
   * The same checks as written: `gettype($in)` is only taken when the table
   * does not exist, so an input for an existing table is never seen as an
   * array.
   */
  function InsertGuardAsWritten(input: Value, table: Value, tableExists: bool): Result<()> {
    if !LooselyNull(table) && !table.Str? then Err(InputInvalidType)
    else if !LooselyNull(table) && !tableExists then Err(InputNotValid)
    else
      var typeOfIn := if !tableExists then (if input.Arr? then "array" else "other") else "";
      if typeOfIn != "array" then Err(InputInvalidType)
      else Ok(())
  }

  /** As written, only an insert with no table argument and no existing table gets past the checks. */
  lemma InsertGuardAsWrittenNeedsNoTable(input: Value, table: Value, tableExists: bool)
    ensures InsertGuardAsWritten(input, table, tableExists).Ok? <==> input.Arr? && LooselyNull(table) && !tableExists
  {
  }

  /** An insert into an existing table: rejected as written, accepted as intended. */
  lemma InsertGuardFinding()
    ensures InsertGuardAsWritten(Arr([Entry(StrKey("id"), Int(1))]), Str("users"), true) == Err(InputInvalidType)
    ensures InsertGuard(Arr([Entry(StrKey("id"), Int(1))]), Str("users"), true) == Ok(())
  {
  }

  /** The template the multi-row branch uses as written: one mark per row, not per field. */
  function MultiRowQueryAsWritten(rows: seq<Entry>): string {
    InsertQuery(Marks(|rows|))
  }

  /**
   * As written, a row's execution array fits the shared template only when
   * the row has as many fields as the input has rows.
   */
  lemma MultiRowParityAsWritten(rows: seq<Entry>, k: nat)
    requires k < |rows|
    ensures Placeholders(MultiRowQueryAsWritten(rows)) == 1 + 2 * |Fields(rows[k].val)|
            <==> |Fields(rows[k].val)| == |rows|
  {
    InsertQueryPlaceholders(|rows|);
  }

  /** Two rows of one field each: five placeholders as written, three arguments per execution. */
  lemma MultiRowFinding()
    ensures var rows := [Entry(IntKey(0), Arr([Entry(StrKey("a"), Int(1))])),
                         Entry(IntKey(1), Arr([Entry(StrKey("a"), Int(2))]))];
            Placeholders(MultiRowQueryAsWritten(rows)) == 5
            && Placeholders(InsertQuery(Marks(|Fields(rows[0].val)|))) == 3
  {
    InsertQueryPlaceholders(2);
    InsertQueryPlaceholders(1);
  }

  /** The argument lists `select` ends up with for its LIMIT clause. */
  datatype Limits = Limits(start: Value, count: Value)

  /** A LIMIT argument `select` accepts: absent (loosely null) or a non-negative integer. */
  predicate LimitArgument(v: Value) {
    LooselyNull(v) || (v.Int? && v.i >= 0)
  }

  /**
   * `select`'s handling of `$start` and `$count`: each must be absent or a
   * non-negative integer; when only one of them is given, the other takes
   * its default (start 0, count MySQL's largest row count).
   */
  method SelectLimits(start: Value, count: Value) returns (r: Result<Limits>)
    ensures r.Ok? <==> LimitArgument(start) && LimitArgument(count)
    ensures !LimitArgument(start) ==> r == Err(InputInvalidType)
    ensures LimitArgument(start) && !LimitArgument(count) ==> r == Err(InputInvalidType)
    ensures r.Ok? ==> (r.value.start.Null? <==> r.value.count.Null?)
    ensures r.Ok? && LooselyNull(start) && LooselyNull(count) ==> r.value == Limits(Null, Null)
    ensures r.Ok? && !LooselyNull(start) && LooselyNull(count) ==> r.value == Limits(start, Str(MAX_ROWS))
    ensures r.Ok? && LooselyNull(start) && !LooselyNull(count) ==> r.value == Limits(Str("0"), count)
    ensures r.Ok? && !LooselyNull(start) && !LooselyNull(count) ==> r.value == Limits(start, count)
  {
    var s, c := start, count;
    if !LooselyNull(s) {
      if s.Int? {
        if s.i < 0 {
          return Err(InputInvalidType);
        }
      } else {
        return Err(InputInvalidType);
      }
    } else {
      s := Null;
    }
    if !LooselyNull(c) {
      if c.Int? {
        if c.i < 0 {
          return Err(InputInvalidType);
        }
      } else {
        return Err(InputInvalidType);
      }
    } else {
      c := Null;
    }
    if !LooselyNull(s) && LooselyNull(c) {
      c := Str(MAX_ROWS);
    } else if LooselyNull(s) && !LooselyNull(c) {
      s := Str("0");
    }
    return Ok(Limits(s, c));
  }

  /**
   * `select`'s check of `$sortDirection`: a given direction must loosely
   * equal SORT_NONE, SORT_ASC or SORT_DESC; the direction is kept as it is.
   */
  method CheckSortDirection(direction: Value) returns (r: Result<Value>)
    ensures r.Ok? ==> r.value == direction
    ensures r.Err? ==> r.error == InputNotValid
    ensures direction.Int? ==> (r.Ok? <==> SORT_NONE <= direction.i <= SORT_DESC)
    ensures direction.Null? || direction.Bool? ==> r.Ok?
    ensures direction.Str? && IsNumericString(direction.s) ==>
              (r.Ok? <==> DecimalValue(direction.s) in {Some(0.0), Some(1.0), Some(2.0)})
    ensures direction.Str? && !IsNumericString(direction.s) ==> (r.Ok? <==> direction.s == "")
    ensures direction.Arr? ==> (r.Ok? <==> direction.entries == [])
  {
    if !LooselyNull(direction) {
      if !LooseEqualsInt(direction, SORT_NONE) && !LooseEqualsInt(direction, SORT_ASC)
         && !LooseEqualsInt(direction, SORT_DESC) {
        return Err(InputNotValid);
      }
    }
    IntToStringIsNumeric(0);
    IntToStringIsNumeric(1);
    IntToStringIsNumeric(2);
    return Ok(direction);
  }

  /** The constructor's first checks pass: a string name, and a user and password that are strings if given. */
  predicate CredentialsPass(name: Value, user: Value, pass: Value) {
    name.Str? && (user.Null? || user.Str?) && (pass.Null? || pass.Str?)
  }

  /** A port that is absent (the default is taken) or numeric and within 0..65535. */
  predicate LegalPort(port: Value) {
    port.Null? || (IntegerOf(port).Some? && 0 <= IntegerOf(port).value <= 65535)
  }

  /**
   * The error of the connection constructor's first failed check, in its
   * order: name, user and password, port, table, type; none when all pass.
   */
  function NewError(dbType: int, name: Value, user: Value, pass: Value, port: Value, table: Value): (e: Option<ErrorCode>)
    ensures e.None? <==> CredentialsPass(name, user, pass) && LegalPort(port) && (table.Null? || table.Str?) && KnownType(dbType)
    ensures e.Some? ==> e.value == MissingRequiredArgument || e.value == InputInvalidType || e.value == InputNotValid
    ensures e == Some(MissingRequiredArgument) <==> name.Null?
  {
    if name.Null? then Some(MissingRequiredArgument)
    else if !name.Str? || (!user.Null? && !user.Str?) || (!pass.Null? && !pass.Str?) then Some(InputInvalidType)
    else if !port.Null? && IntegerOf(port).None? then Some(InputInvalidType)
    else if !LegalPort(port) then Some(InputNotValid)
    else if !table.Null? && !table.Str? then Some(InputInvalidType)
    else if !KnownType(dbType) then Some(InputNotValid)
    else None
  }

  /* ---------------------------------------------------------------------
   * The connection object
   * ------------------------------------------------------------------- */

  class Model {
    const dbType: int
    const name: string
    var port: Option<int>
    /** The default table, when one was given. */
    var table: Value

    /** What the constructor guarantees: a legal port and a string table, if any. */
    predicate Valid()
      reads this
    {
      (port.Some? ==> 0 <= port.value <= 65535) && (table.Null? || table.Str?)
    }

    constructor Init(dbType: int, name: string, port: Option<int>, table: Value)
      ensures this.dbType == dbType && this.name == name
      ensures this.port == port && this.table == table
    {
      this.dbType := dbType;
      this.name := name;
      this.port := port;
      this.table := table;
    }

    /**
     * The constructor's argument checks, in its order: the name is
     * required and a string, a given user or password is a string, the
     * port passes `CheckPort`, a given table is a string, and the type
     * selects a DSN.
     */
    static method New(dbType: int, name: Value, user: Value, pass: Value, port: Value, table: Value)
      returns (r: Result<Model>)
      ensures name.Null? ==> r == Err(MissingRequiredArgument)
      ensures !name.Null? && !name.Str? ==> r == Err(InputInvalidType)
      ensures name.Str? && ((!user.Null? && !user.Str?) || (!pass.Null? && !pass.Str?)) ==> r == Err(InputInvalidType)
      ensures CredentialsPass(name, user, pass) && !port.Null? && IntegerOf(port).None? ==> r == Err(InputInvalidType)
      ensures CredentialsPass(name, user, pass) && !port.Null? && IntegerOf(port).Some? && !LegalPort(port)
              ==> r == Err(InputNotValid)
      ensures CredentialsPass(name, user, pass) && LegalPort(port) && !table.Null? && !table.Str? ==> r == Err(InputInvalidType)
      ensures CredentialsPass(name, user, pass) && LegalPort(port) && (table.Null? || table.Str?) && !KnownType(dbType)
              ==> r == Err(InputNotValid)
      ensures r.Ok? <==> NewError(dbType, name, user, pass, port, table).None?
      ensures r.Err? ==> NewError(dbType, name, user, pass, port, table) == Some(r.error)
      ensures r.Ok? ==> fresh(r.value) && r.value.Valid()
      ensures r.Ok? ==> name.Str? && r.value.name == name.s && r.value.dbType == dbType && r.value.table == table
      ensures r.Ok? ==> KnownType(dbType) && (table.Null? || table.Str?)
      ensures r.Ok? && port.Null? ==> r.value.port == DefaultPort(dbType)
      ensures r.Ok? && !port.Null? ==> r.value.port == IntegerOf(port)
      ensures CredentialsPass(name, user, pass) && LegalPort(port) && (table.Null? || table.Str?) && KnownType(dbType)
              ==> r.Ok?
    {
      if name.Null? {
        return Err(MissingRequiredArgument);
      }
      if !name.Str? {
        return Err(InputInvalidType);
      }
      if !user.Null? && !user.Str? {
        return Err(InputInvalidType);
      }
      if !pass.Null? && !pass.Str? {
        return Err(InputInvalidType);
      }
      var p :- CheckPort(port, dbType);
      if !table.Null? && !table.Str? {
        return Err(InputInvalidType);
      }
      if !KnownType(dbType) {
        return Err(InputNotValid);
      }
      var m := new Model.Init(dbType, name.s, p, table);
      return Ok(m);
    }

    /** `hasDefaultTable()`: a default table is set and is not loosely null. */
    method HasDefaultTable() returns (b: bool)
      ensures b <==> !LooselyNull(table)
      ensures Valid() ==> (b <==> table.Str? && table.s != "")
    {
      b := !table.Null? && !LooselyNull(table);
    }

    /**
     * `insert($in, $table)` with the checks as intended: the executions it
     * performs on the prepared statement. A flat input is one row: a single
     * execution of the table, the keys and the values under a template with
     * one mark per field. An input of depth 2 is one row per element, each
     * executed under a template with one mark per field of that row. Every
     * execution has exactly as many arguments as its template has
     * placeholders.
     */
    method Insert(input: Value, table: Value, tableExists: bool) returns (out: InsertOutcome)
      ensures InsertGuard(input, table, tableExists).Err? ==>
                out == InsertOutcome([], Some(InsertGuard(input, table, tableExists).error))
      ensures InsertGuard(input, table, tableExists).Ok? && !KnownType(dbType) ==>
                out == InsertOutcome([], Some(CorruptedObject))
      ensures InsertGuard(input, table, tableExists).Ok? && KnownType(dbType) && DatabaseUtils.MaxDepth(input.entries) > 2 ==>
                out == InsertOutcome([], Some(InputArrayTooDeep))
      ensures forall k :: 0 <= k < |out.executed| ==> Placeholders(out.executed[k].query) == |out.executed[k].args|
      ensures InsertGuard(input, table, tableExists).Ok? && KnownType(dbType) && DatabaseUtils.MaxDepth(input.entries) == 1 ==>
                if Stringable(input.entries) then
                  |out.executed| == 1 && out.failure.None? && RowExecution(table, input.entries, out.executed[0])
                else out == InsertOutcome([], Some(EngineError))
      ensures InsertGuard(input, table, tableExists).Ok? && KnownType(dbType) && DatabaseUtils.MaxDepth(input.entries) == 2 ==>
                var rows := input.entries;
                |out.executed| <= |rows|
                && (forall k :: 0 <= k < |out.executed| ==> RowExecution(table, Fields(rows[k].val), out.executed[k]))
                && (out.failure.None? ==> |out.executed| == |rows|)
                && (out.failure.Some? ==> out.failure == Some(EngineError) && |out.executed| < |rows|
                                          && !Stringable(Fields(rows[|out.executed|].val)))
    {
      var guard := InsertGuard(input, table, tableExists);
      if guard.Err? {
        return InsertOutcome([], Some(guard.error));
      }
      var rows := input.entries;
      if !KnownType(dbType) {
        return InsertOutcome([], Some(CorruptedObject));
      }
      var marks := QuestionMarks(|rows|);
      var query := InsertQuery(marks);
      var depth := DatabaseTools.ArrayDepth(rows);
      if depth == 1 {
        var a := ExecutionArray(table, rows);
        if a.Err? {
          return InsertOutcome([], Some(a.error));
        }
        InsertQueryPlaceholders(|rows|);
        return InsertOutcome([Execution(query, a.value)], None);
      } else if depth == 2 {
        out := InsertRows(table, rows);
      } else {
        return InsertOutcome([], Some(InputArrayTooDeep));
      }
    }
  }

  /** Executions of consecutive rows each bind as many arguments as their template has placeholders. */
  lemma RowExecutionsParity(table: Value, rows: seq<Entry>, executed: seq<Execution>)
    requires |executed| <= |rows|
    requires forall j :: 0 <= j < |executed| ==> RowExecution(table, Fields(rows[j].val), executed[j])
    ensures forall j :: 0 <= j < |executed| ==> Placeholders(executed[j].query) == |executed[j].args|
  {
    forall j | 0 <= j < |executed|
      ensures Placeholders(executed[j].query) == |executed[j].args|
    {
      InsertQueryPlaceholders(|Fields(rows[j].val)|);
    }
  }

  /**
   * The multi-row branch of `insert`, as intended: each row is executed in
   * turn under a template with one mark per field of that row, stopping at
   * the first row with a value that has no string form.
   */
  method InsertRows(table: Value, rows: seq<Entry>) returns (out: InsertOutcome)
    ensures |out.executed| <= |rows|
    ensures forall k :: 0 <= k < |out.executed| ==> Placeholders(out.executed[k].query) == |out.executed[k].args|
    ensures forall k :: 0 <= k < |out.executed| ==> RowExecution(table, Fields(rows[k].val), out.executed[k])
    ensures out.failure.None? ==> |out.executed| == |rows|
    ensures out.failure.Some? ==> out.failure == Some(EngineError) && |out.executed| < |rows|
                                  && !Stringable(Fields(rows[|out.executed|].val))
  {
    var executed: seq<Execution> := [];
    var k := 0;
    while k < |rows|
      invariant 0 <= k <= |rows| && |executed| == k
      invariant forall j :: 0 <= j < k ==> RowExecution(table, Fields(rows[j].val), executed[j])
    {
      var fields := Fields(rows[k].val);
      var rowMarks := QuestionMarks(|fields|);
      var a := ExecutionArray(table, fields);
      if a.Err? {
        RowExecutionsParity(table, rows, executed);
        return InsertOutcome(executed, Some(a.error));
      }
      executed := executed + [Execution(InsertQuery(rowMarks), a.value)];
      k := k + 1;
    }
    RowExecutionsParity(table, rows, executed);
    return InsertOutcome(executed, None);
  }
}
