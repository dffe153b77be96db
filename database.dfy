/**
 * Database: the public facade. Its constructor normalises the database type
 * (an integer code, or a name in any letter case), builds the connection
 * object for that type and keeps the arguments; `hasDefaultTable` asks both
 * itself and the connection object.
 */
module Databases {
  import opened Errors
  import opened Php
  import DatabaseModel

  /** The type names the constructor recognises, by their codes. */
  function TypeName(code: int): string {
    if code == DatabaseModel.TYPE_MYSQL then "mysql"
    else if code == DatabaseModel.TYPE_PGSQL then "pgsql"
    else "sqlite"
  }

  /**
   * The constructor's handling of `$type`: a missing type is an error, an
   * integer must be one of the three codes, a string must name one of the
   * three types in any letter case, and nothing else is accepted.
   */
  function NormaliseType(t: Value): (r: Result<int>)
    ensures t.Null? ==> r == Err(MissingRequiredArgument)
    ensures t.Int? ==> r == if DatabaseModel.KnownType(t.i) then Ok(t.i) else Err(InvalidDatabaseType)
    ensures t.Str? ==> r == if Lower(t.s) == "mysql" then Ok(DatabaseModel.TYPE_MYSQL)
                           else if Lower(t.s) == "pgsql" then Ok(DatabaseModel.TYPE_PGSQL)
                           else if Lower(t.s) == "sqlite" then Ok(DatabaseModel.TYPE_SQLITE)
                           else Err(InvalidDatabaseType)
    ensures !t.Null? && !t.Int? && !t.Str? ==> r == Err(InputInvalidType)
    ensures r.Ok? ==> DatabaseModel.KnownType(r.value)
  {
    match t
    case Null => Err(MissingRequiredArgument)
    case Int(i) =>
      if i == DatabaseModel.TYPE_MYSQL || i == DatabaseModel.TYPE_PGSQL || i == DatabaseModel.TYPE_SQLITE then Ok(i)
      else Err(InvalidDatabaseType)
    case Str(s) =>
      var lower := Lower(s);
      if lower == "mysql" then Ok(DatabaseModel.TYPE_MYSQL)
      else if lower == "pgsql" then Ok(DatabaseModel.TYPE_PGSQL)
      else if lower == "sqlite" then Ok(DatabaseModel.TYPE_SQLITE)
      else Err(InvalidDatabaseType)
    case _ => Err(InputInvalidType)
  }

  /** `strtoupper`: lower-case ASCII letters to upper case, and nothing else changes. */
  function Upper(s: string): (r: string)
    ensures |r| == |s|
  {
    if s == [] then []
    else
      var c := s[0];
      [if 'a' <= c <= 'z' then ((c as int) - 32) as char else c] + Upper(s[1..])
  }

  /** Lowering an upper-cased lower-case name gives the name back. */
  lemma {:induction false} LowerUpper(s: string)
    requires forall i :: 0 <= i < |s| ==> 'a' <= s[i] <= 'z'
    ensures Lower(Upper(s)) == s
  {
    if s != [] {
      LowerUpper(s[1..]);
      assert Upper(s) == [((s[0] as int) - 32) as char] + Upper(s[1..]);
      assert Upper(s)[1..] == Upper(s[1..]);
      assert [s[0]] + s[1..] == s;
    }
  }

  /** A name in lower case is its own lower-case form. */
  lemma {:induction false} LowerOfLower(s: string)
    requires forall i :: 0 <= i < |s| ==> 'a' <= s[i] <= 'z'
    ensures Lower(s) == s
  {
    if s != [] {
      LowerOfLower(s[1..]);
      assert [s[0]] + s[1..] == s;
    }
  }

  /** The type names are written in lower-case letters only. */
  lemma TypeNameLetters(code: int)
    ensures forall i :: 0 <= i < |TypeName(code)| ==> 'a' <= TypeName(code)[i] <= 'z'
  {
  }

  /**
   * Each code is accepted as itself, as its name and as its name in
   * capitals.
   */
  lemma TypeNames(code: int)
    requires DatabaseModel.KnownType(code)
    ensures NormaliseType(Int(code)) == Ok(code)
    ensures NormaliseType(Str(TypeName(code))) == Ok(code)
    ensures NormaliseType(Str(Upper(TypeName(code)))) == Ok(code)
  {
    var n := TypeName(code);
    TypeNameLetters(code);
    LowerOfLower(n);
    LowerUpper(n);
  }

  /** A normalised type is a fixed point of the normalisation. */
  lemma NormaliseIdempotent(t: Value)
    requires NormaliseType(t).Ok?
    ensures NormaliseType(Int(NormaliseType(t).value)) == NormaliseType(t)
  {
  }

  class Database {
    /** The normalised type code. */
    const dbType: int
    /** The connection object built for that type. */
    const child: DatabaseModel.Model
    var table: Value

    /** The facade and its connection object share the default table. */
    predicate Valid()
      reads this, child
    {
      DatabaseModel.KnownType(dbType) && child.dbType == dbType && child.table == table && child.Valid()
    }

    constructor Init(dbType: int, child: DatabaseModel.Model, table: Value)
      ensures this.dbType == dbType && this.child == child && this.table == table
    {
      this.dbType := dbType;
      this.child := child;
      this.table := table;
    }

    /**
     * `new Database(...)`: the type is normalised first, then the
     * connection object is built from the other arguments; the first error
     * is the constructor's error, and the type field holds the code.
     */
    static method New(t: Value, name: Value, user: Value, pass: Value, port: Value, table: Value)
      returns (r: Result<Database>)
      ensures NormaliseType(t).Err? ==> r == Err(NormaliseType(t).error)
      ensures r.Ok? ==> NormaliseType(t).Ok? && r.value.dbType == NormaliseType(t).value
      ensures r.Ok? ==> fresh(r.value) && fresh(r.value.child) && r.value.Valid() && r.value.table == table
      ensures NormaliseType(t).Ok? ==>
                (r.Ok? <==> DatabaseModel.NewError(NormaliseType(t).value, name, user, pass, port, table).None?)
      ensures NormaliseType(t).Ok? && r.Err? ==>
                DatabaseModel.NewError(NormaliseType(t).value, name, user, pass, port, table) == Some(r.error)
      ensures r.Ok? ==> name.Str? && r.value.child.name == name.s
      ensures r.Ok? && port.Null? ==> r.value.child.port == DatabaseModel.DefaultPort(r.value.dbType)
      ensures r.Ok? && !port.Null? ==> r.value.child.port == DatabaseModel.IntegerOf(port)
    {
      var code :- NormaliseType(t);
      var child :- DatabaseModel.Model.New(code, name, user, pass, port, table);
      var db := new Database.Init(code, child, table);
      return Ok(db);
    }

    /** `hasDefaultTable()`: both the facade and its connection object have a default table. */
    method HasDefaultTable() returns (b: bool)
      ensures b <==> !LooselyNull(table) && !LooselyNull(child.table)
      ensures Valid() ==> (b <==> table.Str? && table.s != "")
    {
      var childHas := child.HasDefaultTable();
      b := !table.Null? && !LooselyNull(table) && childHas;
    }

    /** `getType()`. */
    method GetType() returns (code: int)
      ensures code == dbType
      ensures Valid() ==> DatabaseModel.KnownType(code)
    {
      return dbType;
    }
  }
}
