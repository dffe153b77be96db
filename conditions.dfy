/**
 * The condition compiler of DatabaseConditionModel: a nested condition
 * array becomes a statement fragment, a template with `?` placeholders and
 * the ordered values to bind to them.
 *
 * A block is an array whose elements are leaf conditions (arrays with a
 * `type`, a `key` and the fields the type needs), groups (arrays whose `%`
 * entry names a combinator) or strings; the string `*` is a wildcard that
 * ends the block with an empty statement. A block's pieces are joined with
 * " AND " unless it is a group whose combinator says otherwise; a group is
 * wrapped in parentheses.
 */
module Conditions {
  import opened Errors
  import opened Php
  import opened Grammars

  datatype Joiner = And | Or | Xor

  /** The separators the compiler joins pieces with (hard-coded, not the grammar's). */
  function JoinText(j: Joiner): string {
    match j
    case And => " AND "
    case Or => " OR "
    case Xor => " XOR "
  }

  /** A compiled fragment: `['stmt' => ..., 'args' => [...]]`. */
  datatype Fragment = Fragment(stmt: string, args: seq<Value>)

  function Encap(s: string, encap: bool): string {
    if encap then "(" + s + ")" else s
  }

  /** `getGrammar($key)` of a condition model whose DBMS table is `dbms`. */
  function GetGrammar(dbms: Table, key: Value): (r: Result<Option<Token>>)
    ensures key.Str? && key.s in dbms ==> r == Ok(Some(dbms[key.s]))
    ensures key.Str? && key.s !in dbms ==> r == Ok(Standard(ConditionTable, key.s))
    ensures key.Null? ==> r == Err(MissingRequiredArgument)
    ensures !key.Null? && !key.Str? ==> r == Err(InputInvalidType)
  {
    Lookup(dbms, ConditionTable, key)
  }

  /* ---------------------------------------------------------------------
   * Leaf conditions
   * ------------------------------------------------------------------- */

  /** The types that need a `value`, a `lower` and `upper`, and a `set`. */
  const ValueTypes: seq<string> :=
    ["=", "EQ", "!", "NOT", ":", "IS", "!:", "NIS", "<", "LT", "<=", "LTE", ">", "GT", ">=", "GTE", "~", "LIKE", "!~", "NLIKE"]
  const RangeTypes: seq<string> := ["<>", "RANGE", "!<>", "NRANGE", "<x>", "XRANGE", "!<x>", "NXRANGE"]
  const SetTypes: seq<string> := ["[]", "IN", "![]", "NIN"]

  /** The sixteen operators a leaf can select. */
  datatype Op = Eq | Not | Lt | Lte | Gt | Gte | Range | XRange | NRange | NXRange | In | NIn | Like | NLike | IsNull | NIsNull

  /** The grammar entry of each operator. */
  function EntryKey(op: Op): string {
    match op
    case Eq => "op_eq"
    case Not => "op_not"
    case Lt => "op_lt"
    case Lte => "op_lte"
    case Gt => "op_gt"
    case Gte => "op_gte"
    case Range => "op_range"
    case XRange => "op_xrange"
    case NRange => "op_nrange"
    case NXRange => "op_nxrange"
    case In => "op_in"
    case NIn => "op_nin"
    case Like => "op_like"
    case NLike => "op_nlike"
    case IsNull => "op_isnull"
    case NIsNull => "op_nisnull"
  }

  /** The symbol and the name a leaf's `type` may give for each operator. */
  function Symbol(op: Op): string {
    match op
    case Eq => "="
    case Not => "!"
    case Lt => "<"
    case Lte => "<="
    case Gt => ">"
    case Gte => ">="
    case Range => "<>"
    case XRange => "<x>"
    case NRange => "!<>"
    case NXRange => "!<x>"
    case In => "[]"
    case NIn => "![]"
    case Like => "~"
    case NLike => "!~"
    case IsNull => ":0"
    case NIsNull => "!:0"
  }

  function Name(op: Op): string {
    match op
    case Eq => "EQ"
    case Not => "NOT"
    case Lt => "LT"
    case Lte => "LTE"
    case Gt => "GT"
    case Gte => "GTE"
    case Range => "RANGE"
    case XRange => "XRANGE"
    case NRange => "NRANGE"
    case NXRange => "NXRANGE"
    case In => "IN"
    case NIn => "NIN"
    case Like => "LIKE"
    case NLike => "NLIKE"
    case IsNull => "ISNULL"
    case NIsNull => "NISNULL"
  }

  /** `$type == symbol || $type == name` for the operator's symbol and name. */
  predicate Matches(t: Value, op: Op) {
    EqualsWord(t, Symbol(op)) || EqualsWord(t, Name(op))
  }

  /** The operator a leaf's `type` selects, tested in order with loose `==`. */
  function OperatorOf(t: Value): (r: Option<Op>)
    ensures r.Some? ==> Matches(t, r.value)
  {
    if Matches(t, Eq) then Some(Eq)
    else if Matches(t, Not) then Some(Not)
    else if Matches(t, Lt) then Some(Lt)
    else if Matches(t, Lte) then Some(Lte)
    else if Matches(t, Gt) then Some(Gt)
    else if Matches(t, Gte) then Some(Gte)
    else if Matches(t, Range) then Some(Range)
    else if Matches(t, XRange) then Some(XRange)
    else if Matches(t, NRange) then Some(NRange)
    else if Matches(t, NXRange) then Some(NXRange)
    else if Matches(t, In) then Some(In)
    else if Matches(t, NIn) then Some(NIn)
    else if Matches(t, Like) then Some(Like)
    else if Matches(t, NLike) then Some(NLike)
    else if Matches(t, IsNull) then Some(IsNull)
    else if Matches(t, NIsNull) then Some(NIsNull)
    else None
  }

  /** When no operator is selected, the type matched none of the tests. */
  lemma NoneMatchesNothing(t: Value)
    ensures OperatorOf(t).None? ==>
              !Matches(t, Eq) && !Matches(t, Not) && !Matches(t, Lt) && !Matches(t, Lte)
              && !Matches(t, Gt) && !Matches(t, Gte) && !Matches(t, Range) && !Matches(t, XRange)
              && !Matches(t, NRange) && !Matches(t, NXRange) && !Matches(t, In) && !Matches(t, NIn)
              && !Matches(t, Like) && !Matches(t, NLike) && !Matches(t, IsNull) && !Matches(t, NIsNull)
  {
  }

  /** A type that matches an operator selects one. */
  lemma MatchIsFound(t: Value, op: Op)
    requires Matches(t, op)
    ensures OperatorOf(t).Some?
  {
    NoneMatchesNothing(t);
    match op
    case Eq =>
    case Not =>
    case Lt =>
    case Lte =>
    case Gt =>
    case Gte =>
    case Range =>
    case XRange =>
    case NRange =>
    case NXRange =>
    case In =>
    case NIn =>
    case Like =>
    case NLike =>
    case IsNull =>
    case NIsNull =>
  }

  /** The operator a word is the symbol or the name of. */
  function OperatorOfWord(w: string): Option<Op> {
    if w == Symbol(Eq) || w == Name(Eq) then Some(Eq)
    else if w == Symbol(Not) || w == Name(Not) then Some(Not)
    else if w == Symbol(Lt) || w == Name(Lt) then Some(Lt)
    else if w == Symbol(Lte) || w == Name(Lte) then Some(Lte)
    else if w == Symbol(Gt) || w == Name(Gt) then Some(Gt)
    else if w == Symbol(Gte) || w == Name(Gte) then Some(Gte)
    else if w == Symbol(Range) || w == Name(Range) then Some(Range)
    else if w == Symbol(XRange) || w == Name(XRange) then Some(XRange)
    else if w == Symbol(NRange) || w == Name(NRange) then Some(NRange)
    else if w == Symbol(NXRange) || w == Name(NXRange) then Some(NXRange)
    else if w == Symbol(In) || w == Name(In) then Some(In)
    else if w == Symbol(NIn) || w == Name(NIn) then Some(NIn)
    else if w == Symbol(Like) || w == Name(Like) then Some(Like)
    else if w == Symbol(NLike) || w == Name(NLike) then Some(NLike)
    else if w == Symbol(IsNull) || w == Name(IsNull) then Some(IsNull)
    else if w == Symbol(NIsNull) || w == Name(NIsNull) then Some(NIsNull)
    else None
  }

  /** The equality operators: each word of theirs is looked up as its own operator. */
  lemma EqualityWords()
    ensures OperatorOfWord(Symbol(Eq)) == Some(Eq) && OperatorOfWord(Name(Eq)) == Some(Eq)
    ensures OperatorOfWord(Symbol(Not)) == Some(Not) && OperatorOfWord(Name(Not)) == Some(Not)
    ensures OperatorOfWord(Symbol(Lt)) == Some(Lt) && OperatorOfWord(Name(Lt)) == Some(Lt)
    ensures OperatorOfWord(Symbol(Lte)) == Some(Lte) && OperatorOfWord(Name(Lte)) == Some(Lte)
  {
  }

  /** The ordering operators and RANGE: each word of theirs is looked up as its own operator. */
  lemma ComparisonWords()
    ensures OperatorOfWord(Symbol(Gt)) == Some(Gt) && OperatorOfWord(Name(Gt)) == Some(Gt)
    ensures OperatorOfWord(Symbol(Gte)) == Some(Gte) && OperatorOfWord(Name(Gte)) == Some(Gte)
    ensures OperatorOfWord(Symbol(Range)) == Some(Range) && OperatorOfWord(Name(Range)) == Some(Range)
  {
  }

  /** The exclusive range operator: each word of its is looked up as its own operator. */
  lemma ExclusiveRangeWords()
    ensures OperatorOfWord(Symbol(XRange)) == Some(XRange) && OperatorOfWord(Name(XRange)) == Some(XRange)
  {
  }

  /** The negated range operators: each word of theirs is looked up as its own operator. */
  lemma NegatedRangeWords()
    ensures OperatorOfWord(Symbol(NRange)) == Some(NRange) && OperatorOfWord(Name(NRange)) == Some(NRange)
    ensures OperatorOfWord(Symbol(NXRange)) == Some(NXRange) && OperatorOfWord(Name(NXRange)) == Some(NXRange)
  {
  }

  /** The IN operator: each word of its is looked up as its own operator. */
  lemma InOperatorWords()
    ensures OperatorOfWord(Symbol(In)) == Some(In) && OperatorOfWord(Name(In)) == Some(In)
  {
  }

  /** The NOT IN operator: each word of its is looked up as its own operator. */
  lemma NotInOperatorWords()
    ensures OperatorOfWord(Symbol(NIn)) == Some(NIn) && OperatorOfWord(Name(NIn)) == Some(NIn)
  {
  }

  /** The LIKE operator: each word of its is looked up as its own operator. */
  lemma LikeWords()
    ensures OperatorOfWord(Symbol(Like)) == Some(Like) && OperatorOfWord(Name(Like)) == Some(Like)
  {
  }

  /** The NOT LIKE operator: each word of its is looked up as its own operator. */
  lemma NotLikeWords()
    ensures OperatorOfWord(Symbol(NLike)) == Some(NLike) && OperatorOfWord(Name(NLike)) == Some(NLike)
  {
  }

  /** The null test: each word of its is looked up as its own operator. */
  lemma NullWords()
    ensures OperatorOfWord(Symbol(IsNull)) == Some(IsNull) && OperatorOfWord(Name(IsNull)) == Some(IsNull)
  {
  }

  /** The not-null test: each word of its is looked up as its own operator. */
  lemma NotNullWords()
    ensures OperatorOfWord(Symbol(NIsNull)) == Some(NIsNull) && OperatorOfWord(Name(NIsNull)) == Some(NIsNull)
  {
  }

  /** Each symbol and each name belongs to its own operator only. */
  lemma WordsIdentifyOperators(op: Op)
    ensures OperatorOfWord(Symbol(op)) == Some(op) && OperatorOfWord(Name(op)) == Some(op)
  {
    match op
    case Eq => EqualityWords();
    case Not => EqualityWords();
    case Lt => EqualityWords();
    case Lte => EqualityWords();
    case Gt => ComparisonWords();
    case Gte => ComparisonWords();
    case Range => ComparisonWords();
    case XRange => ExclusiveRangeWords();
    case NRange => NegatedRangeWords();
    case NXRange => NegatedRangeWords();
    case In => InOperatorWords();
    case NIn => NotInOperatorWords();
    case Like => LikeWords();
    case NLike => NotLikeWords();
    case IsNull => NullWords();
    case NIsNull => NotNullWords();
  }

  /** The symbols and names are distinct words, so a type other than `true` matches one operator at most. */
  lemma MatchIsUnique(t: Value)
    requires t != Bool(true) && OperatorOf(t).Some?
    ensures forall op :: Matches(t, op) ==> op == OperatorOf(t).value
  {
    var found := OperatorOf(t).value;
    WordsIdentifyOperators(found);
    forall op | Matches(t, op)
      ensures op == found
    {
      WordsIdentifyOperators(op);
    }
  }

  /**
   * The dispatch finds an operator exactly when the type matches one. A type
   * other than `true` matches at most one operator, so the dispatch order
   * only matters for `true`, which matches every operator and selects EQ.
   */
  lemma OperatorOfFirstMatch(t: Value)
    ensures OperatorOf(t).None? <==> forall op :: !Matches(t, op)
    ensures t == Bool(true) ==> OperatorOf(t) == Some(Eq) && forall op :: Matches(t, op)
    ensures t != Bool(true) && OperatorOf(t).Some? ==> forall op :: Matches(t, op) ==> op == OperatorOf(t).value
  {
    forall op | Matches(t, op)
      ensures OperatorOf(t).Some?
    {
      MatchIsFound(t, op);
    }
    if t != Bool(true) && OperatorOf(t).Some? {
      MatchIsUnique(t);
    }
  }

  lemma OperatorDefined(op: Op, table: StandardTable)
    ensures Standard(table, EntryKey(op)).Some?
    ensures Standard(table, EntryKey(op)).value.Operator?
  {
  }

  /** The set's elements as strings: an array's values, or a string split at commas. */
  function SetElements(v: Value): Result<seq<string>>
    requires v.Arr? || v.Str?
  {
    match v
    case Str(s) => Ok(Explode(',', s))
    case Arr(es) => ElementStrings(Values(es))
  }

  /** `(string)` of each value; an object that cannot be converted is an engine error. */
  function ElementStrings(vs: seq<Value>): (r: Result<seq<string>>)
    ensures r.Ok? ==> |r.value| == |vs|
    ensures r.Ok? ==> forall i :: 0 <= i < |vs| ==> ToStr(vs[i]) == Some(r.value[i])
    ensures r.Err? <==> exists i :: 0 <= i < |vs| && ToStr(vs[i]).None?
  {
    if vs == [] then Ok([])
    else match ToStr(vs[0])
      case None => Err(EngineError)
      case Some(s) =>
        match ElementStrings(vs[1..])
        case Err(e) => Err(e)
        case Ok(rest) =>
          assert forall i :: 1 <= i < |vs| ==> vs[i] == vs[1..][i - 1];
          Ok([s] + rest)
  }

  /**
   * The delimiter `implode` receives: a text token is the delimiter itself; an
   * operator token is an array, which `implode` refuses.
   */
  function Delimiter(dbms: Table): Result<string> {
    match Resolve(dbms, ConditionTable, "setDelimiter")
    case Some(Text(d)) => Ok(d)
    case Some(Operator(_, _)) => Err(EngineError)
    case None => Ok("")
  }

  /** The leaf with its `setstring` field added, when it has a set. */
  function WithSetString(dbms: Table, leaf: seq<Entry>): Result<seq<Entry>>
    requires IsSet(leaf, StrKey("set")) ==> Get(leaf, StrKey("set")).Arr? || Get(leaf, StrKey("set")).Str?
  {
    if !IsSet(leaf, StrKey("set")) then Ok(leaf)
    else
      var d :- Delimiter(dbms);
      var elements :- SetElements(Get(leaf, StrKey("set")));
      Ok(Put(leaf, StrKey("setstring"), Str(Implode(d, elements))))
  }

  /**
   * The leaf's values for the argument names, in order; a name whose field is
   * not set fails with MISSING_REQUIRED_ARGUMENT.
   */
  function LeafArgs(leaf: seq<Entry>, names: seq<string>): (r: Result<seq<Value>>)
    ensures r.Ok? <==> forall i :: 0 <= i < |names| ==> IsSet(leaf, KeyOf(names[i]))
    ensures r.Err? ==> r.error == MissingRequiredArgument
    ensures r.Ok? ==> |r.value| == |names|
    ensures r.Ok? ==> forall i :: 0 <= i < |names| ==> r.value[i] == Get(leaf, KeyOf(names[i]))
  {
    if names == [] then Ok([])
    else
      match LeafArgs(leaf, names[..|names| - 1])
      case Err(e) => Err(e)
      case Ok(front) =>
        var k := KeyOf(names[|names| - 1]);
        if !IsSet(leaf, k) then Err(MissingRequiredArgument) else Ok(front + [Get(leaf, k)])
  }

  /** A field that is given but has no string form. */
  predicate Unconvertible(v: Value) {
    v != Null && ToStr(v).None?
  }

  /** A field the leaf's type needs that is missing. */
  predicate Missing(leaf: seq<Entry>, field: string, types: seq<string>) {
    Get(leaf, StrKey(field)) == Null && InWords(Get(leaf, StrKey("type")), types)
  }

  /** The stages of the leaf checks: the value's type and the key. */
  predicate KeyPasses(leaf: seq<Entry>) {
    var value := Get(leaf, StrKey("value"));
    (value == Null || IsScalar(value)) && IsSet(leaf, StrKey("key")) && ToStr(Get(leaf, StrKey("key"))).Some?
  }

  /** ... then the value the type needs ... */
  predicate ValuePasses(leaf: seq<Entry>) {
    KeyPasses(leaf) && !Missing(leaf, "value", ValueTypes)
  }

  /** ... then the lower bound ... */
  predicate LowerPasses(leaf: seq<Entry>) {
    ValuePasses(leaf) && !Unconvertible(Get(leaf, StrKey("lower"))) && !Missing(leaf, "lower", RangeTypes)
  }

  /** ... then the upper bound ... */
  predicate UpperPasses(leaf: seq<Entry>) {
    LowerPasses(leaf) && !Unconvertible(Get(leaf, StrKey("upper"))) && !Missing(leaf, "upper", RangeTypes)
  }

  /** ... and last the set. */
  predicate SetPasses(leaf: seq<Entry>) {
    var members := Get(leaf, StrKey("set"));
    UpperPasses(leaf) && (members == Null || members.Arr? || members.Str?) && !Missing(leaf, "set", SetTypes)
  }

  /**
   * The checks a leaf passes before its type is dispatched, in the order
   * they are made; the first that fails decides the error.
   */
  function CheckLeaf(leaf: seq<Entry>): (r: Result<()>)
    ensures r.Ok? <==> SetPasses(leaf)
    ensures var value := Get(leaf, StrKey("value"));
            value != Null && !IsScalar(value) ==> r == Err(InputInvalidType)
    ensures var value := Get(leaf, StrKey("value"));
            (value == Null || IsScalar(value)) && !IsSet(leaf, StrKey("key")) ==> r == Err(InputNotValid)
    ensures var value := Get(leaf, StrKey("value"));
            (value == Null || IsScalar(value)) && Unconvertible(Get(leaf, StrKey("key"))) ==> r == Err(EngineError)
    ensures KeyPasses(leaf) && Missing(leaf, "value", ValueTypes) ==> r == Err(InputNotValid)
    ensures ValuePasses(leaf) && Unconvertible(Get(leaf, StrKey("lower"))) ==> r == Err(EngineError)
    ensures ValuePasses(leaf) && Missing(leaf, "lower", RangeTypes) ==> r == Err(InputNotValid)
    ensures LowerPasses(leaf) && Unconvertible(Get(leaf, StrKey("upper"))) ==> r == Err(EngineError)
    ensures LowerPasses(leaf) && Missing(leaf, "upper", RangeTypes) ==> r == Err(InputNotValid)
    ensures var members := Get(leaf, StrKey("set"));
            UpperPasses(leaf) && members != Null && !members.Arr? && !members.Str? ==> r == Err(InputInvalidType)
    ensures UpperPasses(leaf) && Missing(leaf, "set", SetTypes) ==> r == Err(InputNotValid)
    ensures r.Ok? ==> IsSet(leaf, StrKey("key"))
    ensures r.Ok? ==> IsSet(leaf, StrKey("set")) ==> Get(leaf, StrKey("set")).Arr? || Get(leaf, StrKey("set")).Str?
  {
    var t := Get(leaf, StrKey("type"));
    var value, lower, upper, members :=
      Get(leaf, StrKey("value")), Get(leaf, StrKey("lower")), Get(leaf, StrKey("upper")), Get(leaf, StrKey("set"));
    if value != Null && !IsScalar(value) then Err(InputInvalidType)
    else if !IsSet(leaf, StrKey("key")) then Err(InputNotValid)
    else if ToStr(Get(leaf, StrKey("key"))).None? then Err(EngineError)
    else if value == Null && InWords(t, ValueTypes) then Err(InputNotValid)
    else if lower != Null && ToStr(lower).None? then Err(EngineError)
    else if lower == Null && InWords(t, RangeTypes) then Err(InputNotValid)
    else if upper != Null && ToStr(upper).None? then Err(EngineError)
    else if upper == Null && InWords(t, RangeTypes) then Err(InputNotValid)
    else if members != Null && !members.Arr? && !members.Str? then Err(InputInvalidType)
    else if members == Null && InWords(t, SetTypes) then Err(InputNotValid)
    else Ok(())
  }

  /**
   * A leaf condition compiled on its own: the template of the operator its
   * type selects, and the leaf's fields read in the template's argument
   * order (the same field may be read more than once).
   */
  function CompileLeaf(dbms: Table, leaf: seq<Entry>): (r: Result<Fragment>)
    ensures CheckLeaf(leaf).Err? ==> r == Err(CheckLeaf(leaf).error)
    ensures var value := Get(leaf, StrKey("value"));
            value != Null && !IsScalar(value) ==> r == Err(InputInvalidType)
    ensures var value := Get(leaf, StrKey("value"));
            (value == Null || IsScalar(value)) && !IsSet(leaf, StrKey("key")) ==> r == Err(InputNotValid)
    ensures CheckLeaf(leaf).Ok? && WithSetString(dbms, leaf).Err? ==> r == Err(WithSetString(dbms, leaf).error)
    ensures CheckLeaf(leaf).Ok? && WithSetString(dbms, leaf).Ok? && OperatorOf(Get(leaf, StrKey("type"))).None?
            ==> r == Err(InputNotValid)
    ensures CheckLeaf(leaf).Ok? && WithSetString(dbms, leaf).Ok? && OperatorOf(Get(leaf, StrKey("type"))).Some? ==>
              var tok := Resolve(dbms, ConditionTable, EntryKey(OperatorOf(Get(leaf, StrKey("type"))).value));
              !(tok.Some? && tok.value.Operator?) ==> r == Err(MissingDefinition)
    ensures CheckLeaf(leaf).Ok? && WithSetString(dbms, leaf).Ok? && OperatorOf(Get(leaf, StrKey("type"))).Some? ==>
              var tok := Resolve(dbms, ConditionTable, EntryKey(OperatorOf(Get(leaf, StrKey("type"))).value));
              var full := WithSetString(dbms, leaf).value;
              tok.Some? && tok.value.Operator? ==>
                (r.Ok? <==> forall i :: 0 <= i < |tok.value.args| ==> IsSet(full, KeyOf(tok.value.args[i])))
                && (r.Err? ==> r.error == MissingRequiredArgument)
    ensures r.Ok? ==> CheckLeaf(leaf).Ok? && WithSetString(dbms, leaf).Ok?
    ensures r.Ok? ==> OperatorOf(Get(leaf, StrKey("type"))).Some?
    ensures r.Ok? ==>
              var tok := Resolve(dbms, ConditionTable, EntryKey(OperatorOf(Get(leaf, StrKey("type"))).value));
              var full := WithSetString(dbms, leaf).value;
              tok.Some? && tok.value.Operator? && r.value.stmt == tok.value.stmt
              && |r.value.args| == |tok.value.args|
              && forall i :: 0 <= i < |tok.value.args| ==> r.value.args[i] == Get(full, KeyOf(tok.value.args[i]))
  {
    var _ :- CheckLeaf(leaf);
    var full :- WithSetString(dbms, leaf);
    match OperatorOf(Get(leaf, StrKey("type")))
    case None => Err(InputNotValid)
    case Some(op) =>
      match Resolve(dbms, ConditionTable, EntryKey(op))
      case Some(Operator(stmt, names)) =>
        var args :- LeafArgs(full, names);
        Ok(Fragment(stmt, args))
      case _ => Err(MissingDefinition)
  }

  /* ---------------------------------------------------------------------
   * Blocks and groups
   * ------------------------------------------------------------------- */

  /** The combinator a `%` value names, compared loosely with "AND", "OR", "XOR" in turn. */
  function Combinator(v: Value): Option<Joiner> {
    if EqualsWord(v, "AND") then Some(And)
    else if EqualsWord(v, "OR") then Some(Or)
    else if EqualsWord(v, "XOR") then Some(Xor)
    else None
  }

  /** The joiner of a group: its `%` entry's combinator; `None` for an array that is no group. */
  function GroupJoiner(es: seq<Entry>): Option<Joiner> {
    match Find(es, StrKey("%"))
    case None => None
    case Some(v) => Combinator(v)
  }

  /** `parse($array, $encap)` with the block joined by `joiner`. */
  function Compile(dbms: Table, es: seq<Entry>, joiner: Joiner, encap: bool): Result<Fragment>
    decreases es, 1
  {
    var f :- CompileFrom(dbms, es, joiner, [], []);
    Ok(Fragment(Encap(f.stmt, encap), f.args))
  }

  /** The block's iteration from `es` on, with the pieces and arguments collected so far. */
  function CompileFrom(dbms: Table, es: seq<Entry>, joiner: Joiner, pieces: seq<string>, args: seq<Value>)
    : Result<Fragment>
    decreases es, 0
  {
    if es == [] then Ok(Fragment(Implode(JoinText(joiner), pieces), args))
    else
      var e := es[0];
      assert e.val < e;
      match e.val
      case Arr(children) =>
        var f :- CompileElement(dbms, children);
        CompileFrom(dbms, es[1..], joiner, pieces + [f.stmt], args + f.args)
      case Str(s) =>
        if s == "*" then Ok(Fragment("", [])) else CompileFrom(dbms, es[1..], joiner, pieces, args)
      case _ => Err(InputInvalidType)
  }

  /** An array element: a group is compiled as a parenthesised block, anything else as a leaf. */
  function CompileElement(dbms: Table, children: seq<Entry>): Result<Fragment>
    decreases children, 2
  {
    match GroupJoiner(children)
    case Some(j) => Compile(dbms, children, j, true)
    case None => CompileLeaf(dbms, children)
  }

  /** The top-level call: an AND block, not encapsulated. */
  function CompileStructure(dbms: Table, structure: seq<Entry>): Result<Fragment> {
    Compile(dbms, structure, And, false)
  }

  /* ---------------------------------------------------------------------
   * A reference definition: each element compiled on its own
   * ------------------------------------------------------------------- */

  /** The fragments of a block's array elements up to a wildcard, and whether one was met. */
  datatype Block = Block(children: seq<Fragment>, wildcard: bool)

  function Elements(dbms: Table, es: seq<Entry>): Result<Block>
    decreases es
  {
    if es == [] then Ok(Block([], false))
    else
      match es[0].val
      case Arr(children) =>
        var f :- CompileElement(dbms, children);
        var b :- Elements(dbms, es[1..]);
        Ok(Block([f] + b.children, b.wildcard))
      case Str(s) => if s == "*" then Ok(Block([], true)) else Elements(dbms, es[1..])
      case _ => Err(InputInvalidType)
  }

  function Stmts(fs: seq<Fragment>): (r: seq<string>)
    ensures |r| == |fs|
    ensures forall i :: 0 <= i < |fs| ==> r[i] == fs[i].stmt
  {
    if fs == [] then [] else [fs[0].stmt] + Stmts(fs[1..])
  }

  /** All arguments of the fragments, in order. */
  function AllArgs(fs: seq<Fragment>): seq<Value> {
    if fs == [] then [] else fs[0].args + AllArgs(fs[1..])
  }

  /** The fragment a block's element fragments make. */
  function Assemble(b: Block, joiner: Joiner, encap: bool): Fragment {
    if b.wildcard then Fragment(Encap("", encap), [])
    else Fragment(Encap(Implode(JoinText(joiner), Stmts(b.children)), encap), AllArgs(b.children))
  }

  /** What the rest of an iteration yields, given its elements' fragments. */
  function Finish(r: Result<Block>, joiner: Joiner, pieces: seq<string>, args: seq<Value>): Result<Fragment> {
    if r.Err? then Err(r.error)
    else if r.value.wildcard then Ok(Fragment("", []))
    else Ok(Fragment(Implode(JoinText(joiner), pieces + Stmts(r.value.children)), args + AllArgs(r.value.children)))
  }

  lemma {:induction false} CompileFromElements(dbms: Table, es: seq<Entry>, joiner: Joiner, pieces: seq<string>, args: seq<Value>)
    ensures CompileFrom(dbms, es, joiner, pieces, args) == Finish(Elements(dbms, es), joiner, pieces, args)
    decreases es
  {
    if es == [] {
      assert pieces + [] == pieces && args + [] == args;
    } else if es[0].val.Arr? {
      var f := CompileElement(dbms, es[0].val.entries);
      if f.Ok? {
        CompileFromElements(dbms, es[1..], joiner, pieces + [f.value.stmt], args + f.value.args);
        ElementStep(dbms, es, joiner, pieces, args);
      } else {
        assert CompileFrom(dbms, es, joiner, pieces, args) == Err(f.error);
      }
    } else if es[0].val.Str? && es[0].val.s != "*" {
      CompileFromElements(dbms, es[1..], joiner, pieces, args);
    }
  }

  /** The elements of a block that starts with an array element compiled to `f`. */
  function Cons(f: Fragment, rest: Result<Block>): Result<Block> {
    if rest.Err? then Err(rest.error) else Ok(Block([f] + rest.value.children, rest.value.wildcard))
  }

  lemma FinishCons(f: Fragment, rest: Result<Block>, joiner: Joiner, pieces: seq<string>, args: seq<Value>)
    ensures Finish(rest, joiner, pieces + [f.stmt], args + f.args) == Finish(Cons(f, rest), joiner, pieces, args)
  {
    if rest.Ok? {
      var b := rest.value;
      assert Stmts([f] + b.children) == [f.stmt] + Stmts(b.children);
      assert pieces + [f.stmt] + Stmts(b.children) == pieces + ([f.stmt] + Stmts(b.children));
      assert AllArgs([f] + b.children) == f.args + AllArgs(b.children);
      assert args + f.args + AllArgs(b.children) == args + (f.args + AllArgs(b.children));
    }
  }

  /** One array element: its fragment goes in front of the rest's. */
  lemma ElementStep(dbms: Table, es: seq<Entry>, joiner: Joiner, pieces: seq<string>, args: seq<Value>)
    requires es != [] && es[0].val.Arr? && CompileElement(dbms, es[0].val.entries).Ok?
    requires var fr := CompileElement(dbms, es[0].val.entries).value;
      CompileFrom(dbms, es[1..], joiner, pieces + [fr.stmt], args + fr.args)
      == Finish(Elements(dbms, es[1..]), joiner, pieces + [fr.stmt], args + fr.args)
    ensures CompileFrom(dbms, es, joiner, pieces, args) == Finish(Elements(dbms, es), joiner, pieces, args)
  {
    var fr := CompileElement(dbms, es[0].val.entries).value;
    assert CompileFrom(dbms, es, joiner, pieces, args) == CompileFrom(dbms, es[1..], joiner, pieces + [fr.stmt], args + fr.args);
    assert Elements(dbms, es) == Cons(fr, Elements(dbms, es[1..]));
    FinishCons(fr, Elements(dbms, es[1..]), joiner, pieces, args);
  }

  /**
   * A block compiles to its elements' fragments joined in order, the
   * arguments concatenated in the same order; a wildcard makes it empty.
   * Joining never fails: every error comes from an element.
   */
  lemma {:induction false} CompileByElements(dbms: Table, es: seq<Entry>, joiner: Joiner, encap: bool)
    ensures Elements(dbms, es).Err? ==> Compile(dbms, es, joiner, encap) == Err(Elements(dbms, es).error)
    ensures Elements(dbms, es).Ok? ==> Compile(dbms, es, joiner, encap) == Ok(Assemble(Elements(dbms, es).value, joiner, encap))
  {
    CompileFromElements(dbms, es, joiner, [], []);
    var r := Elements(dbms, es);
    if r.Ok? {
      assert [] + Stmts(r.value.children) == Stmts(r.value.children);
      assert [] + AllArgs(r.value.children) == AllArgs(r.value.children);
    }
  }

  /** An empty structure compiles to an empty statement without arguments. */
  lemma EmptyStructure(dbms: Table, joiner: Joiner, encap: bool)
    ensures Compile(dbms, [], joiner, encap) == Ok(Fragment(Encap("", encap), []))
  {
  }

  /** A wildcard ends the block: the statement is empty and nothing after it is looked at. */
  lemma {:induction false} WildcardEndsBlock(dbms: Table, es: seq<Entry>, k: Key, rest: seq<Entry>, joiner: Joiner, encap: bool)
    requires Elements(dbms, es).Ok?
    ensures Compile(dbms, es + [Entry(k, Str("*"))] + rest, joiner, encap)
         == Ok(Fragment(Encap("", encap), []))
  {
    WildcardElements(dbms, es, k, rest);
    CompileByElements(dbms, es + [Entry(k, Str("*"))] + rest, joiner, encap);
  }

  lemma {:induction false} WildcardElements(dbms: Table, es: seq<Entry>, k: Key, rest: seq<Entry>)
    requires Elements(dbms, es).Ok?
    ensures Elements(dbms, es + [Entry(k, Str("*"))] + rest).Ok?
    ensures Elements(dbms, es + [Entry(k, Str("*"))] + rest).value.wildcard
    decreases es
  {
    var all := es + [Entry(k, Str("*"))] + rest;
    if es == [] {
      assert all[0] == Entry(k, Str("*"));
    } else {
      assert all[0] == es[0];
      assert all[1..] == es[1..] + [Entry(k, Str("*"))] + rest;
      match es[0].val
      case Arr(children) =>
        WildcardElements(dbms, es[1..], k, rest);
      case Str(s) =>
        if s != "*" {
          WildcardElements(dbms, es[1..], k, rest);
        }
      case _ =>
    }
  }

  /**
   * An element that is neither an array nor a string fails the block with
   * INPUT_INVALID_TYPE, once the elements before it compile without a wildcard.
   */
  lemma {:induction false} BadElementFails(dbms: Table, es: seq<Entry>, k: Key, v: Value, rest: seq<Entry>, joiner: Joiner, encap: bool)
    requires !v.Arr? && !v.Str?
    requires Elements(dbms, es).Ok? && !Elements(dbms, es).value.wildcard
    ensures Compile(dbms, es + [Entry(k, v)] + rest, joiner, encap) == Err(InputInvalidType)
  {
    BadElement(dbms, es, k, v, rest);
    CompileByElements(dbms, es + [Entry(k, v)] + rest, joiner, encap);
  }

  lemma {:induction false} BadElement(dbms: Table, es: seq<Entry>, k: Key, v: Value, rest: seq<Entry>)
    requires !v.Arr? && !v.Str?
    requires Elements(dbms, es).Ok? && !Elements(dbms, es).value.wildcard
    ensures Elements(dbms, es + [Entry(k, v)] + rest) == Err(InputInvalidType)
    decreases es
  {
    var all := es + [Entry(k, v)] + rest;
    if es == [] {
      assert all[0] == Entry(k, v);
    } else {
      assert all[0] == es[0];
      assert all[1..] == es[1..] + [Entry(k, v)] + rest;
      match es[0].val
      case Arr(children) =>
        BadElement(dbms, es[1..], k, v, rest);
      case Str(s) =>
        if s != "*" {
          BadElement(dbms, es[1..], k, v, rest);
        }
      case _ =>
    }
  }

  /** Only the block's values matter, not its keys. */
  lemma {:induction false} CompileFromValues(dbms: Table, es: seq<Entry>, es': seq<Entry>, joiner: Joiner, pieces: seq<string>, args: seq<Value>)
    requires Values(es) == Values(es')
    ensures CompileFrom(dbms, es, joiner, pieces, args) == CompileFrom(dbms, es', joiner, pieces, args)
    decreases es
  {
    if es != [] {
      assert es[0].val == Values(es)[0] == es'[0].val;
      assert Values(es[1..]) == Values(es)[1..] == Values(es')[1..] == Values(es'[1..]);
      var f := match es[0].val case Arr(c) => CompileElement(dbms, c) case _ => Ok(Fragment("", []));
      if f.Ok? {
        CompileFromValues(dbms, es[1..], es'[1..], joiner, pieces + [f.value.stmt], args + f.value.args);
      }
      CompileFromValues(dbms, es[1..], es'[1..], joiner, pieces, args);
    }
  }

  lemma CompileValues(dbms: Table, es: seq<Entry>, es': seq<Entry>, joiner: Joiner, encap: bool)
    requires Values(es) == Values(es')
    ensures Compile(dbms, es, joiner, encap) == Compile(dbms, es', joiner, encap)
  {
    CompileFromValues(dbms, es, es', joiner, [], []);
  }

  /* ---------------------------------------------------------------------
   * The type words are compared loosely
   * ------------------------------------------------------------------- */

  /** A string that starts with neither a digit, a sign nor a point. */
  predicate WordLike(w: string) {
    |w| > 0 && !IsDigit(w[0]) && w[0] != '+' && w[0] != '-' && w[0] != '.'
  }

  lemma {:induction false} AllWords(words: seq<string>)
    requires forall i :: 0 <= i < |words| ==> WordLike(words[i])
    ensures forall i :: 0 <= i < |words| ==> IsWord(words[i])
  {
    forall i | 0 <= i < |words|
      ensures IsWord(words[i])
    {
      WordByFirstChar(words[i]);
    }
  }

  lemma ValueTypesAreWords()
    ensures forall i :: 0 <= i < |ValueTypes| ==> IsWord(ValueTypes[i])
  {
    AllWords(ValueTypes);
  }

  lemma RangeTypesAreWords()
    ensures forall i :: 0 <= i < |RangeTypes| ==> IsWord(RangeTypes[i])
  {
    AllWords(RangeTypes);
  }

  lemma SetTypesAreWords()
    ensures forall i :: 0 <= i < |SetTypes| ==> IsWord(SetTypes[i])
  {
    AllWords(SetTypes);
  }

  lemma {:induction false} DispatchWordsAreWords(op: Op)
    ensures IsWord(Symbol(op)) && IsWord(Name(op))
  {
    WordByFirstChar(Symbol(op));
    WordByFirstChar(Name(op));
  }

  /** The required-field tests are PHP's loose `in_array`. */
  lemma RequiredFieldTestsAreLoose(t: Value)
    ensures InWords(t, ValueTypes) <==> LooselyIn(t, ValueTypes)
    ensures InWords(t, RangeTypes) <==> LooselyIn(t, RangeTypes)
    ensures InWords(t, SetTypes) <==> LooselyIn(t, SetTypes)
  {
    ValueTypesAreWords();
    RangeTypesAreWords();
    SetTypesAreWords();
    InWordsIsLoose(t, ValueTypes);
    InWordsIsLoose(t, RangeTypes);
    InWordsIsLoose(t, SetTypes);
  }

  /** Each dispatch test is PHP's loose `$type == symbol || $type == name`. */
  lemma {:induction false} DispatchIsLoose(t: Value, op: Op)
    ensures Matches(t, op) <==> LooseEqualsString(t, Symbol(op)) || LooseEqualsString(t, Name(op))
  {
    DispatchWordsAreWords(op);
    LooseEqualsWord(t, Symbol(op));
    LooseEqualsWord(t, Name(op));
  }

  /** The combinator test is PHP's loose `in_array($comparator, ['AND', 'OR', 'XOR'])`. */
  /** The words a group's `%` entry is compared with. */
  const Combinators: seq<string> := ["AND", "OR", "XOR"]

  lemma CombinatorsAreWords()
    ensures forall i :: 0 <= i < |Combinators| ==> IsWord(Combinators[i])
  {
    AllWords(Combinators);
  }

  lemma CombinatorIsLoose(v: Value)
    ensures Combinator(v).Some? <==> LooselyIn(v, ["AND", "OR", "XOR"])
  {
    CombinatorsAreWords();
    InWordsIsLoose(v, Combinators);
    assert Combinators == ["AND", "OR", "XOR"];
  }

  /* ---------------------------------------------------------------------
   * Placeholders match arguments
   * ------------------------------------------------------------------- */

  lemma JoinTextPlaceholders(j: Joiner)
    ensures Placeholders(JoinText(j)) == 0
  {
    match j
    case And => assert CountFrom(" AND ", 3) == 0;
    case Or => assert CountFrom(" OR ", 2) == 0;
    case Xor => assert CountFrom(" XOR ", 3) == 0;
  }

  lemma EncapPlaceholders(s: string, encap: bool)
    ensures Placeholders(Encap(s, encap)) == Placeholders(s)
  {
    if encap {
      PlaceholdersConcat("(", s);
      PlaceholdersConcat("(" + s, ")");
    }
  }

  lemma ImplodePlaceholders(sep: string, pieces: seq<string>, p: string)
    requires Placeholders(sep) == 0
    ensures Placeholders(Implode(sep, pieces + [p])) == Placeholders(Implode(sep, pieces)) + Placeholders(p)
  {
    var all := pieces + [p];
    if pieces == [] {
      assert all == [p];
    } else {
      assert all[..|all| - 1] == pieces;
      PlaceholdersConcat(Implode(sep, pieces) + sep, p);
      PlaceholdersConcat(Implode(sep, pieces), sep);
    }
  }

  /** A leaf's template has as many placeholders as it has arguments. */
  lemma {:induction false} LeafParity(dbms: Table, leaf: seq<Entry>)
    requires WellFormed(dbms)
    ensures CompileLeaf(dbms, leaf).Ok?
        ==> Placeholders(CompileLeaf(dbms, leaf).value.stmt) == |CompileLeaf(dbms, leaf).value.args|
  {
    var op := OperatorOf(Get(leaf, StrKey("type")));
    if op.Some? {
      ResolveWellFormed(dbms, ConditionTable, EntryKey(op.value));
    }
  }

  /**
   * Over a well-formed DBMS table, every compiled fragment binds exactly one
   * argument per placeholder.
   */
  lemma {:induction false} CompileParity(dbms: Table, es: seq<Entry>, joiner: Joiner, encap: bool)
    requires WellFormed(dbms)
    ensures Compile(dbms, es, joiner, encap).Ok?
        ==> Placeholders(Compile(dbms, es, joiner, encap).value.stmt) == |Compile(dbms, es, joiner, encap).value.args|
    decreases es, 1
  {
    CompileFromParity(dbms, es, joiner, [], []);
    var f := CompileFrom(dbms, es, joiner, [], []);
    if f.Ok? {
      EncapPlaceholders(f.value.stmt, encap);
    }
  }

  lemma {:induction false} CompileFromParity(dbms: Table, es: seq<Entry>, joiner: Joiner, pieces: seq<string>, args: seq<Value>)
    requires WellFormed(dbms)
    requires Placeholders(Implode(JoinText(joiner), pieces)) == |args|
    ensures var r := CompileFrom(dbms, es, joiner, pieces, args);
            r.Ok? ==> Placeholders(r.value.stmt) == |r.value.args|
    decreases es, 0
  {
    if es != [] {
      var e := es[0];
      assert e.val < e;
      if e.val.Arr? {
        var f := CompileElement(dbms, e.val.entries);
        CompileElementParity(dbms, e.val.entries);
        if f.Ok? {
          JoinTextPlaceholders(joiner);
          ImplodePlaceholders(JoinText(joiner), pieces, f.value.stmt);
          CompileFromParity(dbms, es[1..], joiner, pieces + [f.value.stmt], args + f.value.args);
        }
      } else if e.val.Str? && e.val.s != "*" {
        CompileFromParity(dbms, es[1..], joiner, pieces, args);
      }
    }
  }

  lemma {:induction false} CompileElementParity(dbms: Table, children: seq<Entry>)
    requires WellFormed(dbms)
    ensures CompileElement(dbms, children).Ok?
        ==> Placeholders(CompileElement(dbms, children).value.stmt) == |CompileElement(dbms, children).value.args|
    decreases children, 2
  {
    match GroupJoiner(children)
    case Some(j) => CompileParity(dbms, children, j, true);
    case None => LeafParity(dbms, children);
  }

  /* ---------------------------------------------------------------------
   * Leaves over the standard table
   * ------------------------------------------------------------------- */

  /** Adding `setstring` leaves every other field as it was. */
  lemma WithSetStringKeeps(dbms: Table, leaf: seq<Entry>, k: Key)
    requires CheckLeaf(leaf).Ok? && WithSetString(dbms, leaf).Ok?
    requires k != StrKey("setstring")
    ensures Get(WithSetString(dbms, leaf).value, k) == Get(leaf, k)
  {
  }

  lemma {:induction false} ExclusiveRangeArgsOrder(args: seq<Value>, full: seq<Entry>, leaf: seq<Entry>)
    requires |args| == |ExclusiveRangeArgs|
    requires forall i :: 0 <= i < |args| ==> args[i] == Get(full, KeyOf(ExclusiveRangeArgs[i]))
    requires forall k :: k in {StrKey("key"), StrKey("lower"), StrKey("upper")} ==> Get(full, k) == Get(leaf, k)
    ensures var k, lo, up := Get(leaf, StrKey("key")), Get(leaf, StrKey("lower")), Get(leaf, StrKey("upper"));
            args == [k, lo, up, k, lo, k, up]
  {
    assert KeyOf("key") == StrKey("key") && KeyOf("lower") == StrKey("lower") && KeyOf("upper") == StrKey("upper");
    var names := ExclusiveRangeArgs;
    assert names[0] == "key" && names[1] == "lower" && names[2] == "upper" && names[3] == "key";
    assert names[4] == "lower" && names[5] == "key" && names[6] == "upper";
  }

  /**
   * Over the standard template of its operator, a leaf that passes the checks
   * compiles exactly when every field the template names is set.
   */
  lemma StandardLeafCompiles(dbms: Table, leaf: seq<Entry>, op: Op)
    requires CheckLeaf(leaf).Ok? && WithSetString(dbms, leaf).Ok?
    requires OperatorOf(Get(leaf, StrKey("type"))) == Some(op) && EntryKey(op) !in dbms
    ensures Standard(ConditionTable, EntryKey(op)).Some? && Standard(ConditionTable, EntryKey(op)).value.Operator?
    ensures var tok := Standard(ConditionTable, EntryKey(op)).value;
            var full := WithSetString(dbms, leaf).value;
            (CompileLeaf(dbms, leaf).Ok? <==> forall i :: 0 <= i < |tok.args| ==> IsSet(full, KeyOf(tok.args[i])))
            && (CompileLeaf(dbms, leaf).Ok? ==> CompileLeaf(dbms, leaf).value.stmt == tok.stmt)
  {
    OperatorDefined(op, ConditionTable);
  }

  /** The leaf `['type' => '=', 'key' => 'a', 'value' => 1]`. */
  const EqualityLeaf: seq<Entry> :=
    [Entry(StrKey("type"), Str("=")), Entry(StrKey("key"), Str("a")), Entry(StrKey("value"), Int(1))]

  lemma EqualityLeafFields()
    ensures Get(EqualityLeaf, StrKey("type")) == Str("=")
    ensures Get(EqualityLeaf, StrKey("key")) == Str("a")
    ensures Get(EqualityLeaf, StrKey("value")) == Int(1)
    ensures Get(EqualityLeaf, StrKey("lower")) == Null
    ensures Get(EqualityLeaf, StrKey("upper")) == Null
    ensures Get(EqualityLeaf, StrKey("set")) == Null
  {
  }

  lemma EqualIsNoRangeOrSet()
    ensures !InWords(Str("="), RangeTypes) && !InWords(Str("="), SetTypes)
  {
  }

  lemma EqualityLeafChecks()
    ensures CheckLeaf(EqualityLeaf).Ok?
  {
    EqualityLeafFields();
    EqualIsNoRangeOrSet();
  }

  lemma KeyAndValueAreStringKeys()
    ensures KeyOf("key") == StrKey("key") && KeyOf("value") == StrKey("value")
  {
    assert !AllDigits("key") by { assert !IsDigit("key"[0]); }
    assert !AllDigits("value") by { assert !IsDigit("value"[0]); }
  }

  /** A leaf with its key and value set gives the two-field template its key and its value. */
  lemma KeyValueArgs(leaf: seq<Entry>)
    requires IsSet(leaf, StrKey("key")) && IsSet(leaf, StrKey("value"))
    ensures LeafArgs(leaf, ["key", "value"]) == Ok([Get(leaf, StrKey("key")), Get(leaf, StrKey("value"))])
  {
    KeyAndValueAreStringKeys();
    var names := ["key", "value"];
    assert names[0] == "key" && names[1] == "value";
    var r := LeafArgs(leaf, names);
    assert r.Ok?;
    assert |r.value| == 2 && r.value[0] == Get(leaf, StrKey("key")) && r.value[1] == Get(leaf, StrKey("value"));
    assert r.value == [Get(leaf, StrKey("key")), Get(leaf, StrKey("value"))];
  }

  /** A checked `=` leaf without a set compiles to `? = ?` over its key and its value. */
  lemma EqualityCompiles(leaf: seq<Entry>)
    requires CheckLeaf(leaf).Ok? && Get(leaf, StrKey("type")) == Str("=") && !IsSet(leaf, StrKey("set"))
    requires IsSet(leaf, StrKey("value"))
    ensures CompileLeaf(map[], leaf) == Ok(Fragment("? = ?", [Get(leaf, StrKey("key")), Get(leaf, StrKey("value"))]))
  {
    KeyValueArgs(leaf);
    assert WithSetString(map[], leaf) == Ok(leaf);
    assert OperatorOf(Str("=")) == Some(Eq);
    assert Resolve(map[], ConditionTable, EntryKey(Eq)) == Some(Operator("? = ?", ["key", "value"]));
  }

  /** `['type' => '=', 'key' => 'a', 'value' => 1]` compiles to `? = ?` with the key and the value. */
  lemma EqualityLeafCompiles()
    ensures CompileLeaf(map[], EqualityLeaf) == Ok(Fragment("? = ?", [Str("a"), Int(1)]))
  {
    EqualityLeafFields();
    EqualityLeafChecks();
    EqualityCompiles(EqualityLeaf);
  }

  /** A compiled leaf is the resolved template with the fields its names select. */
  lemma LeafTemplate(dbms: Table, leaf: seq<Entry>, op: Op, stmt: string, names: seq<string>)
    requires CompileLeaf(dbms, leaf).Ok?
    requires OperatorOf(Get(leaf, StrKey("type"))) == Some(op)
    requires Resolve(dbms, ConditionTable, EntryKey(op)) == Some(Operator(stmt, names))
    ensures CompileLeaf(dbms, leaf).value.stmt == stmt
    ensures |CompileLeaf(dbms, leaf).value.args| == |names|
    ensures forall i :: 0 <= i < |names| ==>
              CompileLeaf(dbms, leaf).value.args[i] == Get(WithSetString(dbms, leaf).value, KeyOf(names[i]))
  {
  }

  lemma ExclusiveRangeTemplate(dbms: Table, op: Op)
    requires "op_xrange" !in dbms && "op_nxrange" !in dbms
    requires op == XRange || op == NXRange
    ensures Resolve(dbms, ConditionTable, EntryKey(op)) == Some(Operator(if op == XRange then XRangeStmt else NXRangeStmt, ExclusiveRangeArgs))
  {
    ExclusiveRangeOperators(ConditionTable);
  }

  /**
   * An exclusive range binds the key and both bounds seven times over, in
   * the order `key, lower, upper, key, lower, key, upper`.
   */
  lemma {:induction false} ExclusiveRangeLeaf(dbms: Table, leaf: seq<Entry>, op: Op)
    requires "op_xrange" !in dbms && "op_nxrange" !in dbms
    requires OperatorOf(Get(leaf, StrKey("type"))) == Some(op) && (op == XRange || op == NXRange)
    requires CompileLeaf(dbms, leaf).Ok?
    ensures var k, lo, up := Get(leaf, StrKey("key")), Get(leaf, StrKey("lower")), Get(leaf, StrKey("upper"));
            CompileLeaf(dbms, leaf).value.args == [k, lo, up, k, lo, k, up]
    ensures CompileLeaf(dbms, leaf).value.stmt == if op == XRange then XRangeStmt else NXRangeStmt
  {
    var f := CompileLeaf(dbms, leaf).value;
    var full := WithSetString(dbms, leaf).value;
    ExclusiveRangeTemplate(dbms, op);
    LeafTemplate(dbms, leaf, op, if op == XRange then XRangeStmt else NXRangeStmt, ExclusiveRangeArgs);
    forall k | k in {StrKey("key"), StrKey("lower"), StrKey("upper")}
      ensures Get(full, k) == Get(leaf, k)
    {
      WithSetStringKeeps(dbms, leaf, k);
    }
    ExclusiveRangeArgsOrder(f.args, full, leaf);
  }

  lemma {:induction false} SetArgsOrder(args: seq<Value>, names: seq<string>, full: seq<Entry>, leaf: seq<Entry>)
    requires names == ["key", "setstring"]
    requires |args| == |names|
    requires forall i :: 0 <= i < |args| ==> args[i] == Get(full, KeyOf(names[i]))
    requires Get(full, StrKey("key")) == Get(leaf, StrKey("key"))
    ensures args == [Get(leaf, StrKey("key")), Get(full, StrKey("setstring"))]
  {
    assert KeyOf("key") == StrKey("key") && KeyOf("setstring") == StrKey("setstring");
  }

  lemma SetTemplate(dbms: Table, op: Op)
    requires "op_in" !in dbms && "op_nin" !in dbms
    requires op == In || op == NIn
    ensures Resolve(dbms, ConditionTable, EntryKey(op))
            == Some(Operator(if op == In then "? IN (?)" else "? NOT IN (?)", ["key", "setstring"]))
  {
  }

  /** With the standard delimiter, `setstring` is the set's elements joined with commas. */
  lemma SetString(dbms: Table, leaf: seq<Entry>)
    requires "setDelimiter" !in dbms
    requires IsSet(leaf, StrKey("set")) && (Get(leaf, StrKey("set")).Arr? || Get(leaf, StrKey("set")).Str?)
    requires WithSetString(dbms, leaf).Ok?
    ensures SetElements(Get(leaf, StrKey("set"))).Ok?
    ensures Get(WithSetString(dbms, leaf).value, StrKey("setstring"))
            == Str(Implode(",", SetElements(Get(leaf, StrKey("set"))).value))
  {
    JoinerTokens(ConditionTable);
  }

  /**
   * IN and NOT IN bind the key and then the set, joined with the
   * `setDelimiter` token into one string, to the two placeholders of
   * `? IN (?)` and `? NOT IN (?)`.
   */
  lemma {:induction false} SetLeaf(dbms: Table, leaf: seq<Entry>, op: Op)
    requires "op_in" !in dbms && "op_nin" !in dbms && "setDelimiter" !in dbms
    requires OperatorOf(Get(leaf, StrKey("type"))) == Some(op) && (op == In || op == NIn)
    requires CompileLeaf(dbms, leaf).Ok?
    ensures IsSet(leaf, StrKey("set"))
    ensures var members := Get(leaf, StrKey("set"));
            (members.Arr? || members.Str?) && SetElements(members).Ok?
            && CompileLeaf(dbms, leaf).value.args == [Get(leaf, StrKey("key")), Str(Implode(",", SetElements(members).value))]
    ensures CompileLeaf(dbms, leaf).value.stmt == if op == In then "? IN (?)" else "? NOT IN (?)"
  {
    var t := Get(leaf, StrKey("type"));
    var f := CompileLeaf(dbms, leaf).value;
    SetTypeNeedsSet(t, op);
    var full := WithSetString(dbms, leaf).value;
    WithSetStringKeeps(dbms, leaf, StrKey("key"));
    SetString(dbms, leaf);
    SetTemplate(dbms, op);
    LeafTemplate(dbms, leaf, op, if op == In then "? IN (?)" else "? NOT IN (?)", ["key", "setstring"]);
    SetArgsOrder(f.args, ["key", "setstring"], full, leaf);
  }

  /** The IN and NOT IN types are among those that need a set. */
  lemma SetTypeNeedsSet(t: Value, op: Op)
    requires Matches(t, op) && (op == In || op == NIn)
    ensures InWords(t, SetTypes)
  {
    if op == In {
      assert SetTypes[0] == "[]" && SetTypes[1] == "IN";
    } else {
      assert SetTypes[2] == "![]" && SetTypes[3] == "NIN";
    }
  }

  /** A string set passes through the standard delimiter unchanged. */
  lemma StringSetRoundTrip(s: string)
    ensures SetElements(Str(s)).Ok?
    ensures Implode(",", SetElements(Str(s)).value) == s
  {
    ImplodeExplode(',', s);
  }

  /* ---------------------------------------------------------------------
   * Groups
   * ------------------------------------------------------------------- */

  /**
   * A group element becomes its elements' statements joined with the
   * group's own combinator, in parentheses, and their arguments in order.
   */
  lemma GroupUsesItsCombinator(dbms: Table, group: seq<Entry>, j: Joiner)
    requires GroupJoiner(group) == Some(j)
    requires Elements(dbms, group).Ok? && !Elements(dbms, group).value.wildcard
    ensures var b := Elements(dbms, group).value;
            CompileElement(dbms, group) == Ok(Fragment("(" + Implode(JoinText(j), Stmts(b.children)) + ")", AllArgs(b.children)))
  {
    CompileByElements(dbms, group, j, true);
  }

  /* ---------------------------------------------------------------------
   * The source as written
   * ------------------------------------------------------------------- */

  /** The values the source's `$condType` takes; `Undefined` is the undefined `$key`. */
  datatype CondType = AndType | OrType | XorType | NoneType | Undefined

  /**
   * As written, `$comparator` is the last `%` entry met so far in the block
   * (undefined, that is null, before the first): an array element with a `%`
   * entry replaces it, any other element leaves it as it was.
   */
  function ComparatorAfter(element: seq<Entry>, comparator: Value): (c: Value)
    ensures Find(element, StrKey("%")).Some? ==> c == Find(element, StrKey("%")).value
    ensures Find(element, StrKey("%")).None? ==> c == comparator
  {
    match Find(element, StrKey("%"))
    case Some(v) => v
    case None => comparator
  }

  /**
   * As written, the block's `$condType` from `es` on, given the `$comparator`
   * in force and the `$condType` so far: each element resets it to AND; an
   * array element is taken as a group whenever the comparator in force names
   * a combinator, and a group sets it to `$key`, which is undefined there
   * (null, or "" after a leaf); a wildcard sets OR and stops; any other
   * element is INPUT_INVALID_TYPE.
   */
  function CondTypeFrom(es: seq<Entry>, comparator: Value, ct: CondType): (r: Result<CondType>)
    ensures ct != XorType ==> r != Ok(XorType)
    ensures r.Err? ==> r.error == InputInvalidType
    decreases es
  {
    if es == [] then Ok(ct)
    else
      match es[0].val
      case Arr(element) =>
        var c := ComparatorAfter(element, comparator);
        CondTypeFrom(es[1..], c, if Combinator(c).Some? then Undefined else AndType)
      case Str(s) =>
        if s == "*" then Ok(OrType) else CondTypeFrom(es[1..], comparator, AndType)
      case _ => Err(InputInvalidType)
  }

  /**
   * As written, the block's `$condType` after the loop: NONE for an empty
   * block, never XOR, and INPUT_INVALID_TYPE for an element of another type.
   */
  function CondTypeAsWritten(es: seq<Entry>): (r: Result<CondType>)
    ensures es == [] ==> r == Ok(NoneType)
    ensures r != Ok(XorType)
    ensures r.Err? ==> r.error == InputInvalidType
  {
    CondTypeFrom(es, Null, NoneType)
  }

  /** As written, the final join: NONE empties the statement, anything unknown is INPUT_NOT_VALID. */
  function JoinerAsWritten(ct: CondType): Result<Option<Joiner>> {
    match ct
    case AndType => Ok(Some(And))
    case OrType => Ok(Some(Or))
    case XorType => Ok(Some(Xor))
    case NoneType => Ok(None)
    case Undefined => Err(InputNotValid)
  }

  /** As written, a block is joined with OR only when it holds a `*`. */
  lemma {:induction false} AsWrittenOrNeedsWildcard(es: seq<Entry>, comparator: Value, ct: CondType)
    requires ct != OrType
    ensures CondTypeFrom(es, comparator, ct) == Ok(OrType) ==> exists i :: 0 <= i < |es| && es[i].val == Str("*")
    decreases es
  {
    if es != [] && CondTypeFrom(es, comparator, ct) == Ok(OrType) {
      if es[0].val == Str("*") {
        assert es[0].val == Str("*");
      } else {
        match es[0].val
        case Arr(element) =>
          var c := ComparatorAfter(element, comparator);
          AsWrittenOrNeedsWildcard(es[1..], c, if Combinator(c).Some? then Undefined else AndType);
          var i :| 0 <= i < |es[1..]| && es[1..][i].val == Str("*");
          assert es[i + 1].val == Str("*");
        case Str(s) =>
          AsWrittenOrNeedsWildcard(es[1..], comparator, AndType);
          var i :| 0 <= i < |es[1..]| && es[1..][i].val == Str("*");
          assert es[i + 1].val == Str("*");
        case _ =>
      }
    }
  }

  /** As written, no block is ever joined with XOR, nor with OR unless it holds a wildcard. */
  lemma AsWrittenNeverXor(es: seq<Entry>)
    ensures CondTypeAsWritten(es) != Ok(XorType)
    ensures CondTypeAsWritten(es) == Ok(OrType) ==> exists i :: 0 <= i < |es| && es[i].val == Str("*")
  {
    AsWrittenOrNeedsWildcard(es, Null, NoneType);
  }

  /** As written, every array after a group that has no `%` of its own is taken as a group too. */
  lemma {:induction false} GroupTail(es: seq<Entry>, comparator: Value, ct: CondType)
    requires Combinator(comparator).Some?
    requires es == [] ==> ct == Undefined
    requires forall j :: 0 <= j < |es| ==> es[j].val.Arr? && Find(es[j].val.entries, StrKey("%")).None?
    ensures CondTypeFrom(es, comparator, ct) == Ok(Undefined)
    decreases es
  {
    if es != [] {
      assert es[0].val.Arr?;
      GroupTail(es[1..], comparator, Undefined);
    }
  }

  /**
   * As written, a group poisons the rest of its block: when a group is
   * followed only by arrays without a `%` entry, those are taken as groups,
   * `$condType` ends undefined and the block fails with INPUT_NOT_VALID.
   */
  lemma {:induction false} GroupPoisonsBlock(es: seq<Entry>, i: nat, comparator: Value, ct: CondType)
    requires i < |es| && es[i].val.Arr? && GroupJoiner(es[i].val.entries).Some?
    requires forall j :: 0 <= j < i ==> es[j].val.Arr? || (es[j].val.Str? && es[j].val.s != "*")
    requires forall j :: i < j < |es| ==> es[j].val.Arr? && Find(es[j].val.entries, StrKey("%")).None?
    ensures CondTypeFrom(es, comparator, ct) == Ok(Undefined)
    ensures JoinerAsWritten(CondTypeFrom(es, comparator, ct).value) == Err(InputNotValid)
    decreases i
  {
    if i == 0 {
      var c := ComparatorAfter(es[0].val.entries, comparator);
      assert c == Find(es[0].val.entries, StrKey("%")).value;
      GroupTail(es[1..], c, Undefined);
    } else {
      match es[0].val
      case Arr(element) =>
        var c := ComparatorAfter(element, comparator);
        GroupPoisonsBlock(es[1..], i - 1, c, if Combinator(c).Some? then Undefined else AndType);
      case Str(s) =>
        GroupPoisonsBlock(es[1..], i - 1, comparator, AndType);
    }
  }

  /**
   * A structure whose last element is a group fails as written with
   * INPUT_NOT_VALID, where the group compiles in its own parentheses.
   */
  lemma GroupLastFinding(dbms: Table)
    ensures var es := [Entry(IntKey(0), Arr([Entry(StrKey("%"), Str("OR"))]))];
            CondTypeAsWritten(es) == Ok(Undefined) && JoinerAsWritten(Undefined) == Err(InputNotValid)
            && CompileStructure(dbms, es) == Ok(Fragment("()", []))
  {
    var group := [Entry(StrKey("%"), Str("OR"))];
    var es := [Entry(IntKey(0), Arr(group))];
    GroupPoisonsBlock(es, 0, Null, NoneType);
    var none: seq<string> := [];
    var noArgs: seq<Value> := [];
    assert GroupJoiner(group) == Some(Or);
    assert group[1..] == [];
    assert CompileFrom(dbms, group, Or, none, noArgs) == Ok(Fragment("", noArgs));
    assert Encap("", true) == "()";
    assert Compile(dbms, group, Or, true) == Ok(Fragment("()", noArgs));
    assert CompileElement(dbms, group) == Ok(Fragment("()", noArgs));
    assert es[1..] == [];
    assert none + ["()"] == ["()"] && noArgs + noArgs == noArgs;
    assert CompileFrom(dbms, es, And, none, noArgs) == CompileFrom(dbms, [], And, ["()"], noArgs);
    assert Implode(" AND ", ["()"]) == "()";
    assert CompileFrom(dbms, [], And, ["()"], noArgs) == Ok(Fragment("()", noArgs));
  }

  /**
   * As written, the comparator of a group carries over to the leaf after it:
   * the leaf is parsed as a group too and the block fails with
   * INPUT_NOT_VALID, where each element is read on its own and the leaf
   * stays a leaf.
   */
  lemma CarriedComparatorFinding()
    ensures var leaf := [Entry(StrKey("type"), Str("=")), Entry(StrKey("key"), Str("a")), Entry(StrKey("value"), Str("1"))];
            var es := [Entry(IntKey(0), Arr([Entry(StrKey("%"), Str("OR"))])), Entry(IntKey(1), Arr(leaf))];
            CondTypeAsWritten(es) == Ok(Undefined) && JoinerAsWritten(Undefined) == Err(InputNotValid)
            && GroupJoiner(leaf).None? && OperatorOf(Get(leaf, StrKey("type"))) == Some(Eq)
  {
    var leaf := [Entry(StrKey("type"), Str("=")), Entry(StrKey("key"), Str("a")), Entry(StrKey("value"), Str("1"))];
    var es := [Entry(IntKey(0), Arr([Entry(StrKey("%"), Str("OR"))])), Entry(IntKey(1), Arr(leaf))];
    assert Find(leaf, StrKey("%")).None?;
    GroupPoisonsBlock(es, 0, Null, NoneType);
  }

  /** As written, `implode` receives `$value['set']` itself, so a string set is an engine error. */
  function SetElementsAsWritten(v: Value): Result<seq<string>>
    requires v.Arr? || v.Str?
  {
    match v
    case Str(_) => Err(EngineError)
    case Arr(es) => ElementStrings(Values(es))
  }

  /** The string set "a,b" fails as written, where its split list joins back to "a,b". */
  lemma StringSetFinding()
    ensures SetElementsAsWritten(Str("a,b")) == Err(EngineError)
    ensures SetElements(Str("a,b")) == Ok(["a", "b"])
    ensures Implode(",", SetElements(Str("a,b")).value) == "a,b"
  {
    StringSetRoundTrip("a,b");
    var s := "a,b";
    assert s[0] == 'a' && s[1] == ',' && s[2] == 'b';
    assert s[1..][0] == ',';
    assert IndexOf(s[1..], ',') == Some(0);
    assert IndexOf(s, ',') == Some(1);
    assert s[..1] == "a" && s[2..] == "b";
    assert "b"[1..] == [];
    assert IndexOf("b", ',') == None;
    assert Explode(',', "b") == ["b"];
    assert Explode(',', s) == ["a"] + ["b"] == ["a", "b"];
    assert SetElements(Str(s)) == Ok(Explode(',', s));
  }
}
