/**
 * DatabaseStatement: a prepared query, the number of arguments it takes
 * (its `?` placeholders), and `exec`, which checks an argument list, binds
 * it at positions 1..n and runs the statement.
 *
 * The driver is not modelled: the bindings it receives are kept as a ghost
 * log, and whether the driver's execute succeeds is a parameter of `Exec`.
 */
module Statements {
  import opened Errors
  import opened Php
  import opened Grammars

  /** The PDO parameter types, by their PDO values. */
  const TYPE_NULL := 0
  const TYPE_INT := 1
  const TYPE_STR := 2
  const TYPE_LOB := 3
  const TYPE_STMT := 4
  const TYPE_BOOL := 5

  /** What is handed to the driver: a value as it is, or its `serialize`d form. */
  datatype BoundValue = Plain(v: Value) | Serialized(of: Value)

  /** One `bindParam($position, $value, $type)` call. */
  datatype Binding = Binding(position: int, value: BoundValue, bindType: Value)

  /** `paramPrepareType`'s array: the value to bind and its type. */
  datatype Prepared = Prepared(value: BoundValue, bindType: int)

  /**
   * `paramPrepareType($arg)`: the bind type for a plain argument, by its
   * PHP type; arrays and objects are serialised; a resource has none.
   */
  function ParamPrepareType(arg: Value): (r: Option<Prepared>)
    ensures r.None? <==> arg.Resource?
    ensures r.Some? ==> r.value.bindType in {TYPE_NULL, TYPE_INT, TYPE_STR, TYPE_BOOL}
    ensures r.Some? ==> (r.value.bindType == TYPE_NULL <==> arg.Null?)
    ensures r.Some? ==> (r.value.bindType == TYPE_BOOL <==> arg.Bool?)
    ensures r.Some? ==> (r.value.bindType == TYPE_INT <==> arg.Int?)
    ensures r.Some? ==> (r.value.value.Serialized? <==> arg.Arr? || arg.Object?)
    ensures r.Some? ==> r.value.value == if arg.Arr? || arg.Object? then Serialized(arg) else Plain(arg)
  {
    match arg
    case Bool(_) => Some(Prepared(Plain(arg), TYPE_BOOL))
    case Int(_) => Some(Prepared(Plain(arg), TYPE_INT))
    case Float(_) => Some(Prepared(Plain(arg), TYPE_STR))
    case Str(_) => Some(Prepared(Plain(arg), TYPE_STR))
    case Arr(_) => Some(Prepared(Serialized(arg), TYPE_STR))
    case Object(_, _) => Some(Prepared(Serialized(arg), TYPE_STR))
    case Resource(_) => None
    case Null => Some(Prepared(Plain(arg), TYPE_NULL))
  }

  /**
   * The binding for one argument at `position`: an array gives its `value`
   * and its `type`, STR when it has none, and must have a value; anything
   * else goes through `paramPrepareType`.
   */
  function ArgBinding(arg: Value, position: int): (r: Result<Binding>)
    ensures r.Ok? ==> r.value.position == position
    ensures arg.Arr? ==> (r.Ok? <==> IsSet(arg.entries, StrKey("value")))
    ensures arg.Arr? && r.Ok? ==> r.value.value == Plain(Get(arg.entries, StrKey("value")))
    ensures arg.Arr? && r.Ok? && !IsSet(arg.entries, StrKey("type")) ==> r.value.bindType == Int(TYPE_STR)
    ensures arg.Arr? && r.Ok? && IsSet(arg.entries, StrKey("type")) ==> r.value.bindType == Get(arg.entries, StrKey("type"))
    ensures arg.Arr? && r.Err? ==> r.error == InputNotValid
    ensures !arg.Arr? ==> (r.Err? <==> arg.Resource?)
    ensures !arg.Arr? && r.Err? ==> r.error == InputInvalidType
    ensures !arg.Arr? && r.Ok? ==> r.value.value == ParamPrepareType(arg).value.value
                                   && r.value.bindType == Int(ParamPrepareType(arg).value.bindType)
  {
    if arg.Arr? then
      var es := arg.entries;
      if IsSet(es, StrKey("value")) then
        var t := if IsSet(es, StrKey("type")) then Get(es, StrKey("type")) else Int(TYPE_STR);
        Ok(Binding(position, Plain(Get(es, StrKey("value"))), t))
      else Err(InputNotValid)
    else
      match ParamPrepareType(arg)
      case None => Err(InputInvalidType)
      case Some(p) => Ok(Binding(position, p.value, Int(p.bindType)))
  }

  /** The bindings made for `args` before the first one that fails, and that failure. */
  datatype BindOutcome = BindOutcome(done: seq<Binding>, failure: Option<ErrorCode>)

  /**
   * The bind loop over `args`: position 1 for the first argument, one more
   * for each after it, stopping at the first argument that cannot be bound.
   */
  function BindArgs(args: seq<Value>): (r: BindOutcome)
    ensures |r.done| <= |args|
    ensures forall k :: 0 <= k < |r.done| ==> ArgBinding(args[k], k + 1) == Ok(r.done[k])
    ensures forall k :: 0 <= k < |r.done| ==> r.done[k].position == k + 1
    ensures r.failure.None? ==> |r.done| == |args|
    ensures r.failure.Some? ==> |r.done| < |args| && ArgBinding(args[|r.done|], |r.done| + 1) == Err(r.failure.value)
  {
    if args == [] then BindOutcome([], None)
    else
      var front := BindArgs(args[..|args| - 1]);
      if front.failure.Some? then front
      else
        match ArgBinding(args[|args| - 1], |args|)
        case Err(e) => BindOutcome(front.done, Some(e))
        case Ok(b) => BindOutcome(front.done + [b], None)
  }

  class DatabaseStatement {
    /** The creating object. */
    const parent: Value
    const query: string
    /** `substr_count($query, '?')`. */
    const count: nat := Placeholders(query)
    var executions: nat
    /** Every `bindParam` call made on the prepared statement, in order. */
    ghost var bindings: seq<Binding>

    /** The argument count is the number of placeholders in the query. */
    constructor (parent: Value, query: string)
      ensures this.parent == parent && this.query == query
      ensures count == Placeholders(query)
      ensures executions == 0 && bindings == []
    {
      this.parent := parent;
      this.query := query;
      executions := 0;
      bindings := [];
    }

    /**
     * `exec($args)`: a list of the wrong type or length is refused before
     * anything is bound; then each argument is bound in turn, and the
     * statement is executed (`executeOk` is the driver's verdict). Only a
     * successful execution is counted.
     */
    method Exec(args: Value, executeOk: bool) returns (r: Result<()>)
      modifies this
      ensures !args.Arr? ==> r == Err(InputInvalidType)
      ensures args.Arr? && |args.entries| != count ==> r == Err(InputNotValid)
      ensures !args.Arr? || |args.entries| != count ==> bindings == old(bindings) && executions == old(executions)
      ensures args.Arr? && |args.entries| == count ==>
                var outcome := BindArgs(Values(args.entries));
                bindings == old(bindings) + outcome.done
                && (outcome.failure.Some? ==> r == Err(outcome.failure.value) && executions == old(executions))
                && (outcome.failure.None? && !executeOk ==> r == Err(GenericDatabaseError) && executions == old(executions))
                && (outcome.failure.None? && executeOk ==> r == Ok(()) && executions == old(executions) + 1)
    {
      if !args.Arr? {
        return Err(InputInvalidType);
      }
      var values := Values(args.entries);
      if |values| != count {
        return Err(InputNotValid);
      }
      var i := 0;
      ghost var done: seq<Binding> := [];
      while i < |values|
        invariant 0 <= i <= |values|
        invariant BindArgs(values[..i]) == BindOutcome(done, None)
        invariant bindings == old(bindings) + done
        invariant executions == old(executions)
      {
        assert values[..i + 1][..i] == values[..i];
        var b := ArgBinding(values[i], i + 1);
        if b.Err? {
          assert BindArgs(values[..i + 1]) == BindOutcome(done, Some(b.error));
          BindPrefixFailure(values, i + 1);
          return Err(b.error);
        }
        bindings := bindings + [b.value];
        done := done + [b.value];
        i := i + 1;
      }
      assert values[..i] == values;
      if !executeOk {
        return Err(GenericDatabaseError);
      }
      executions := executions + 1;
      return Ok(());
    }

    /** `getArgCount()`. */
    method GetArgCount() returns (n: nat)
      ensures n == count && n == Placeholders(query)
    {
      return count;
    }

    /** `getExecCount()`. */
    method GetExecCount() returns (n: nat)
      ensures n == executions
    {
      return executions;
    }

    /** `getParent()`. */
    method GetParent() returns (p: Value)
      ensures p == parent
    {
      return parent;
    }

    /** `getQuery()`. */
    method GetQuery() returns (q: string)
      ensures q == query
    {
      return query;
    }
  }

  /** Once the bind loop fails on a prefix, the whole list fails the same way. */
  lemma {:induction false} BindPrefixFailure(args: seq<Value>, n: nat)
    requires n <= |args|
    requires BindArgs(args[..n]).failure.Some?
    ensures BindArgs(args) == BindArgs(args[..n])
    decreases |args| - n
  {
    if n < |args| {
      assert args[..n + 1][..n] == args[..n];
      BindPrefixFailure(args, n + 1);
    } else {
      assert args[..n] == args;
    }
  }

  /** A list of scalars and nulls binds in full, each value as it is, at positions 1..n. */
  lemma BindAllPlain(args: seq<Value>)
    requires forall k :: 0 <= k < |args| ==> IsScalar(args[k]) || args[k] == Null
    ensures BindArgs(args).failure.None?
    ensures |BindArgs(args).done| == |args|
    ensures forall k :: 0 <= k < |args| ==> BindArgs(args).done[k].value == Plain(args[k])
    ensures forall k :: 0 <= k < |args| ==> BindArgs(args).done[k].position == k + 1
  {
    var r := BindArgs(args);
    forall k | 0 <= k < |r.done|
      ensures r.done[k].value == Plain(args[k])
    {
      assert ArgBinding(args[k], k + 1) == Ok(r.done[k]);
    }
  }
}
