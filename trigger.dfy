/**
 * SchemaTrigger: a trigger definition (when it fires, on which event, on
 * which table, with which code), checked once by the constructor and only
 * read afterwards.
 */
module SchemaTriggers {
  import opened Errors
  import opened Php

  const TIMING_NONE := 0
  const TIMING_BEFORE := 1
  const TIMING_AFTER := 2

  const EVENT_NONE := 0
  const EVENT_INSERT := 1
  const EVENT_UPDATE := 2

  /**
   * `1 <= $v && $v <= 2` under PHP 8's comparison rules: numbers and
   * numeric strings compare by value; a boolean compares as a boolean with
   * `true` (so only `true` passes); null is below 1; an array is above 2;
   * an object without a numeric cast compares as 1 (as in `LooseEqualsInt`),
   * so it passes; a resource compares by its number; and a non-numeric
   * string compares with "1" and "2" as text, which only a string starting
   * with '1' passes.
   */
  predicate WithinOneTwo(v: Value) {
    match v
    case Null => false
    case Bool(b) => b
    case Int(i) => 1 <= i <= 2
    case Float(t) => DecimalValue(t).Some? && 1.0 <= DecimalValue(t).value <= 2.0
    case Str(s) =>
      if IsNumericString(s) then 1.0 <= DecimalValue(s).value <= 2.0
      else |s| > 0 && s[0] == '1'
    case Arr(_) => false
    case Object(_, _) => true
    case Resource(id) => 1 <= id <= 2
  }

  /** The integer codes that pass the range check are exactly the named non-NONE codes. */
  lemma WithinOneTwoCodes(n: int)
    ensures WithinOneTwo(Int(n)) <==> n == TIMING_BEFORE || n == TIMING_AFTER
    ensures WithinOneTwo(Int(n)) <==> n == EVENT_INSERT || n == EVENT_UPDATE
    ensures !WithinOneTwo(Int(TIMING_NONE)) && !WithinOneTwo(Int(EVENT_NONE))
  {
  }

  /** The fields the constructor stores. */
  datatype TriggerFields = TriggerFields(timing: Value, event: Value, table: string, code: string)

  /**
   * The constructor as written: the check meant for the event tests the
   * timing again, so any event is stored once the timing is valid.
   */
  function ConstructAsWritten(timing: Value, event: Value, table: Value, code: Value): Result<TriggerFields> {
    if !WithinOneTwo(timing) then Err(InputNotValid)
    else if !WithinOneTwo(timing) then Err(InputNotValid)
    else if !table.Str? then Err(InputInvalidType)
    else if !code.Str? then Err(InputInvalidType)
    else Ok(TriggerFields(timing, event, table.s, code.s))
  }

  /** As written, an event outside the EVENT_* codes is accepted whenever the timing is valid. */
  lemma ConstructAsWrittenIgnoresEvent(timing: Value, event: Value, table: Value, code: Value)
    requires WithinOneTwo(timing) && table.Str? && code.Str?
    ensures ConstructAsWritten(timing, event, table, code) == Ok(TriggerFields(timing, event, table.s, code.s))
  {
  }

  /** Event 9 with a valid timing: stored as written, though outside the EVENT_* codes. */
  lemma EventGuardFinding()
    ensures ConstructAsWritten(Int(TIMING_BEFORE), Int(9), Str("orders"), Str("")).Ok?
    ensures !WithinOneTwo(Int(9))
  {
  }

  class SchemaTrigger {
    var timing: Value
    var event: Value
    var table: string
    var code: string

    /** Timing and event both lie in the range their constants span. */
    predicate Valid()
      reads this
    {
      WithinOneTwo(timing) && WithinOneTwo(event)
    }

    constructor Init(timing: Value, event: Value, table: string, code: string)
      ensures this.timing == timing && this.event == event && this.table == table && this.code == code
    {
      this.timing := timing;
      this.event := event;
      this.table := table;
      this.code := code;
    }

    /**
     * `new SchemaTrigger($timing, $event, $table, $code)` with the event
     * check as intended: timing and event must lie in 1..2 (INPUT_NOT_VALID
     * otherwise), table and code must be strings (INPUT_INVALID_TYPE
     * otherwise), checked in that order.
     */
    static method New(timing: Value, event: Value, table: Value, code: Value) returns (r: Result<SchemaTrigger>)
      ensures !WithinOneTwo(timing) ==> r == Err(InputNotValid)
      ensures WithinOneTwo(timing) && !WithinOneTwo(event) ==> r == Err(InputNotValid)
      ensures WithinOneTwo(timing) && WithinOneTwo(event) && !table.Str? ==> r == Err(InputInvalidType)
      ensures WithinOneTwo(timing) && WithinOneTwo(event) && table.Str? && !code.Str? ==> r == Err(InputInvalidType)
      ensures r.Ok? <==> WithinOneTwo(timing) && WithinOneTwo(event) && table.Str? && code.Str?
      ensures r.Ok? ==> fresh(r.value) && r.value.Valid()
      ensures r.Ok? ==> r.value.timing == timing && r.value.event == event
                        && r.value.table == table.s && r.value.code == code.s
    {
      if !WithinOneTwo(timing) {
        return Err(InputNotValid);
      }
      if !WithinOneTwo(event) {
        return Err(InputNotValid);
      }
      if !table.Str? {
        return Err(InputInvalidType);
      }
      if !code.Str? {
        return Err(InputInvalidType);
      }
      var t := new SchemaTrigger.Init(timing, event, table.s, code.s);
      return Ok(t);
    }

    /** `getCode()`. */
    method GetCode() returns (c: string)
      ensures c == code
    {
      return code;
    }

    /** `getEvent()`. */
    method GetEvent() returns (e: Value)
      ensures e == event
      ensures Valid() ==> WithinOneTwo(e)
    {
      return event;
    }

    /** `getTable()`. */
    method GetTable() returns (t: string)
      ensures t == table
    {
      return table;
    }

    /** `getTiming()`. */
    method GetTiming() returns (t: Value)
      ensures t == timing
      ensures Valid() ==> WithinOneTwo(t)
    {
      return timing;
    }
  }
}
