/**
 * The DatabaseConditionModel object: the structure it was given, the
 * statement compiled from it, and the `add`/`del` operations that change the
 * structure in place.
 *
 * `parse` is written here the way the class runs it: a loop over the
 * block's elements that appends each element's statement piece and copies
 * its arguments one at a time, recursing into groups. Each method is proved
 * equal to the compiler functions of module Conditions, whose properties are
 * proved there.
 */
module ConditionModel {
  import opened Errors
  import opened Php
  import opened Grammars
  import opened Conditions

  class DatabaseConditionModel {
    /** `$dbmsGrammarTable`: empty here, filled in by a DBMS-specific subclass. */
    const dbmsGrammarTable: Table
    var structure: seq<Entry>
    var statement: Fragment

    /** The statement binds one argument for each of its placeholders. */
    predicate Valid()
      reads this
    {
      Placeholders(statement.stmt) == |statement.args|
    }

    constructor Init(dbms: Table, structure: seq<Entry>, statement: Fragment)
      ensures dbmsGrammarTable == dbms && this.structure == structure && this.statement == statement
    {
      dbmsGrammarTable := dbms;
      this.structure := structure;
      this.statement := statement;
    }

    /**
     * `new DatabaseConditionModel($struct)`: the structure is stored and
     * compiled as a top-level AND block. `parse` declares an array
     * parameter, so anything else is an engine error; a compile error
     * propagates out of the constructor.
     */
    static method New(dbms: Table, struct: Value) returns (r: Result<DatabaseConditionModel>)
      ensures !struct.Arr? ==> r == Err(EngineError)
      ensures struct.Arr? ==> (r.Ok? <==> CompileStructure(dbms, struct.entries).Ok?)
      ensures struct.Arr? && r.Err? ==> r.error == CompileStructure(dbms, struct.entries).error
      ensures r.Ok? ==> fresh(r.value) && r.value.dbmsGrammarTable == dbms && r.value.structure == struct.entries
                        && r.value.statement == CompileStructure(dbms, struct.entries).value
      ensures r.Ok? && WellFormed(dbms) ==> r.value.Valid()
    {
      if !struct.Arr? {
        return Err(EngineError);
      }
      var f := Parse(dbms, struct.entries, And, false);
      if f.Err? {
        return Err(f.error);
      }
      if WellFormed(dbms) {
        CompileParity(dbms, struct.entries, And, false);
      }
      var c := new DatabaseConditionModel.Init(dbms, struct.entries, f.value);
      return Ok(c);
    }

    /**
     * `parse($array, $encap)`: every element in turn, a group compiled in
     * its own parentheses and a leaf from its template; a `*` element ends
     * the block with an empty statement.
     */
    static method Parse(dbms: Table, es: seq<Entry>, joiner: Joiner, encap: bool) returns (r: Result<Fragment>)
      ensures r == Compile(dbms, es, joiner, encap)
      decreases es, 1
    {
      var pieces: seq<string> := [];
      var args: seq<Value> := [];
      var i := 0;
      while i < |es|
        invariant 0 <= i <= |es|
        invariant CompileFrom(dbms, es, joiner, [], []) == CompileFrom(dbms, es[i..], joiner, pieces, args)
      {
        var e := es[i];
        assert es[i..][0] == e && es[i..][1..] == es[i + 1..];
        assert e.val < e;
        match e.val {
          case Arr(children) =>
            var f := ParseElement(dbms, children);
            if f.Err? {
              return Err(f.error);
            }
            pieces := pieces + [f.value.stmt];
            args := AppendArgs(args, f.value.args);
          case Str(s) =>
            if s == "*" {
              return Ok(Fragment(Encap("", encap), []));
            }
          case _ =>
            return Err(InputInvalidType);
        }
        i := i + 1;
      }
      return Ok(Fragment(Encap(Implode(JoinText(joiner), pieces), encap), args));
    }

    /** An array element: a group when its `%` names a combinator, else a leaf. */
    static method ParseElement(dbms: Table, children: seq<Entry>) returns (r: Result<Fragment>)
      ensures r == CompileElement(dbms, children)
      decreases children, 2
    {
      match GroupJoiner(children) {
        case Some(j) =>
          r := Parse(dbms, children, j, true);
        case None =>
          r := ParseLeaf(dbms, children);
      }
    }

    /**
     * A leaf: the checks, the operator's template, and the loop that reads
     * the template's argument names from the leaf in order.
     */
    static method ParseLeaf(dbms: Table, leaf: seq<Entry>) returns (r: Result<Fragment>)
      ensures r == CompileLeaf(dbms, leaf)
    {
      var check := CheckLeaf(leaf);
      if check.Err? {
        return Err(check.error);
      }
      var withSet := WithSetString(dbms, leaf);
      if withSet.Err? {
        return Err(withSet.error);
      }
      var full := withSet.value;
      var op := OperatorOf(Get(leaf, StrKey("type")));
      if op.None? {
        return Err(InputNotValid);
      }
      var grammar := Resolve(dbms, ConditionTable, EntryKey(op.value));
      if !(grammar.Some? && grammar.value.Operator?) {
        return Err(MissingDefinition);
      }
      var args :- ReadArgs(full, grammar.value.args);
      return Ok(Fragment(grammar.value.stmt, args));
    }

    /** The loop that copies an element's arguments onto the block's, one by one. */
    static method AppendArgs(args: seq<Value>, more: seq<Value>) returns (r: seq<Value>)
      ensures r == args + more
    {
      r := args;
      var j := 0;
      while j < |more|
        invariant 0 <= j <= |more|
        invariant r == args + more[..j]
      {
        r := r + [more[j]];
        j := j + 1;
        assert more[..j] == more[..j - 1] + [more[j - 1]];
      }
      assert more[..j] == more;
    }

    /**
     * The loop over a template's argument names: each name's field in turn,
     * and MISSING_REQUIRED_ARGUMENT at the first one that is not set.
     */
    static method ReadArgs(leaf: seq<Entry>, names: seq<string>) returns (r: Result<seq<Value>>)
      ensures r == LeafArgs(leaf, names)
    {
      var args: seq<Value> := [];
      var j := 0;
      while j < |names|
        invariant 0 <= j <= |names|
        invariant LeafArgs(leaf, names[..j]) == Ok(args)
      {
        var k := KeyOf(names[j]);
        assert names[..j + 1][..j] == names[..j];
        if !IsSet(leaf, k) {
          assert !IsSet(leaf, KeyOf(names[..j + 1][j]));
          LeafArgsPrefix(leaf, names, j + 1);
          return Err(MissingRequiredArgument);
        }
        args := args + [Get(leaf, k)];
        j := j + 1;
      }
      assert names[..j] == names;
      return Ok(args);
    }

    /**
     * `add($rule)`: the rule is merged in front of the structure, duplicates
     * dropped, and the statement recompiled. The structure is replaced even
     * when the new statement fails to compile; the statement then stays.
     */
    method Add(rule: Value) returns (r: Result<()>)
      modifies this
      ensures !rule.Arr? ==> r == Err(InputInvalidType) && structure == old(structure) && statement == old(statement)
      ensures rule.Arr? ==> structure == ArrayUnique(ArrayMerge(rule.entries, old(structure)))
      ensures rule.Arr? && CompileStructure(dbmsGrammarTable, structure).Ok?
              ==> r == Ok(()) && statement == CompileStructure(dbmsGrammarTable, structure).value
      ensures rule.Arr? && CompileStructure(dbmsGrammarTable, structure).Err?
              ==> r == Err(CompileStructure(dbmsGrammarTable, structure).error) && statement == old(statement)
      ensures old(Valid()) && WellFormed(dbmsGrammarTable) ==> Valid()
    {
      if !rule.Arr? {
        return Err(InputInvalidType);
      }
      structure := ArrayUnique(ArrayMerge(rule.entries, structure));
      var f := Parse(dbmsGrammarTable, structure, And, false);
      if f.Err? {
        return Err(f.error);
      }
      if WellFormed(dbmsGrammarTable) {
        CompileParity(dbmsGrammarTable, structure, And, false);
      }
      statement := f.value;
      return Ok(());
    }

    /**
     * `del($rule)`: the structure's entries whose value is one of the rule's
     * are removed; the statement is not recompiled.
     */
    method Del(rule: Value) returns (r: Result<()>)
      modifies this
      ensures !rule.Arr? ==> r == Err(InputInvalidType) && structure == old(structure)
      ensures rule.Arr? ==> r == Ok(()) && structure == ArrayDiff(old(structure), rule.entries)
      ensures statement == old(statement)
    {
      if !rule.Arr? {
        return Err(InputInvalidType);
      }
      structure := ArrayDiff(structure, rule.entries);
      return Ok(());
    }

    /** `getStatement()`. */
    method GetStatement() returns (s: Fragment)
      ensures s == statement
    {
      return statement;
    }

    /** `getStructure()`. */
    method GetStructure() returns (s: seq<Entry>)
      ensures s == structure
    {
      return structure;
    }
  }

  /** A failing name within the first `n` makes the whole list fail. */
  lemma LeafArgsPrefix(leaf: seq<Entry>, names: seq<string>, n: nat)
    requires n <= |names|
    requires LeafArgs(leaf, names[..n]).Err?
    ensures LeafArgs(leaf, names) == Err(MissingRequiredArgument)
  {
    var i :| 0 <= i < n && !IsSet(leaf, KeyOf(names[..n][i]));
    assert names[..n][i] == names[i];
  }

  /** Merging two lists keeps every value, the first list's first. */
  lemma MergeLists(a: seq<Entry>, b: seq<Entry>)
    requires IsList(a) && IsList(b)
    ensures Values(ArrayMerge(a, b)) == Values(a) + Values(b)
  {
    var both := a + b;
    assert IsList(both) by {
      forall i | 0 <= i < |both|
        ensures both[i].key.IntKey?
      {
        if i >= |a| {
          assert both[i] == b[i - |a|];
        }
      }
    }
    MergeListValues([], both, 0);
    assert Values(both) == Values(a) + Values(b);
  }

  /** Distinctness depends on the values alone. */
  lemma DistinctByValues(a: seq<Entry>, b: seq<Entry>)
    requires Values(a) == Values(b) && DistinctValues(a)
    ensures DistinctValues(b)
  {
    forall i, j | 0 <= i < j < |b|
      ensures b[i].val != b[j].val
    {
      assert Values(a)[i] == Values(b)[i] && Values(a)[j] == Values(b)[j];
    }
  }

  lemma ValuesSplit(m: seq<Entry>, k: nat)
    requires k <= |m|
    ensures Values(m[..k]) == Values(m)[..k] && Values(m[k..]) == Values(m)[k..]
  {
  }

  /** Removing the values of `b` from entries with the same values leaves nothing. */
  lemma DiffOwn(a: seq<Entry>, b: seq<Entry>)
    requires Values(a) == Values(b)
    ensures ArrayDiff(a, b) == []
  {
    forall i | 0 <= i < |a|
      ensures a[i].val in Values(b)
    {
      assert Values(a)[i] == a[i].val;
    }
    DiffRemovesAll(a, b);
  }

  /** In distinct entries, the values after the first `|rule|` are none of `rule`'s. */
  lemma DiffBack(m: seq<Entry>, rule: seq<Entry>)
    requires |rule| <= |m| && Values(m)[..|rule|] == Values(rule)
    requires DistinctValues(m)
    ensures ArrayDiff(m[|rule|..], rule) == m[|rule|..]
  {
    var back := m[|rule|..];
    forall i | 0 <= i < |back|
      ensures back[i].val !in Values(rule)
    {
      assert m[|rule| + i] == back[i];
    }
    DiffKeepsAll(back, rule);
  }

  /** Removing the values of `rule` from rule-then-structure leaves the structure's values. */
  lemma DiffFront(m: seq<Entry>, rule: seq<Entry>, structure: seq<Entry>)
    requires Values(m) == Values(rule) + Values(structure)
    requires DistinctValues(m)
    ensures Values(ArrayDiff(m, rule)) == Values(structure)
  {
    var front, back := m[..|rule|], m[|rule|..];
    assert m == front + back;
    ValuesSplit(m, |rule|);
    DiffAppend(front, back, rule);
    DiffOwn(front, rule);
    DiffBack(m, rule);
  }

  /**
   * Deleting a rule just added gives back the structure's values in order,
   * when structure and rule are lists whose values are all different.
   */
  lemma {:induction false} DelUndoesAdd(structure: seq<Entry>, rule: seq<Entry>)
    requires IsList(rule) && IsList(structure)
    requires DistinctValues(rule + structure)
    ensures Values(ArrayDiff(ArrayUnique(ArrayMerge(rule, structure)), rule)) == Values(structure)
  {
    var m := ArrayMerge(rule, structure);
    MergeLists(rule, structure);
    assert Values(rule + structure) == Values(rule) + Values(structure);
    DistinctByValues(rule + structure, m);
    UniqueDistinctValues([], m);
    DiffFront(m, rule, structure);
  }

  /** So the statement compiled after `add` and then `del` of the same rule is the original one. */
  lemma DelUndoesAddStatement(dbms: Table, structure: seq<Entry>, rule: seq<Entry>)
    requires IsList(rule) && IsList(structure)
    requires DistinctValues(rule + structure)
    ensures CompileStructure(dbms, ArrayDiff(ArrayUnique(ArrayMerge(rule, structure)), rule))
            == CompileStructure(dbms, structure)
  {
    DelUndoesAdd(structure, rule);
    CompileValues(dbms, ArrayDiff(ArrayUnique(ArrayMerge(rule, structure)), rule), structure, And, false);
  }
}
