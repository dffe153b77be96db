/**
 * Schema: a registry of tables, views and triggers under names that are
 * unique across all three. Components are recognised by class ancestry.
 */
module Schemas {
  import opened Errors
  import opened Php

  /** `isset($m[$k])`: the key is present and its value is not null. */
  predicate Holds(m: map<Key, Value>, k: Key) {
    k in m && m[k] != Null
  }

  /** The registry an item is routed to by the constructor, by its ancestry. */
  datatype Kind = TableItem | ViewItem | TriggerItem | OtherComponent | NotComponent

  function KindOf(item: Value): (k: Kind)
    ensures k == NotComponent <==> !IsSubclassOf(item, "SchemaComponentModel")
    ensures k == TableItem ==> IsSubclassOf(item, "SchemaTable")
    ensures k == ViewItem ==> IsSubclassOf(item, "SchemaView")
    ensures k == TriggerItem ==> IsSubclassOf(item, "SchemaTrigger")
    ensures k == OtherComponent ==>
              IsSubclassOf(item, "SchemaComponentModel") && !IsSubclassOf(item, "SchemaTable")
              && !IsSubclassOf(item, "SchemaView") && !IsSubclassOf(item, "SchemaTrigger")
  {
    if !IsSubclassOf(item, "SchemaComponentModel") then NotComponent
    else if IsSubclassOf(item, "SchemaTable") then TableItem
    else if IsSubclassOf(item, "SchemaView") then ViewItem
    else if IsSubclassOf(item, "SchemaTrigger") then TriggerItem
    else OtherComponent
  }

  /** The kinds the constructor adds; the others stop it. */
  predicate Routed(k: Kind) {
    k == TableItem || k == ViewItem || k == TriggerItem
  }

  /** An earlier table or trigger item of the array, which is stored, already has item `i`'s key. */
  predicate KeyTaken(es: seq<Entry>, i: int)
    requires 0 <= i < |es|
  {
    exists j :: 0 <= j < i && es[j].key == es[i].key && (KindOf(es[j].val) == TableItem || KindOf(es[j].val) == TriggerItem)
  }

  /** The error the constructor meets at item `i` once every item before it has been added. */
  function ItemError(es: seq<Entry>, i: int): (e: Option<ErrorCode>)
    requires 0 <= i < |es|
    ensures e.None? <==> Routed(KindOf(es[i].val)) && !KeyTaken(es, i)
  {
    if !Routed(KindOf(es[i].val)) then Some(InputInvalidType)
    else if KeyTaken(es, i) then Some(AlreadyExists)
    else None
  }

  /** No key occurs twice, as in every PHP array. */
  predicate DistinctKeys(es: seq<Entry>) {
    forall a, b :: 0 <= a < b < |es| ==> es[a].key != es[b].key
  }

  /** Whether an item fails depends only on the items before it. */
  lemma ItemErrorOfPrefix(es: seq<Entry>, n: int, i: int)
    requires 0 <= i < n <= |es|
    ensures ItemError(es[..n], i) == ItemError(es, i)
  {
    var front := es[..n];
    assert front[i] == es[i];
    if KeyTaken(front, i) {
      var j :| 0 <= j < i && front[j].key == front[i].key
               && (KindOf(front[j].val) == TableItem || KindOf(front[j].val) == TriggerItem);
      assert front[j] == es[j];
    }
    if KeyTaken(es, i) {
      var j :| 0 <= j < i && es[j].key == es[i].key
               && (KindOf(es[j].val) == TableItem || KindOf(es[j].val) == TriggerItem);
      assert front[j] == es[j];
    }
  }

  /** The first error the constructor meets from item `i` on, once the items before it are added. */
  function FirstErrorFrom(es: seq<Entry>, i: int): (e: Option<ErrorCode>)
    requires 0 <= i <= |es|
    ensures e.Some? ==> e.value == InputInvalidType || e.value == AlreadyExists
    decreases |es| - i
  {
    if i == |es| then None
    else if ItemError(es, i).Some? then ItemError(es, i)
    else FirstErrorFrom(es, i + 1)
  }

  /** The first error the constructor meets, if any. */
  function FirstError(es: seq<Entry>): Option<ErrorCode> {
    FirstErrorFrom(es, 0)
  }

  /** The registry the items of `kind` build, each added under its key in order. */
  function Stored(es: seq<Entry>, kind: Kind): map<Key, Value>
    decreases |es|
  {
    if es == [] then map[]
    else
      var m := Stored(es[..|es| - 1], kind);
      var last := es[|es| - 1];
      if KindOf(last.val) == kind then m[last.key := last.val] else m
  }

  /** The construction fails exactly at the first item that fails, with that item's error. */
  lemma {:induction false} FirstErrorIsFirst(es: seq<Entry>, i: int)
    requires 0 <= i <= |es|
    ensures FirstErrorFrom(es, i).None? <==> forall j :: i <= j < |es| ==> ItemError(es, j).None?
    ensures FirstErrorFrom(es, i).Some? ==>
              exists b :: i <= b < |es| && ItemError(es, b) == FirstErrorFrom(es, i)
                          && forall j :: i <= j < b ==> ItemError(es, j).None?
    decreases |es| - i
  {
    if i < |es| && ItemError(es, i).None? {
      FirstErrorIsFirst(es, i + 1);
      if FirstErrorFrom(es, i).Some? {
        var b :| i + 1 <= b < |es| && ItemError(es, b) == FirstErrorFrom(es, i + 1)
                 && forall j :: i + 1 <= j < b ==> ItemError(es, j).None?;
        assert forall j :: i <= j < b ==> ItemError(es, j).None?;
      }
    } else if i < |es| {
      assert ItemError(es, i) == FirstErrorFrom(es, i);
    }
  }

  /** An item that is not a table, view or trigger component makes construction fail. */
  lemma NonComponentFails(es: seq<Entry>, i: int)
    requires 0 <= i < |es| && !Routed(KindOf(es[i].val))
    ensures FirstError(es).Some?
  {
    FirstErrorIsFirst(es, 0);
    assert ItemError(es, i).Some?;
  }

  /** Components under distinct keys are all added. */
  lemma DistinctComponentsSucceed(es: seq<Entry>)
    requires DistinctKeys(es)
    requires forall i :: 0 <= i < |es| ==> Routed(KindOf(es[i].val))
    ensures FirstError(es).None?
  {
    FirstErrorIsFirst(es, 0);
    forall i | 0 <= i < |es|
      ensures ItemError(es, i).None?
    {
      assert !KeyTaken(es, i);
    }
  }

  /**
   * Once no item has failed, a registry holds exactly the items of its kind,
   * each under its own key.
   */
  lemma {:induction false} StoredExactly(es: seq<Entry>, kind: Kind)
    requires forall i :: 0 <= i < |es| ==> ItemError(es, i).None?
    requires kind == TableItem || kind == TriggerItem
    ensures forall k :: k in Stored(es, kind) <==> exists j :: 0 <= j < |es| && es[j].key == k && KindOf(es[j].val) == kind
    ensures forall j :: 0 <= j < |es| && KindOf(es[j].val) == kind ==>
              es[j].key in Stored(es, kind) && Stored(es, kind)[es[j].key] == es[j].val
    decreases |es|
  {
    if es != [] {
      var front := es[..|es| - 1];
      forall i | 0 <= i < |front|
        ensures ItemError(front, i).None?
      {
        ItemErrorOfPrefix(es, |front|, i);
      }
      StoredExactly(front, kind);
      var last := |es| - 1;
      assert ItemError(es, last).None?;
      forall j | 0 <= j < last && KindOf(es[j].val) == kind
        ensures es[j].key != es[last].key
      {
        if es[j].key == es[last].key {
          assert KeyTaken(es, last);
        }
      }
      forall k
        ensures k in Stored(es, kind) <==> exists j :: 0 <= j < |es| && es[j].key == k && KindOf(es[j].val) == kind
      {
        if k in Stored(front, kind) {
          var j :| 0 <= j < |front| && front[j].key == k && KindOf(front[j].val) == kind;
          assert es[j] == front[j];
        }
        if exists j :: 0 <= j < |es| && es[j].key == k && KindOf(es[j].val) == kind {
          var j :| 0 <= j < |es| && es[j].key == k && KindOf(es[j].val) == kind;
          if j < last {
            assert front[j] == es[j];
          }
        }
      }
      forall j | 0 <= j < |es| && KindOf(es[j].val) == kind
        ensures es[j].key in Stored(es, kind) && Stored(es, kind)[es[j].key] == es[j].val
      {
        if j < last {
          assert front[j] == es[j];
        }
      }
    }
  }

  /** The registries hold only component objects. */
  lemma {:induction false} StoredObjects(es: seq<Entry>, kind: Kind, k: Key)
    requires kind == TableItem || kind == TriggerItem
    requires k in Stored(es, kind)
    ensures Stored(es, kind)[k].Object?
    decreases |es|
  {
    var front := es[..|es| - 1];
    var last := es[|es| - 1];
    if !(KindOf(last.val) == kind && k == last.key) {
      StoredObjects(front, kind, k);
    }
  }

  /**
   * `addTrigger` as written: the trigger is stored under the name in the
   * tables map, as the undefined `$table`, that is null.
   */
  function AddTriggerAsWritten(tables: map<Key, Value>, name: Key): map<Key, Value> {
    tables[name := Null]
  }

  /** As written, a trigger added under a free name leaves the name free and stores no trigger. */
  lemma AddTriggerAsWrittenLosesTrigger(tables: map<Key, Value>, name: Key)
    ensures !Holds(AddTriggerAsWritten(tables, name), name)
    ensures name in AddTriggerAsWritten(tables, name)
  {
  }

  /** Adding trigger "audit" to an empty schema: as written the name is still free afterwards. */
  lemma AddTriggerFinding()
    ensures AddTriggerAsWritten(map[], StrKey("audit")) == map[StrKey("audit") := Null]
    ensures !Holds(AddTriggerAsWritten(map[], StrKey("audit")), StrKey("audit"))
  {
  }

  class Schema {
    var tables: map<Key, Value>
    var views: map<Key, Value>
    var triggers: map<Key, Value>

    /** Every entry is an object, and no name is registered twice. */
    predicate Valid()
      reads this
    {
      (forall k :: k in tables ==> tables[k].Object? && k !in views && k !in triggers)
      && (forall k :: k in views ==> views[k].Object? && k !in triggers)
      && (forall k :: k in triggers ==> triggers[k].Object?)
    }

    /** `nameExists($name)`: the name is set in one of the three registries. */
    predicate NameExists(name: Key)
      reads this
    {
      Holds(tables, name) || Holds(views, name) || Holds(triggers, name)
    }

    constructor Init()
      ensures tables == map[] && views == map[] && triggers == map[]
      ensures Valid()
    {
      tables := map[];
      views := map[];
      triggers := map[];
    }

    /** `nameExists($name)`: in a valid schema, the name is a key of one of the registries. */
    method Exists(name: Key) returns (b: bool)
      ensures b <==> NameExists(name)
      ensures Valid() ==> (b <==> name in tables || name in views || name in triggers)
    {
      b := Holds(tables, name) || Holds(views, name) || Holds(triggers, name);
    }

    /** `nameAvailable($name)`: the name is in none of the registries. */
    method Available(name: Key) returns (b: bool)
      ensures b <==> !NameExists(name)
      ensures Valid() ==> (b <==> name !in tables && name !in views && name !in triggers)
    {
      var taken := Exists(name);
      b := !taken;
    }

    /**
     * `addTable($table, $name)`: a table stored under a free name; the other
     * registries and the other names are untouched.
     */
    method AddTable(table: Value, name: Key) returns (r: Result<()>)
      modifies this
      ensures !IsSubclassOf(table, "SchemaTable") ==> r == Err(InputInvalidType)
      ensures IsSubclassOf(table, "SchemaTable") && old(NameExists(name)) ==> r == Err(AlreadyExists)
      ensures IsSubclassOf(table, "SchemaTable") && !old(NameExists(name)) ==> r == Ok(())
      ensures r.Err? ==> unchanged(this)
      ensures r.Ok? ==> tables == old(tables)[name := table] && views == old(views) && triggers == old(triggers)
      ensures r.Ok? ==> NameExists(name)
      ensures old(Valid()) ==> Valid()
    {
      if !IsSubclassOf(table, "SchemaTable") {
        return Err(InputInvalidType);
      }
      var free := Available(name);
      if !free {
        return Err(AlreadyExists);
      }
      tables := tables[name := table];
      return Ok(());
    }

    /**
     * `addTrigger($trigger, $name)` as intended: the trigger stored under a
     * free name in the triggers registry.
     */
    method AddTrigger(trigger: Value, name: Key) returns (r: Result<()>)
      modifies this
      ensures !IsSubclassOf(trigger, "SchemaTrigger") ==> r == Err(InputInvalidType)
      ensures IsSubclassOf(trigger, "SchemaTrigger") && old(NameExists(name)) ==> r == Err(AlreadyExists)
      ensures IsSubclassOf(trigger, "SchemaTrigger") && !old(NameExists(name)) ==> r == Ok(())
      ensures r.Err? ==> unchanged(this)
      ensures r.Ok? ==> triggers == old(triggers)[name := trigger] && tables == old(tables) && views == old(views)
      ensures r.Ok? ==> NameExists(name)
      ensures old(Valid()) ==> Valid()
    {
      if !IsSubclassOf(trigger, "SchemaTrigger") {
        return Err(InputInvalidType);
      }
      var free := Available(name);
      if !free {
        return Err(AlreadyExists);
      }
      triggers := triggers[name := trigger];
      return Ok(());
    }

    /**
     * `addView($view, $name)`: checked like the others, but nothing is
     * stored, so the name stays free.
     */
    method AddView(view: Value, name: Key) returns (r: Result<()>)
      modifies this
      ensures !IsSubclassOf(view, "SchemaView") ==> r == Err(InputInvalidType)
      ensures IsSubclassOf(view, "SchemaView") && old(NameExists(name)) ==> r == Err(AlreadyExists)
      ensures IsSubclassOf(view, "SchemaView") && !old(NameExists(name)) ==> r == Ok(())
      ensures unchanged(this)
    {
      if !IsSubclassOf(view, "SchemaView") {
        return Err(InputInvalidType);
      }
      var free := Available(name);
      if !free {
        return Err(AlreadyExists);
      }
      return Ok(());
    }

    /** While the items before `i` are added, item `i`'s key is registered exactly when an earlier item took it. */
    static lemma TakenIsRegistered(s: Schema, es: seq<Entry>, i: int)
      requires 0 <= i < |es| && s.views == map[]
      requires forall j :: 0 <= j < i ==> ItemError(es, j).None?
      requires s.tables == Stored(es[..i], TableItem) && s.triggers == Stored(es[..i], TriggerItem)
      ensures s.NameExists(es[i].key) <==> KeyTaken(es, i)
    {
      var front := es[..i];
      forall j | 0 <= j < i
        ensures ItemError(front, j).None?
      {
        ItemErrorOfPrefix(es, i, j);
      }
      StoredExactly(front, TableItem);
      StoredExactly(front, TriggerItem);
      var key := es[i].key;
      if KeyTaken(es, i) {
        var j :| 0 <= j < i && es[j].key == key && (KindOf(es[j].val) == TableItem || KindOf(es[j].val) == TriggerItem);
        assert front[j] == es[j];
        if KindOf(es[j].val) == TableItem {
          StoredObjects(front, TableItem, key);
        } else {
          StoredObjects(front, TriggerItem, key);
        }
      }
      if s.NameExists(key) {
        if key in s.tables {
          var j :| 0 <= j < |front| && front[j].key == key && KindOf(front[j].val) == TableItem;
          assert es[j] == front[j];
        } else {
          var j :| 0 <= j < |front| && front[j].key == key && KindOf(front[j].val) == TriggerItem;
          assert es[j] == front[j];
        }
      }
    }

    /**
     * `new Schema($items)`: an array whose items are added in order, each by
     * its kind under its own key; an item that is not a table, view or
     * trigger component, or whose key is taken, stops construction.
     */
    static method New(items: Value) returns (r: Result<Schema>)
      ensures !items.Arr? ==> r == Err(InputInvalidType)
      ensures items.Arr? ==> (r.Ok? <==> FirstError(items.entries).None?)
      ensures items.Arr? && r.Err? ==> r.error == FirstError(items.entries).value
      ensures r.Ok? ==> items.Arr? && fresh(r.value) && r.value.Valid() && r.value.views == map[]
      ensures r.Ok? ==> r.value.tables == Stored(items.entries, TableItem)
      ensures r.Ok? ==> r.value.triggers == Stored(items.entries, TriggerItem)
    {
      if !items.Arr? {
        return Err(InputInvalidType);
      }
      var es := items.entries;
      var s := new Schema.Init();
      var i := 0;
      while i < |es|
        invariant 0 <= i <= |es|
        invariant fresh(s) && s.Valid() && s.views == map[]
        invariant FirstError(es) == FirstErrorFrom(es, i)
        invariant forall j :: 0 <= j < i ==> ItemError(es, j).None?
        invariant s.tables == Stored(es[..i], TableItem) && s.triggers == Stored(es[..i], TriggerItem)
      {
        var item, key := es[i].val, es[i].key;
        var kind := KindOf(item);
        if !Routed(kind) {
          return Err(InputInvalidType);
        }
        TakenIsRegistered(s, es, i);
        var added: Result<()>;
        if kind == TableItem {
          added := s.AddTable(item, key);
        } else if kind == ViewItem {
          added := s.AddView(item, key);
        } else {
          added := s.AddTrigger(item, key);
        }
        if added.Err? {
          return Err(added.error);
        }
        assert es[..i + 1][..i] == es[..i];
        i := i + 1;
      }
      assert es[..i] == es;
      return Ok(s);
    }
  }
}
