/** The metadata store as the object that the rest of the framework calls. */
module ReflectStore {
  import opened Prelude
  import opened ReflectSpec
  import opened ReflectHistory

  class Reflect {
    var objects: map<Ref, Content>
    var next: Ref
    var tables: map<TableRef, map<Key, Value>>
    var nextLayer: nat
    var meta: Layer
    var saved: seq<Layer>

    function Heap(): State
      reads this
    {
      State(objects, next, tables, nextLayer, meta, saved)
    }

    ghost predicate Valid()
      reads this
    {
      WellFormed(Heap())
    }

    constructor ()
      ensures Valid() && meta.tables == map[] && saved == []
    {
      objects, next, tables, nextLayer, meta, saved := map[], 0, map[], 1, Layer(0, map[]), [];
    }

    /** `_get_or_create_metadata(target)`. */
    method GetOrCreateMetadata(t: Target, create: bool) returns (table: Option<TableRef>)
      requires Valid()
      modifies this
      ensures Heap() == if create then WithTable(old(Heap()), t) else old(Heap())
      ensures table == if t in meta.tables then Some(meta.tables[t]) else None
      ensures create ==> t in meta.tables
    {
      if t in meta.tables {
        return Some(meta.tables[t]);
      }
      if create {
        var made := TableRef(meta.id, t);
        tables := tables[made := map[]];
        meta := Layer(meta.id, meta.tables[t := made]);
        return Some(made);
      }
      return None;
    }

    method NewCollection(c: Content) returns (r: Ref)
      requires Valid()
      modifies this
      ensures Heap() == Allocate(old(Heap()), c) && r == old(next)
    {
      r := next;
      objects, next := objects[r := c], next + 1;
    }

    method DefineMetadata(k: Key, v: Value, t: Target)
      requires Valid() && Legal(Heap(), Define(t, k, v))
      modifies this
      ensures Valid() && Heap() == Next(old(Heap()), Define(t, k, v))
    {
      ghost var before := Heap();
      EveryStepKeepsWellFormed(before, Define(t, k, v));
      WithTableOk(before, t);
      var found := GetOrCreateMetadata(t, true);
      var table := found.value;
      WithTableKeeps(before, t);
      ghost var s := Heap();
      var stored := v;
      if k in tables[table] && tables[table][k].Obj? && v.Obj? {
        var r := tables[table][k].ref;
        var existing, added := objects[r], objects[v.ref];
        if Combines(existing, added) {
          var combined := Combine(existing, added);
          if existing.DictOf? {
            objects := objects[r := combined];
          }
          objects, next, stored := objects[next := combined], next + 1, Obj(next);
        }
      }
      tables := tables[table := tables[table][k := stored]];
      assert Heap() == DefineIn(s, t, k, v);
    }

    method HasMetadata(k: Key, t: Target) returns (found: bool)
      requires Valid()
      modifies this
      ensures Heap() == old(Heap())
      ensures found <==> k in TableOf(Heap(), t)
    {
      var table := GetOrCreateMetadata(t, false);
      found := table.Some? && k in tables[table.value];
    }

    /** A collection is handed out as a copy. */
    method GetMetadata(k: Key, t: Target) returns (v: Value)
      requires Valid()
      modifies this
      ensures Valid() && Heap() == Next(old(Heap()), Get(t, k))
      ensures See(objects, v) == See(old(objects), ValueAt(old(Heap()), t, k))
      ensures v.Obj? ==> v.ref == old(next)
    {
      EveryStepKeepsWellFormed(Heap(), Get(t, k));
      var table := GetOrCreateMetadata(t, false);
      if table.None? || k !in tables[table.value] {
        return NoneValue;
      }
      v := tables[table.value][k];
      if v.Obj? {
        var copy := NewCollection(objects[v.ref]);
        v := Obj(copy);
      }
    }

    method DeleteMetadata(k: Key, t: Target)
      requires Valid()
      modifies this
      ensures Valid() && Heap() == Next(old(Heap()), Delete(t, k))
    {
      EveryStepKeepsWellFormed(Heap(), Delete(t, k));
      ghost var before := Heap();
      var table := GetOrCreateMetadata(t, false);
      if table.Some? && k in tables[table.value] {
        tables := tables[table.value := tables[table.value] - {k}];
      }
      assert table.Some? && k !in before.tables[table.value] ==>
          before.tables[table.value] - {k} == before.tables[table.value];
      assert tables == Removed(before, t, k).tables;
    }

    /** `_clone_meta_data`: a new store dictionary, each inner dictionary copied into it in turn. */
    method CloneMetaData() returns (clone: Layer)
      requires LayerOk(Heap(), meta)
      modifies this`tables, this`nextLayer
      ensures Heap().(meta := clone) == CloneOf(old(Heap()))
    {
      ghost var before := Heap();
      var id, items, copies := nextLayer, meta.tables, tables;
      clone := Layer(id, map[]);
      var rest := items.Keys;
      ghost var done: set<Target> := {};
      while rest != {}
        invariant rest <= items.Keys && done + rest == items.Keys
        invariant CloneBuilt(before, done, id, clone, copies)
      {
        SomeTarget(rest);
        var t :| t in rest;
        CopyOneMore(before, done, t, id, clone, copies);
        copies := copies[TableRef(id, t) := copies[items[t]]];
        clone := Layer(id, clone.tables[t := TableRef(id, t)]);
        rest, done := rest - {t}, done + {t};
      }
      nextLayer, tables := id + 1, copies;
    }

    method EnterContext()
      requires Valid()
      modifies this
      ensures Valid() && Heap() == Next(old(Heap()), Enter)
    {
      EveryStepKeepsWellFormed(Heap(), Enter);
      var cached := meta;
      var clone := CloneMetaData();
      meta := clone;
      saved := [cached] + saved;
    }

    method ExitContext()
      requires Valid() && saved != []
      modifies this
      ensures Valid() && Heap() == Next(old(Heap()), Exit)
    {
      EveryStepKeepsWellFormed(Heap(), Exit);
      meta := Layer(meta.id, map[]);
      meta, saved := saved[0], saved[1..];
    }
  }

  lemma SomeTarget(targets: set<Target>)
    requires targets != {}
    ensures exists t :: t in targets
  {
    if forall t :: t !in targets {
      assert false;
    }
  }

  ghost predicate CloneBuilt(
      s: State, targets: set<Target>, id: nat, clone: Layer, tables: map<TableRef, map<Key, Value>>) {
    clone == LayerFor(targets, id) && tables == s.tables + CopiedTables(s, targets, id)
  }

  lemma CopyOneMore(
      s: State, targets: set<Target>, t: Target, id: nat, clone: Layer, tables: map<TableRef, map<Key, Value>>)
    requires LayerOk(s, s.meta) && t in s.meta.tables && s.nextLayer == id && CloneBuilt(s, targets, id, clone, tables)
    ensures s.meta.tables[t] in tables
    ensures CloneBuilt(s, targets + {t}, id,
                       Layer(id, clone.tables[t := TableRef(id, t)]),
                       tables[TableRef(id, t) := tables[s.meta.tables[t]]])
  {
    assert LayerFor(targets + {t}, id) == Layer(id, LayerFor(targets, id).tables[t := TableRef(id, t)]);
    assert CopiedTables(s, targets + {t}, id) == CopiedTables(s, targets, id)[TableRef(id, t) := TableOf(s, t)];
    assert tables[s.meta.tables[t]] == TableOf(s, t);
  }
}
