/**
 The metadata store over an explicit heap: collections and the inner dictionaries
 are objects with identity, and a context keeps references to them.
 */
module ReflectSpec {

  type Target = int
  type Key = int
  type Ref = nat

  datatype Content =
    | ListOf(items: seq<int>)
    | TupleOf(items: seq<int>)
    | SetOf(elements: set<int>)
    | DictOf(entries: map<int, int>)

  datatype Value = NoneValue | Scalar(value: int) | Obj(ref: Ref)

  /** An inner dictionary, named by the store dictionary and the target it was made for. */
  datatype TableRef = TableRef(store: nat, target: Target)

  /** A store dictionary: its identity, and the inner dictionary of each target. */
  datatype Layer = Layer(id: nat, tables: map<Target, TableRef>)

  datatype State = State(
    objects: map<Ref, Content>,
    next: Ref,
    tables: map<TableRef, map<Key, Value>>,
    nextLayer: nat,
    meta: Layer,
    saved: seq<Layer>)

  ghost predicate LayerOk(s: State, layer: Layer) {
    && layer.id < s.nextLayer
    && forall t :: t in layer.tables ==> layer.tables[t] == TableRef(layer.id, t) && layer.tables[t] in s.tables
  }

  /** References lead to objects that exist. */
  ghost predicate Sound(s: State) {
    && (forall r :: r in s.objects ==> r < s.next)
    && (forall table :: table in s.tables ==> table.store < s.nextLayer)
    && (forall table, k :: table in s.tables && k in s.tables[table] && s.tables[table][k].Obj? ==>
          s.tables[table][k].ref in s.objects)
  }

  /** No two store dictionaries are one, nor share an inner dictionary. */
  ghost predicate WellFormed(s: State) {
    && Sound(s)
    && LayerOk(s, s.meta)
    && (forall i :: 0 <= i < |s.saved| ==> LayerOk(s, s.saved[i]) && s.saved[i].id != s.meta.id)
    && (forall i, j :: 0 <= i < j < |s.saved| ==> s.saved[i].id != s.saved[j].id)
  }

  // ----- what is seen -----

  datatype Seen = Nothing | ScalarSeen(value: int) | Collection(content: Content)

  type View = map<Target, map<Key, Seen>>

  function See(objects: map<Ref, Content>, v: Value): Seen {
    match v
    case NoneValue => Nothing
    case Scalar(x) => ScalarSeen(x)
    case Obj(r) => if r in objects then Collection(objects[r]) else Nothing
  }

  /** The nested map that a store dictionary shows, every reference followed. */
  ghost predicate IsView(s: State, layer: Layer, view: View)
    requires LayerOk(s, layer)
  {
    && view.Keys == layer.tables.Keys
    && (forall t :: t in view ==> view[t].Keys == s.tables[layer.tables[t]].Keys)
    && forall t, k :: t in view && k in view[t] ==> view[t][k] == See(s.objects, s.tables[layer.tables[t]][k])
  }

  /** What every layer shows: the current store, then the ones that contexts will restore, innermost first. */
  datatype Stack = Stack(top: View, below: seq<View>)

  ghost predicate Shows(s: State, stack: Stack)
    requires WellFormed(s)
  {
    && IsView(s, s.meta, stack.top)
    && |stack.below| == |s.saved|
    && forall i :: 0 <= i < |s.saved| ==> IsView(s, s.saved[i], stack.below[i])
  }

  // ----- merging -----

  function Combine(existing: Content, added: Content): Content {
    if existing.ListOf? && (added.ListOf? || added.TupleOf?) then ListOf(existing.items + added.items)
    else if existing.TupleOf? && (added.ListOf? || added.TupleOf?) then TupleOf(existing.items + added.items)
    else if existing.SetOf? && added.SetOf? then SetOf(existing.elements + added.elements)
    else if existing.DictOf? && added.DictOf? then DictOf(existing.entries + added.entries)
    else added
  }

  /** Whether the two values are combined into a new object, or the new one replaces the old. */
  function Combines(existing: Content, added: Content): bool {
    || ((existing.ListOf? || existing.TupleOf?) && (added.ListOf? || added.TupleOf?))
    || (existing.SetOf? && added.SetOf?)
    || (existing.DictOf? && added.DictOf?)
  }

  function Merge(existing: Seen, added: Seen): Seen {
    if existing.Collection? && added.Collection? then Collection(Combine(existing.content, added.content)) else added
  }

  // ----- steps -----

  datatype Step =
    | NewObject(content: Content)
    | Mutate(ref: Ref, content: Content)
    | Define(target: Target, key: Key, value: Value)
    | Delete(target: Target, key: Key)
    | Get(target: Target, key: Key)
    | Enter
    | Exit

  function TableOf(s: State, t: Target): map<Key, Value> {
    if t in s.meta.tables && s.meta.tables[t] in s.tables then s.tables[s.meta.tables[t]] else map[]
  }

  /** `target_metadata.get(key)` in the current store, `None` when there is no such key. */
  function ValueAt(s: State, t: Target, k: Key): Value {
    if k in TableOf(s, t) then TableOf(s, t)[k] else NoneValue
  }

  /** `_get_or_create_metadata(target, create=True)`. */
  function WithTable(s: State, t: Target): State {
    if t in s.meta.tables then s
    else
      var table := TableRef(s.meta.id, t);
      s.(meta := Layer(s.meta.id, s.meta.tables[t := table]), tables := s.tables[table := map[]])
  }

  function Store(s: State, t: Target, k: Key, v: Value): State
    requires t in s.meta.tables && s.meta.tables[t] in s.tables
  {
    var table := s.meta.tables[t];
    var entries: map<Key, Value> := s.tables[table][k := v];
    s.(tables := s.tables[table := entries])
  }

  function Allocate(s: State, c: Content): State {
    s.(objects := s.objects[s.next := c], next := s.next + 1)
  }

  function Overwrite(s: State, r: Ref, c: Content): State {
    s.(objects := s.objects[r := c])
  }

  /**
   `define_metadata`: collections of a kind are combined into a new object; a stored
   dict is also updated in place before it is copied; anything else is replaced.
   */
  function DefineIn(s: State, t: Target, k: Key, v: Value): State
    requires t in s.meta.tables && s.meta.tables[t] in s.tables
  {
    var existing, added := See(s.objects, ValueAt(s, t, k)), See(s.objects, v);
    if existing.Collection? && added.Collection? && Combines(existing.content, added.content) then
      var combined := Combine(existing.content, added.content);
      var s1 := if existing.content.DictOf? then Overwrite(s, ValueAt(s, t, k).ref, combined) else s;
      Store(Allocate(s1, combined), t, k, Obj(s.next))
    else Store(s, t, k, v)
  }

  function LayerFor(targets: set<Target>, id: nat): Layer {
    Layer(id, map t | t in targets :: TableRef(id, t))
  }

  function CopiedTables(s: State, targets: set<Target>, id: nat): map<TableRef, map<Key, Value>> {
    map table | table in (set t | t in targets :: TableRef(id, t)) :: TableOf(s, table.target)
  }

  /** `_clone_meta_data`: a new store dictionary with a copy of every inner dictionary. */
  function CloneOf(s: State): State {
    s.(tables := s.tables + CopiedTables(s, s.meta.tables.Keys, s.nextLayer),
    nextLayer := s.nextLayer + 1,
    meta := LayerFor(s.meta.tables.Keys, s.nextLayer))
  }

  /** Values passed in are objects that exist; tuples and kinds cannot be changed in place. */
  ghost predicate Legal(s: State, step: Step) {
    match step
    case NewObject(c) => true
    case Mutate(r, c) => r in s.objects && !c.TupleOf? && SameKind(s.objects[r], c)
    case Define(t, k, v) => v.Obj? ==> v.ref in s.objects
    case Delete(t, k) => true
    case Get(t, k) => true
    case Enter => true
    case Exit => s.saved != []
  }

  predicate SameKind(a: Content, b: Content) {
    a.ListOf? == b.ListOf? && a.TupleOf? == b.TupleOf? && a.SetOf? == b.SetOf?
  }

  ghost function After(s: State, step: Step): State
    requires WellFormed(s) && Legal(s, step)
  {
    match step
    case NewObject(c) => Allocate(s, c)
    case Mutate(r, c) => Overwrite(s, r, c)
    case Define(t, k, v) => WithTableOk(s, t); DefineIn(WithTable(s, t), t, k, v)
    case Delete(t, k) => Removed(s, t, k)
    case Get(t, k) => Copied(s, t, k)
    case Enter => CloneOf(s).(saved := [s.meta] + s.saved)
    case Exit => s.(meta := s.saved[0], saved := s.saved[1..])
  }

  /** `delete_metadata`. */
  function Removed(s: State, t: Target, k: Key): State {
    if t in s.meta.tables && s.meta.tables[t] in s.tables then
      s.(tables := s.tables[s.meta.tables[t] := s.tables[s.meta.tables[t]] - {k}])
    else s
  }

  /** `get_metadata` hands out a copy of a collection. */
  function Copied(s: State, t: Target, k: Key): State {
    var seen := See(s.objects, ValueAt(s, t, k));
    if seen.Collection? then Allocate(s, seen.content) else s
  }

  lemma WithTableOk(s: State, t: Target)
    requires WellFormed(s)
    ensures t in WithTable(s, t).meta.tables && WithTable(s, t).meta.tables[t] in WithTable(s, t).tables
  {
  }

  ghost function ViewOf(s: State, layer: Layer): (view: View)
    requires LayerOk(s, layer)
    ensures IsView(s, layer, view)
  {
    map t | t in layer.tables :: map k | k in s.tables[layer.tables[t]] :: See(s.objects, s.tables[layer.tables[t]][k])
  }

  /** Every state shows one stack of views. */
  lemma OneStackIsShown(s: State) returns (stack: Stack)
    requires WellFormed(s)
    ensures Shows(s, stack)
    ensures forall other :: Shows(s, other) ==> other == stack
  {
    stack := Stack(ViewOf(s, s.meta), seq(|s.saved|, i requires 0 <= i < |s.saved| => ViewOf(s, s.saved[i])));
    forall other | Shows(s, other)
      ensures other == stack
    {
      ViewsAreUnique(s, s.meta, other.top, stack.top);
      forall i | 0 <= i < |s.saved|
        ensures other.below[i] == stack.below[i]
      {
        ViewsAreUnique(s, s.saved[i], other.below[i], stack.below[i]);
      }
    }
  }

  lemma ViewsAreUnique(s: State, layer: Layer, a: View, b: View)
    requires LayerOk(s, layer) && IsView(s, layer, a) && IsView(s, layer, b)
    ensures a == b
  {
    forall t | t in a
      ensures a[t] == b[t]
    {
      var x, y := a[t], b[t];
      forall k | k in x
        ensures x[k] == y[k]
      {
        assert a[t][k] == b[t][k];
      }
      SameEntries(x, y);
    }
  }

  lemma SameEntries<K, V>(a: map<K, V>, b: map<K, V>)
    requires a.Keys == b.Keys && forall k :: k in a ==> a[k] == b[k]
    ensures a == b
  {
  }

  // ----- the invariant -----

  lemma WithTableKeeps(s: State, t: Target)
    requires WellFormed(s)
    ensures WellFormed(WithTable(s, t))
  {
  }

  lemma DefineKeeps(s: State, t: Target, k: Key, v: Value)
    requires WellFormed(s) && t in s.meta.tables && s.meta.tables[t] in s.tables
    requires v.Obj? ==> v.ref in s.objects
    ensures WellFormed(DefineIn(s, t, k, v))
  {
  }

  lemma CloneKeeps(s: State)
    requires WellFormed(s)
    ensures WellFormed(After(s, Enter))
  {
    var s' := After(s, Enter);
    assert s'.saved[0] == s.meta;
    assert forall i :: 0 < i < |s'.saved| ==> s'.saved[i] == s.saved[i - 1];
  }

  /** Every step keeps store dictionaries and inner dictionaries apart. */
  lemma EveryStepKeepsWellFormed(s: State, step: Step)
    requires WellFormed(s) && Legal(s, step)
    ensures WellFormed(After(s, step))
  {
    match step
    case Define(t, k, v) =>
      WithTableOk(s, t);
      WithTableKeeps(s, t);
      DefineKeeps(WithTable(s, t), t, k, v);
    case Enter => CloneKeeps(s);
    case Exit =>
      assert forall i :: 0 <= i < |After(s, step).saved| ==> After(s, step).saved[i] == s.saved[i + 1];
    case NewObject(c) =>
    case Mutate(r, c) =>
    case Delete(t, k) =>
    case Get(t, k) =>
  }
}
