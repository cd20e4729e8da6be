/** Whole runs of the metadata store, against a stack of plain nested maps. */
module ReflectRuns {
  import opened ReflectSpec

  /** What a step means for what is seen: nothing is shared, every definition affects its own entry. */
  datatype Change =
    | SetEntry(target: Target, key: Key, seen: Seen)
    | DropEntry(target: Target, key: Key)
    | Push
    | Pop
    | NoChange

  function Meaning(s: State, step: Step): Change {
    match step
    case NewObject(c) => NoChange
    case Mutate(r, c) => NoChange
    case Define(t, k, v) => SetEntry(t, k, See(s.objects, v))
    case Delete(t, k) => DropEntry(t, k)
    case Get(t, k) => NoChange
    case Enter => Push
    case Exit => Pop
  }

  function EntryOf(view: View, t: Target): map<Key, Seen> {
    if t in view then view[t] else map[]
  }

  function SeenAt(view: View, t: Target, k: Key): Seen {
    if k in EntryOf(view, t) then EntryOf(view, t)[k] else Nothing
  }

  function SetIn(view: View, t: Target, k: Key, seen: Seen): View {
    var entries: map<Key, Seen> := EntryOf(view, t)[k := Merge(SeenAt(view, t, k), seen)];
    view[t := entries]
  }

  function DropIn(view: View, t: Target, k: Key): View {
    if t in view then view[t := view[t] - {k}] else view
  }

  function Apply(stack: Stack, change: Change): Stack
    requires change.Pop? ==> stack.below != []
  {
    match change
    case SetEntry(t, k, seen) => Stack(SetIn(stack.top, t, k, seen), stack.below)
    case DropEntry(t, k) => Stack(DropIn(stack.top, t, k), stack.below)
    case Push => Stack(stack.top, [stack.top] + stack.below)
    case Pop => Stack(stack.below[0], stack.below[1..])
    case NoChange => stack
  }

  // ----- sharing -----

  ghost predicate Holds(s: State, layer: Layer, t: Target, k: Key, r: Ref)
    requires LayerOk(s, layer)
  {
    t in layer.tables && k in s.tables[layer.tables[t]] && s.tables[layer.tables[t]][k] == Obj(r)
  }

  /** The dict stored for the key is the one a dict definition would update in place. */
  predicate UpdatesInPlace(s: State, t: Target, k: Key, v: Value) {
    var existing, added := See(s.objects, ValueAt(s, t, k)), See(s.objects, v);
    existing.Collection? && existing.content.DictOf? && added.Collection? && added.content.DictOf?
  }

  function Merged(s: State, t: Target, k: Key, v: Value): Content
    requires UpdatesInPlace(s, t, k, v)
  {
    Combine(See(s.objects, ValueAt(s, t, k)).content, See(s.objects, v).content)
  }

  ghost predicate Unheld(s: State, layer: Layer, r: Ref)
    requires LayerOk(s, layer)
  {
    forall t, k :: !Holds(s, layer, t, k, r)
  }

  ghost predicate HeldOnlyAt(s: State, layer: Layer, r: Ref, t: Target, k: Key)
    requires LayerOk(s, layer)
  {
    forall t', k' :: Holds(s, layer, t', k', r) ==> t' == t && k' == k
  }

  ghost predicate UnheldBelow(s: State, r: Ref)
    requires WellFormed(s)
  {
    forall i :: 0 <= i < |s.saved| ==> Unheld(s, s.saved[i], r)
  }

  /**
   No entry but the one written sees the step: an object changed in place is stored
   nowhere else, in the current store or in one that a context will restore.
   */
  ghost predicate Harmless(s: State, step: Step)
    requires WellFormed(s) && Legal(s, step)
  {
    match step
    case Mutate(r, c) => c == s.objects[r] || (Unheld(s, s.meta, r) && UnheldBelow(s, r))
    case Define(t, k, v) =>
      UpdatesInPlace(s, t, k, v) ==>
        var r := ValueAt(s, t, k).ref;
        Merged(s, t, k, v) == s.objects[r] || (HeldOnlyAt(s, s.meta, r, t, k) && UnheldBelow(s, r))
    case NewObject(c) => true
    case Delete(t, k) => true
    case Get(t, k) => true
    case Enter => true
    case Exit => true
  }

  // ----- one operation on the heap at a time -----

  lemma AllocateIsUnseen(s: State, c: Content, layer: Layer, view: View)
    requires Sound(s) && LayerOk(s, layer) && IsView(s, layer, view)
    ensures LayerOk(Allocate(s, c), layer) && IsView(Allocate(s, c), layer, view)
  {
  }

  lemma StoreIsSeen(s: State, t: Target, k: Key, v: Value, view: View)
    requires LayerOk(s, s.meta) && t in s.meta.tables && IsView(s, s.meta, view)
    ensures LayerOk(Store(s, t, k, v), s.meta)
    ensures IsView(Store(s, t, k, v), s.meta, Patch(view, t, k, See(s.objects, v)))
  {
  }

  lemma StoreIsUnseenElsewhere(s: State, t: Target, k: Key, v: Value, layer: Layer, view: View)
    requires LayerOk(s, s.meta) && LayerOk(s, layer) && layer.id != s.meta.id && t in s.meta.tables
    requires IsView(s, layer, view)
    ensures LayerOk(Store(s, t, k, v), layer) && IsView(Store(s, t, k, v), layer, view)
  {
  }

  function Patch(view: View, t: Target, k: Key, seen: Seen): View
    requires t in view
  {
    var entries: map<Key, Seen> := view[t][k := seen];
    view[t := entries]
  }

  /** Changing an object in place changes exactly the entries that hold it. */
  lemma OverwriteIsSeenIff(s: State, r: Ref, c: Content, layer: Layer, view: View)
    requires r in s.objects && LayerOk(s, layer) && IsView(s, layer, view)
    ensures LayerOk(Overwrite(s, r, c), layer)
    ensures IsView(Overwrite(s, r, c), layer, view) <==> c == s.objects[r] || Unheld(s, layer, r)
  {
    if c != s.objects[r] && !Unheld(s, layer, r) {
      var t, k :| Holds(s, layer, t, k, r);
      assert k in view[t] && view[t][k] == Collection(s.objects[r]);
    } else {
      forall t, k | t in view && k in view[t]
        ensures view[t][k] == See(Overwrite(s, r, c).objects, s.tables[layer.tables[t]][k])
      {
        var holds := Holds(s, layer, t, k, r);
      }
    }
  }

  /** The same when one of the entries that hold it is overwritten anyway. */
  lemma PatchIsSeenIff(s: State, r: Ref, c: Content, layer: Layer, t: Target, k: Key, view: View)
    requires r in s.objects && LayerOk(s, layer) && IsView(s, layer, view) && Holds(s, layer, t, k, r)
    ensures LayerOk(Overwrite(s, r, c), layer)
    ensures IsView(Overwrite(s, r, c), layer, Patch(view, t, k, Collection(c))) <==>
            c == s.objects[r] || HeldOnlyAt(s, layer, r, t, k)
  {
    var patched := Patch(view, t, k, Collection(c));
    if c != s.objects[r] && !HeldOnlyAt(s, layer, r, t, k) {
      var t', k' :| Holds(s, layer, t', k', r) && !(t' == t && k' == k);
      assert k' in patched[t'] && patched[t'][k'] == view[t'][k'] == Collection(s.objects[r]);
    } else {
      forall t', k' | t' in patched && k' in patched[t']
        ensures patched[t'][k'] == See(Overwrite(s, r, c).objects, s.tables[layer.tables[t']][k'])
      {
        var holds := Holds(s, layer, t', k', r);
      }
    }
  }

  lemma WithTableIsSeen(s: State, t: Target, view: View)
    requires LayerOk(s, s.meta) && IsView(s, s.meta, view)
    ensures var s1 := WithTable(s, t);
            var empty: map<Key, Seen> := map[];
            LayerOk(s1, s1.meta) && IsView(s1, s1.meta, if t in view then view else view[t := empty])
    ensures forall k :: ValueAt(WithTable(s, t), t, k) == ValueAt(s, t, k)
  {
  }

  lemma WithTableIsUnseenElsewhere(s: State, t: Target, layer: Layer, view: View)
    requires LayerOk(s, s.meta) && LayerOk(s, layer) && layer.id != s.meta.id && IsView(s, layer, view)
    ensures LayerOk(WithTable(s, t), layer) && IsView(WithTable(s, t), layer, view)
  {
  }

  lemma SeenAtValue(s: State, t: Target, k: Key, view: View)
    requires LayerOk(s, s.meta) && IsView(s, s.meta, view)
    ensures SeenAt(view, t, k) == See(s.objects, ValueAt(s, t, k))
  {
  }

  // ----- definitions -----

  /** The value the definition leaves under the key, and the object it changes in place, if any. */
  lemma DefineShape(s: State, t: Target, k: Key, v: Value)
    requires LayerOk(s, s.meta) && t in s.meta.tables && (v.Obj? ==> v.ref in s.objects)
    ensures var existing, added := See(s.objects, ValueAt(s, t, k)), See(s.objects, v);
            var combines := existing.Collection? && added.Collection? && Combines(existing.content, added.content);
            if UpdatesInPlace(s, t, k, v) then
              var c, r := Merged(s, t, k, v), ValueAt(s, t, k).ref;
              && ValueAt(s, t, k).Obj? && r in s.objects && Merge(existing, added) == Collection(c)
              && DefineIn(s, t, k, v) == Store(Allocate(Overwrite(s, r, c), c), t, k, Obj(s.next))
            else if combines then
              exists c :: Merge(existing, added) == Collection(c) &&
                DefineIn(s, t, k, v) == Store(Allocate(s, c), t, k, Obj(s.next))
            else Merge(existing, added) == added && DefineIn(s, t, k, v) == Store(s, t, k, v)
  {
    var existing, added := See(s.objects, ValueAt(s, t, k)), See(s.objects, v);
    if existing.Collection? && added.Collection? && Combines(existing.content, added.content) {
      assert Merge(existing, added) == Collection(Combine(existing.content, added.content));
    }
  }

  /** When nothing is updated in place, the entry written shows the merge. */
  lemma ReplacementOnTop(s: State, t: Target, k: Key, v: Value, view: View)
    requires Sound(s) && LayerOk(s, s.meta) && t in s.meta.tables && (v.Obj? ==> v.ref in s.objects)
    requires !UpdatesInPlace(s, t, k, v) && IsView(s, s.meta, view)
    ensures var s' := DefineIn(s, t, k, v);
            s'.meta == s.meta && LayerOk(s', s.meta) && IsView(s', s.meta, SetIn(view, t, k, See(s.objects, v)))
  {
    var existing, added := See(s.objects, ValueAt(s, t, k)), See(s.objects, v);
    DefineShape(s, t, k, v);
    SeenAtValue(s, t, k, view);
    if existing.Collection? && added.Collection? && Combines(existing.content, added.content) {
      var c :| Merge(existing, added) == Collection(c) &&
               DefineIn(s, t, k, v) == Store(Allocate(s, c), t, k, Obj(s.next));
      AllocateIsUnseen(s, c, s.meta, view);
      StoreIsSeen(Allocate(s, c), t, k, Obj(s.next), view);
    } else {
      StoreIsSeen(s, t, k, v, view);
    }
  }

  lemma ReplacementElsewhere(s: State, t: Target, k: Key, v: Value, layer: Layer, view: View)
    requires Sound(s) && LayerOk(s, s.meta) && t in s.meta.tables && (v.Obj? ==> v.ref in s.objects)
    requires !UpdatesInPlace(s, t, k, v) && LayerOk(s, layer) && layer.id != s.meta.id && IsView(s, layer, view)
    ensures LayerOk(DefineIn(s, t, k, v), layer) && IsView(DefineIn(s, t, k, v), layer, view)
  {
    var existing, added := See(s.objects, ValueAt(s, t, k)), See(s.objects, v);
    DefineShape(s, t, k, v);
    if existing.Collection? && added.Collection? && Combines(existing.content, added.content) {
      var c :| Merge(existing, added) == Collection(c) &&
               DefineIn(s, t, k, v) == Store(Allocate(s, c), t, k, Obj(s.next));
      AllocateIsUnseen(s, c, layer, view);
      StoreIsUnseenElsewhere(Allocate(s, c), t, k, Obj(s.next), layer, view);
    } else {
      StoreIsUnseenElsewhere(s, t, k, v, layer, view);
    }
  }

  /** In the store where the key is defined, the entry alone changes iff no other entry holds the dict. */
  lemma InPlaceOnTop(s: State, t: Target, k: Key, v: Value, view: View)
    requires Sound(s) && LayerOk(s, s.meta) && t in s.meta.tables && (v.Obj? ==> v.ref in s.objects)
    requires UpdatesInPlace(s, t, k, v) && IsView(s, s.meta, view)
    ensures var c, r := Merged(s, t, k, v), ValueAt(s, t, k).ref;
            && LayerOk(DefineIn(s, t, k, v), s.meta)
            && (IsView(DefineIn(s, t, k, v), s.meta, SetIn(view, t, k, See(s.objects, v))) <==>
                c == s.objects[r] || HeldOnlyAt(s, s.meta, r, t, k))
  {
    var c, r := Merged(s, t, k, v), ValueAt(s, t, k).ref;
    var wanted := Patch(view, t, k, Collection(c));
    DefineShape(s, t, k, v);
    SeenAtValue(s, t, k, view);
    assert SetIn(view, t, k, See(s.objects, v)) == wanted;
    PatchIsSeenIff(s, r, c, s.meta, t, k, view);
    OverwriteThenStore(s, r, c, t, k, wanted);
  }

  /** Storing a fresh copy of the changed dict under its own key shows nothing new. */
  lemma OverwriteThenStore(s: State, r: Ref, c: Content, t: Target, k: Key, wanted: View)
    requires Sound(s) && LayerOk(s, s.meta) && r in s.objects && Holds(s, s.meta, t, k, r)
    ensures var touched := Overwrite(s, r, c);
            var s' := Store(Allocate(touched, c), t, k, Obj(s.next));
            && LayerOk(touched, s.meta) && LayerOk(s', s.meta)
            && (IsView(s', s.meta, wanted) <==> IsView(touched, s.meta, wanted))
  {
    var touched := Overwrite(s, r, c);
    var s' := Store(Allocate(touched, c), t, k, Obj(s.next));
    forall t', k' | t' in s.meta.tables && k' in s.tables[s.meta.tables[t']]
      ensures k' in s'.tables[s.meta.tables[t']]
      ensures See(s'.objects, s'.tables[s.meta.tables[t']][k']) ==
              See(touched.objects, touched.tables[s.meta.tables[t']][k'])
    {
    }
    assert forall t' :: t' in s.meta.tables ==>
      s'.tables[s.meta.tables[t']].Keys == touched.tables[s.meta.tables[t']].Keys;
  }

  /** In a store that a context will restore, nothing changes iff no entry holds the dict. */
  lemma InPlaceElsewhere(s: State, t: Target, k: Key, v: Value, layer: Layer, view: View)
    requires Sound(s) && LayerOk(s, s.meta) && t in s.meta.tables && (v.Obj? ==> v.ref in s.objects)
    requires UpdatesInPlace(s, t, k, v) && LayerOk(s, layer) && layer.id != s.meta.id && IsView(s, layer, view)
    ensures var c, r := Merged(s, t, k, v), ValueAt(s, t, k).ref;
            && LayerOk(DefineIn(s, t, k, v), layer)
            && (IsView(DefineIn(s, t, k, v), layer, view) <==> c == s.objects[r] || Unheld(s, layer, r))
  {
    var c, r := Merged(s, t, k, v), ValueAt(s, t, k).ref;
    DefineShape(s, t, k, v);
    OverwriteIsSeenIff(s, r, c, layer, view);
    StoreElsewhere(Overwrite(s, r, c), c, t, k, layer, view);
  }

  lemma StoreElsewhere(s: State, c: Content, t: Target, k: Key, layer: Layer, view: View)
    requires Sound(s) && LayerOk(s, s.meta) && LayerOk(s, layer) && layer.id != s.meta.id && t in s.meta.tables
    ensures var s' := Store(Allocate(s, c), t, k, Obj(s.next));
            LayerOk(s', layer) && (IsView(s', layer, view) <==> IsView(s, layer, view))
  {
    var s' := Store(Allocate(s, c), t, k, Obj(s.next));
    forall t', k' | t' in layer.tables && k' in s.tables[layer.tables[t']]
      ensures See(s'.objects, s'.tables[layer.tables[t']][k']) == See(s.objects, s.tables[layer.tables[t']][k'])
    {
    }
    assert forall t' :: t' in layer.tables ==> s'.tables[layer.tables[t']] == s.tables[layer.tables[t']];
  }
}
