/** Each step of the metadata store against the stack of plain maps. */
module ReflectRefinement {
  import opened ReflectSpec
  import opened ReflectRuns

  /** After the step, what every layer shows is what the step means for plain maps. */
  ghost predicate Refines(s: State, step: Step, stack: Stack)
    requires WellFormed(s) && Legal(s, step) && Shows(s, stack)
  {
    WellFormed(After(s, step)) && Shows(After(s, step), Apply(stack, Meaning(s, step)))
  }

  // ----- definitions -----

  lemma SetInFreshTable(view: View, t: Target, k: Key, seen: Seen)
    requires t !in view
    ensures var empty: map<Key, Seen> := map[];
            SetIn(view[t := empty], t, k, seen) == SetIn(view, t, k, seen)
  {
    var empty: map<Key, Seen> := map[];
    assert view[t := empty][t] == empty;
  }

  lemma ReplacingDefinitionRefines(s: State, t: Target, k: Key, v: Value, stack: Stack)
    requires WellFormed(s) && Legal(s, Define(t, k, v)) && !UpdatesInPlace(s, t, k, v) && Shows(s, stack)
    ensures Refines(s, Define(t, k, v), stack)
  {
    var s1 := WithTable(s, t);
    var empty: map<Key, Seen> := map[];
    var top := if t in stack.top then stack.top else stack.top[t := empty];
    WithTableOk(s, t);
    WithTableKeeps(s, t);
    EveryStepKeepsWellFormed(s, Define(t, k, v));
    WithTableIsSeen(s, t, stack.top);
    assert ValueAt(s1, t, k) == ValueAt(s, t, k);
    ReplacementOnTop(s1, t, k, v, top);
    if t !in stack.top {
      SetInFreshTable(stack.top, t, k, See(s.objects, v));
    }
    ReplacementBelow(s, s1, t, k, v, stack);
  }

  lemma ReplacementBelow(s: State, s1: State, t: Target, k: Key, v: Value, stack: Stack)
    requires WellFormed(s) && Legal(s, Define(t, k, v)) && Shows(s, stack)
    requires s1 == WithTable(s, t) && WellFormed(s1) && t in s1.meta.tables && !UpdatesInPlace(s1, t, k, v)
    ensures forall i :: 0 <= i < |s.saved| ==>
              LayerOk(DefineIn(s1, t, k, v), s.saved[i]) && IsView(DefineIn(s1, t, k, v), s.saved[i], stack.below[i])
  {
    forall i | 0 <= i < |s.saved|
      ensures LayerOk(DefineIn(s1, t, k, v), s.saved[i]) && IsView(DefineIn(s1, t, k, v), s.saved[i], stack.below[i])
    {
      WithTableIsUnseenElsewhere(s, t, s.saved[i], stack.below[i]);
      ReplacementElsewhere(s1, t, k, v, s.saved[i], stack.below[i]);
    }
  }

  /** The dict update is seen by the entry alone iff no other entry of any layer holds the dict. */
  lemma DictDefinitionRefinesIff(s: State, t: Target, k: Key, v: Value, stack: Stack)
    requires WellFormed(s) && Legal(s, Define(t, k, v)) && UpdatesInPlace(s, t, k, v) && Shows(s, stack)
    ensures Refines(s, Define(t, k, v), stack) <==> Harmless(s, Define(t, k, v))
  {
    var s' := After(s, Define(t, k, v));
    var c, r := Merged(s, t, k, v), ValueAt(s, t, k).ref;
    EveryStepKeepsWellFormed(s, Define(t, k, v));
    InPlaceOnTop(s, t, k, v, stack.top);
    forall i | 0 <= i < |s.saved|
      ensures IsView(s', s.saved[i], stack.below[i]) <==> c == s.objects[r] || Unheld(s, s.saved[i], r)
    {
      InPlaceElsewhere(s, t, k, v, s.saved[i], stack.below[i]);
    }
  }

  // ----- the other steps -----

  lemma AllocationRefines(s: State, c: Content, stack: Stack)
    requires WellFormed(s) && WellFormed(Allocate(s, c)) && Shows(s, stack)
    ensures Shows(Allocate(s, c), stack)
  {
    AllocateIsUnseen(s, c, s.meta, stack.top);
    forall i | 0 <= i < |s.saved|
      ensures IsView(Allocate(s, c), s.saved[i], stack.below[i])
    {
      AllocateIsUnseen(s, c, s.saved[i], stack.below[i]);
    }
  }

  lemma NewObjectRefines(s: State, c: Content, stack: Stack)
    requires WellFormed(s) && Shows(s, stack)
    ensures Refines(s, NewObject(c), stack)
  {
    EveryStepKeepsWellFormed(s, NewObject(c));
    AllocationRefines(s, c, stack);
  }

  lemma GetRefines(s: State, t: Target, k: Key, stack: Stack)
    requires WellFormed(s) && Shows(s, stack)
    ensures Refines(s, Get(t, k), stack)
  {
    EveryStepKeepsWellFormed(s, Get(t, k));
    if See(s.objects, ValueAt(s, t, k)).Collection? {
      AllocationRefines(s, See(s.objects, ValueAt(s, t, k)).content, stack);
    }
  }

  lemma MutationRefinesIff(s: State, r: Ref, c: Content, stack: Stack)
    requires WellFormed(s) && Legal(s, Mutate(r, c)) && Shows(s, stack)
    ensures Refines(s, Mutate(r, c), stack) <==> Harmless(s, Mutate(r, c))
  {
    var s' := Overwrite(s, r, c);
    EveryStepKeepsWellFormed(s, Mutate(r, c));
    OverwriteIsSeenIff(s, r, c, s.meta, stack.top);
    forall i | 0 <= i < |s.saved|
      ensures IsView(s', s.saved[i], stack.below[i]) <==> c == s.objects[r] || Unheld(s, s.saved[i], r)
    {
      OverwriteIsSeenIff(s, r, c, s.saved[i], stack.below[i]);
    }
  }

  lemma DeletionRefines(s: State, t: Target, k: Key, stack: Stack)
    requires WellFormed(s) && Shows(s, stack)
    ensures Refines(s, Delete(t, k), stack)
  {
    var s' := Removed(s, t, k);
    EveryStepKeepsWellFormed(s, Delete(t, k));
    assert IsView(s', s.meta, DropIn(stack.top, t, k));
    forall i | 0 <= i < |s.saved|
      ensures IsView(s', s.saved[i], stack.below[i])
    {
      DeletionElsewhere(s, t, k, s.saved[i], stack.below[i]);
    }
  }

  lemma DeletionElsewhere(s: State, t: Target, k: Key, layer: Layer, view: View)
    requires LayerOk(s, s.meta) && LayerOk(s, layer) && layer.id != s.meta.id && IsView(s, layer, view)
    ensures LayerOk(Removed(s, t, k), layer) && IsView(Removed(s, t, k), layer, view)
  {
  }

  // ----- contexts -----

  /** Nothing that existed was changed. */
  ghost predicate Keeps(s: State, s': State) {
    && s'.objects == s.objects
    && forall table :: table in s.tables ==> table in s'.tables && s'.tables[table] == s.tables[table]
  }

  lemma KeptView(s: State, s': State, layer: Layer, view: View)
    requires LayerOk(s, layer) && LayerOk(s', layer) && Keeps(s, s') && IsView(s, layer, view)
    ensures IsView(s', layer, view)
  {
  }

  /** The copy shows what was there, and making it changes nothing that a context will restore. */
  lemma EntryRefines(s: State, stack: Stack)
    requires WellFormed(s) && Shows(s, stack)
    ensures Refines(s, Enter, stack)
  {
    var s' := After(s, Enter);
    EveryStepKeepsWellFormed(s, Enter);
    CloneShowsTheSame(s, stack.top);
    var below := [stack.top] + stack.below;
    KeptView(s, s', s'.saved[0], stack.top);
    forall i | 0 < i < |s'.saved|
      ensures IsView(s', s'.saved[i], below[i])
    {
      assert s'.saved[i] == s.saved[i - 1];
      KeptView(s, s', s.saved[i - 1], stack.below[i - 1]);
    }
  }

  lemma CloneShowsTheSame(s: State, view: View)
    requires WellFormed(s) && IsView(s, s.meta, view)
    ensures var s' := After(s, Enter);
            && Keeps(s, s') && s'.saved == [s.meta] + s.saved
            && LayerOk(s', s'.meta) && IsView(s', s'.meta, view)
  {
    var s' := After(s, Enter);
    EveryStepKeepsWellFormed(s, Enter);
    forall t | t in s.meta.tables
      ensures s'.tables[s'.meta.tables[t]] == s.tables[s.meta.tables[t]]
    {
      assert s'.meta.tables[t] in s'.meta.tables.Values;
    }
  }

  lemma LeavingRefines(s: State, stack: Stack)
    requires WellFormed(s) && s.saved != [] && Shows(s, stack)
    ensures Refines(s, Exit, stack)
  {
    var s' := After(s, Exit);
    EveryStepKeepsWellFormed(s, Exit);
    KeptView(s, s', s.saved[0], stack.below[0]);
    forall i | 0 <= i < |s'.saved|
      ensures IsView(s', s'.saved[i], stack.below[1..][i])
    {
      assert s'.saved[i] == s.saved[i + 1];
      KeptView(s, s', s.saved[i + 1], stack.below[i + 1]);
    }
  }

  /** A step does what it means for plain maps exactly when it is harmless. */
  lemma StepRefinesIffHarmless(s: State, step: Step, stack: Stack)
    requires WellFormed(s) && Legal(s, step) && Shows(s, stack)
    ensures Refines(s, step, stack) <==> Harmless(s, step)
  {
    match step
    case NewObject(c) => NewObjectRefines(s, c, stack);
    case Mutate(r, c) => MutationRefinesIff(s, r, c, stack);
    case Define(t, k, v) =>
      if UpdatesInPlace(s, t, k, v) {
        DictDefinitionRefinesIff(s, t, k, v, stack);
      } else {
        ReplacingDefinitionRefines(s, t, k, v, stack);
      }
    case Delete(t, k) => DeletionRefines(s, t, k, stack);
    case Get(t, k) => GetRefines(s, t, k, stack);
    case Enter => EntryRefines(s, stack);
    case Exit => LeavingRefines(s, stack);
  }
}
