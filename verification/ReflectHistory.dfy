/** Whole runs of the metadata store. */
module ReflectHistory {
  import opened ReflectSpec
  import opened ReflectRuns
  import opened ReflectRefinement

  // ----- runs -----

  ghost function Next(s: State, step: Step): (r: State)
    requires WellFormed(s) && Legal(s, step)
    ensures WellFormed(r)
  {
    EveryStepKeepsWellFormed(s, step);
    After(s, step)
  }

  ghost predicate LegalRun(s: State, steps: seq<Step>)
    requires WellFormed(s)
    decreases |steps|
  {
    steps != [] ==> Legal(s, steps[0]) && LegalRun(Next(s, steps[0]), steps[1..])
  }

  ghost function Run(s: State, steps: seq<Step>): (r: State)
    requires WellFormed(s) && LegalRun(s, steps)
    ensures WellFormed(r)
    decreases |steps|
  {
    if steps == [] then s else Run(Next(s, steps[0]), steps[1..])
  }

  ghost predicate HarmlessRun(s: State, steps: seq<Step>)
    requires WellFormed(s) && LegalRun(s, steps)
    decreases |steps|
  {
    steps != [] ==> Harmless(s, steps[0]) && HarmlessRun(Next(s, steps[0]), steps[1..])
  }

  ghost function Meanings(s: State, steps: seq<Step>): (changes: seq<Change>)
    requires WellFormed(s) && LegalRun(s, steps)
    ensures |changes| == |steps|
    decreases |steps|
  {
    if steps == [] then [] else [Meaning(s, steps[0])] + Meanings(Next(s, steps[0]), steps[1..])
  }

  /** Every pop has something to pop. */
  predicate Pops(depth: nat, changes: seq<Change>)
    decreases |changes|
  {
    changes != [] ==>
      match changes[0]
      case Push => Pops(depth + 1, changes[1..])
      case Pop => depth > 0 && Pops(depth - 1, changes[1..])
      case SetEntry(t, k, seen) => Pops(depth, changes[1..])
      case DropEntry(t, k) => Pops(depth, changes[1..])
      case NoChange => Pops(depth, changes[1..])
  }

  function ApplyAll(stack: Stack, changes: seq<Change>): Stack
    requires Pops(|stack.below|, changes)
    decreases |changes|
  {
    if changes == [] then stack else ApplyAll(Apply(stack, changes[0]), changes[1..])
  }

  /** A run of harmless steps shows at its end what the definitions mean for plain maps. */
  lemma {:induction false} HarmlessRunsRefine(s: State, steps: seq<Step>, stack: Stack)
    requires WellFormed(s) && LegalRun(s, steps) && HarmlessRun(s, steps) && Shows(s, stack)
    ensures Pops(|stack.below|, Meanings(s, steps))
    ensures Shows(Run(s, steps), ApplyAll(stack, Meanings(s, steps)))
    decreases |steps|
  {
    if steps != [] {
      var step := steps[0];
      StepRefinesIffHarmless(s, step, stack);
      HarmlessRunsRefine(Next(s, step), steps[1..], Apply(stack, Meaning(s, step)));
      assert Meanings(s, steps)[1..] == Meanings(Next(s, step), steps[1..]);
    }
  }

  // ----- each entry on its own -----

  function BelowColumn(below: seq<View>, t: Target, k: Key): (column: seq<Seen>)
    ensures |column| == |below| && forall i :: 0 <= i < |below| ==> column[i] == SeenAt(below[i], t, k)
  {
    seq(|below|, i requires 0 <= i < |below| => SeenAt(below[i], t, k))
  }

  /** What the layers show under one key of one target. */
  function Column(stack: Stack, t: Target, k: Key): (column: seq<Seen>)
    ensures |column| == |stack.below| + 1
  {
    [SeenAt(stack.top, t, k)] + BelowColumn(stack.below, t, k)
  }

  /** One change to a column: definitions of other keys and targets do nothing to it. */
  function ApplyOwn(column: seq<Seen>, change: Change, t: Target, k: Key): (r: seq<Seen>)
    requires column != [] && (change.Pop? ==> |column| > 1)
    ensures r != []
  {
    match change
    case SetEntry(t', k', seen) => if t' == t && k' == k then [Merge(column[0], seen)] + column[1..] else column
    case DropEntry(t', k') => if t' == t && k' == k then [Nothing] + column[1..] else column
    case Push => [column[0]] + column
    case Pop => column[1..]
    case NoChange => column
  }

  function FoldOwn(column: seq<Seen>, changes: seq<Change>, t: Target, k: Key): (r: seq<Seen>)
    requires column != [] && Pops(|column| - 1, changes)
    ensures r != []
    decreases |changes|
  {
    if changes == [] then column else FoldOwn(ApplyOwn(column, changes[0], t, k), changes[1..], t, k)
  }

  lemma SetInOwn(view: View, change: Change, t: Target, k: Key)
    requires change.SetEntry?
    ensures SeenAt(SetIn(view, change.target, change.key, change.seen), t, k) ==
            if change.target == t && change.key == k then Merge(SeenAt(view, t, k), change.seen) else SeenAt(view, t, k)
  {
  }

  lemma DropInOwn(view: View, t': Target, k': Key, t: Target, k: Key)
    ensures SeenAt(DropIn(view, t', k'), t, k) == if t' == t && k' == k then Nothing else SeenAt(view, t, k)
  {
  }

  lemma ColumnStep(stack: Stack, change: Change, t: Target, k: Key)
    requires change.Pop? ==> stack.below != []
    ensures Column(Apply(stack, change), t, k) == ApplyOwn(Column(stack, t, k), change, t, k)
  {
    match change
    case SetEntry(t', k', seen) => SetInOwn(stack.top, change, t, k);
    case DropEntry(t', k') => DropInOwn(stack.top, t', k', t, k);
    case Push =>
      assert BelowColumn([stack.top] + stack.below, t, k) == [SeenAt(stack.top, t, k)] + BelowColumn(stack.below, t, k);
    case Pop =>
      assert BelowColumn(stack.below, t, k) == [SeenAt(stack.below[0], t, k)] + BelowColumn(stack.below[1..], t, k);
    case NoChange =>
  }

  /** What is read under a key is the fold of that key's own definitions, contexts included. */
  lemma {:induction false} ReadIsFoldOfOwnDefinitions(stack: Stack, changes: seq<Change>, t: Target, k: Key)
    requires Pops(|stack.below|, changes)
    ensures Column(ApplyAll(stack, changes), t, k) == FoldOwn(Column(stack, t, k), changes, t, k)
    decreases |changes|
  {
    if changes != [] {
      ColumnStep(stack, changes[0], t, k);
      ReadIsFoldOfOwnDefinitions(Apply(stack, changes[0]), changes[1..], t, k);
    }
  }

  /** What the store answers after a run of harmless steps is the fold of that key's own definitions. */
  lemma StoreAnswersFoldOfOwnDefinitions(s: State, steps: seq<Step>, stack: Stack, t: Target, k: Key)
    requires WellFormed(s) && LegalRun(s, steps) && HarmlessRun(s, steps) && Shows(s, stack)
    ensures Pops(|stack.below|, Meanings(s, steps))
    ensures var r := Run(s, steps);
            See(r.objects, ValueAt(r, t, k)) == FoldOwn(Column(stack, t, k), Meanings(s, steps), t, k)[0]
  {
    HarmlessRunsRefine(s, steps, stack);
    var changes := Meanings(s, steps);
    ReadIsFoldOfOwnDefinitions(stack, changes, t, k);
    SeenAtValue(Run(s, steps), t, k, ApplyAll(stack, changes).top);
  }

  // ----- contexts -----

  /** The changes open and close their own contexts, starting `depth` inside. */
  predicate Balanced(depth: nat, changes: seq<Change>)
    decreases |changes|
  {
    if changes == [] then depth == 0
    else match changes[0]
      case Push => Balanced(depth + 1, changes[1..])
      case Pop => depth > 0 && Balanced(depth - 1, changes[1..])
      case SetEntry(t, k, seen) => Balanced(depth, changes[1..])
      case DropEntry(t, k) => Balanced(depth, changes[1..])
      case NoChange => Balanced(depth, changes[1..])
  }

  lemma {:induction false} BalancedLeavesBase(stack: Stack, changes: seq<Change>, inner: nat)
    requires inner <= |stack.below| && Balanced(inner, changes)
    ensures Pops(|stack.below|, changes)
    ensures ApplyAll(stack, changes).below == stack.below[inner..]
    decreases |changes|
  {
    if changes != [] {
      var after := Apply(stack, changes[0]);
      match changes[0]
      case Push =>
        assert after.below[inner + 1..] == stack.below[inner..];
        BalancedLeavesBase(after, changes[1..], inner + 1);
      case Pop =>
        assert after.below[inner - 1..] == stack.below[inner..];
        BalancedLeavesBase(after, changes[1..], inner - 1);
      case SetEntry(t, k, seen) => BalancedLeavesBase(after, changes[1..], inner);
      case DropEntry(t, k) => BalancedLeavesBase(after, changes[1..], inner);
      case NoChange => BalancedLeavesBase(after, changes[1..], inner);
    }
  }

  lemma BalancedRun(s: State, steps: seq<Step>, stack: Stack) returns (top: View)
    requires WellFormed(s) && LegalRun(s, steps) && HarmlessRun(s, steps) && Shows(s, stack)
    requires Balanced(0, Meanings(s, steps))
    ensures Shows(Run(s, steps), Stack(top, stack.below))
  {
    HarmlessRunsRefine(s, steps, stack);
    BalancedLeavesBase(stack, Meanings(s, steps), 0);
    var stack' := ApplyAll(stack, Meanings(s, steps));
    top := stack'.top;
    assert stack' == Stack(top, stack.below);
  }

  lemma EntryShows(s: State, stack: Stack)
    requires WellFormed(s) && Shows(s, stack)
    ensures Shows(Next(s, Enter), Stack(stack.top, [stack.top] + stack.below))
  {
    EntryRefines(s, stack);
  }

  lemma LeavingShows(s: State, stack: Stack)
    requires WellFormed(s) && Shows(s, stack) && stack.below != []
    ensures Legal(s, Exit) && Shows(Next(s, Exit), Stack(stack.below[0], stack.below[1..]))
  {
    LeavingRefines(s, stack);
  }

  /** A context around harmless steps: leaving it shows exactly what entering it found. */
  lemma ContextRestoresWhatItFound(s: State, s1: State, steps: seq<Step>, stack: Stack)
    requires WellFormed(s) && Shows(s, stack) && s1 == Next(s, Enter)
    requires LegalRun(s1, steps) && HarmlessRun(s1, steps) && Balanced(0, Meanings(s1, steps))
    ensures Legal(Run(s1, steps), Exit) && Shows(Next(Run(s1, steps), Exit), stack)
  {
    EntryShows(s, stack);
    LeavingRestores(s1, steps, stack);
  }

  lemma LeavingRestores(s1: State, steps: seq<Step>, stack: Stack)
    requires WellFormed(s1) && Shows(s1, Stack(stack.top, [stack.top] + stack.below))
    requires LegalRun(s1, steps) && HarmlessRun(s1, steps) && Balanced(0, Meanings(s1, steps))
    ensures Legal(Run(s1, steps), Exit) && Shows(Next(Run(s1, steps), Exit), stack)
  {
    var below := [stack.top] + stack.below;
    var top := BalancedRun(s1, steps, Stack(stack.top, below));
    LeavingShows(Run(s1, steps), Stack(top, below));
    assert Stack(below[0], below[1..]) == stack;
  }

  // ----- dicts -----

  /** A context starts with the same objects under the same keys, and the old inner dictionary in place. */
  lemma EnteredContext(s: State, t: Target, k: Key, v: Value)
    requires WellFormed(s) && Legal(s, Define(t, k, v)) && UpdatesInPlace(s, t, k, v)
    ensures var s1 := Next(s, Enter);
            && s1.objects == s.objects && s1.saved != [] && s1.saved[0] == s.meta
            && ValueAt(s1, t, k) == ValueAt(s, t, k)
            && t in s1.meta.tables && t in s.meta.tables && s.meta.tables[t] in s1.tables
            && s1.tables[s.meta.tables[t]] == s.tables[s.meta.tables[t]] && s.meta.tables[t] != s1.meta.tables[t]
  {
    assert Next(s, Enter).meta.tables[t] in Next(s, Enter).meta.tables.Values;
  }

  /** Inside a context, the first redefinition of a dict is harmless only if it changes nothing. */
  lemma ContextsShareDicts(s: State, t: Target, k: Key, v: Value)
    requires WellFormed(s) && Legal(s, Define(t, k, v)) && UpdatesInPlace(s, t, k, v)
    ensures var s1 := Next(s, Enter);
            && Legal(s1, Define(t, k, v))
            && (Harmless(s1, Define(t, k, v)) <==> Merged(s, t, k, v) == See(s.objects, ValueAt(s, t, k)).content)
  {
    var s1 := Next(s, Enter);
    EnteredContext(s, t, k, v);
    assert Holds(s1, s1.saved[0], t, k, ValueAt(s, t, k).ref);
  }

  /** What is read after such a context is the merge, not what was there before it. */
  lemma DictDefinitionsLeakOutOfContexts(s: State, t: Target, k: Key, v: Value)
    requires WellFormed(s) && Legal(s, Define(t, k, v)) && UpdatesInPlace(s, t, k, v)
    ensures var s1 := Next(s, Enter);
            Legal(s1, Define(t, k, v)) &&
            var s2 := Next(s1, Define(t, k, v));
            Legal(s2, Exit) &&
            var s3 := Next(s2, Exit);
            See(s3.objects, ValueAt(s3, t, k)) == Collection(Merged(s, t, k, v))
  {
    var s1 := Next(s, Enter);
    EnteredContext(s, t, k, v);
    LeakFromContext(s1, s.meta, t, k, v);
  }

  lemma LeakFromContext(s1: State, meta: Layer, t: Target, k: Key, v: Value)
    requires WellFormed(s1) && Legal(s1, Define(t, k, v)) && UpdatesInPlace(s1, t, k, v)
    requires s1.saved != [] && s1.saved[0] == meta && t in meta.tables && meta.tables[t] in s1.tables &&
             t in s1.meta.tables
    requires meta.tables[t] != s1.meta.tables[t]
    requires k in s1.tables[meta.tables[t]] && s1.tables[meta.tables[t]][k] == ValueAt(s1, t, k)
    ensures var s2 := Next(s1, Define(t, k, v));
            Legal(s2, Exit) &&
            var s3 := Next(s2, Exit);
            See(s3.objects, ValueAt(s3, t, k)) == Collection(Merged(s1, t, k, v))
  {
    DefineShape(s1, t, k, v);
  }

  // ----- when every run is harmless -----

  ghost predicate NoDicts(s: State) {
    forall r :: r in s.objects ==> !s.objects[r].DictOf?
  }

  predicate WithoutDictsOrMutation(step: Step) {
    match step
    case NewObject(c) => !c.DictOf?
    case Mutate(r, c) => false
    case Define(t, k, v) => true
    case Delete(t, k) => true
    case Get(t, k) => true
    case Enter => true
    case Exit => true
  }

  lemma NoDictsStep(s: State, step: Step)
    requires WellFormed(s) && Legal(s, step) && NoDicts(s) && WithoutDictsOrMutation(step)
    ensures Harmless(s, step) && NoDicts(Next(s, step))
  {
    match step
    case Define(t, k, v) => WithTableOk(s, t);
    case NewObject(c) =>
    case Mutate(r, c) =>
    case Delete(t, k) =>
    case Get(t, k) =>
    case Enter =>
    case Exit =>
  }

  /** Over scalars, lists, tuples and sets every run is harmless. */
  lemma {:induction false} RunsWithoutDictsAreHarmless(s: State, steps: seq<Step>)
    requires WellFormed(s) && LegalRun(s, steps) && NoDicts(s)
    requires forall i :: 0 <= i < |steps| ==> WithoutDictsOrMutation(steps[i])
    ensures HarmlessRun(s, steps)
    decreases |steps|
  {
    if steps != [] {
      NoDictsStep(s, steps[0]);
      RunsWithoutDictsAreHarmless(Next(s, steps[0]), steps[1..]);
    }
  }

  // ----- returned collections -----

  /** An object that no inner dictionary holds. */
  ghost predicate Private(s: State, r: Ref) {
    r in s.objects && forall table, k :: table in s.tables && k in s.tables[table] ==> s.tables[table][k] != Obj(r)
  }

  /** `get_metadata` returns a new object with the content that was read. */
  lemma GetReturnsAPrivateObject(s: State, t: Target, k: Key)
    requires WellFormed(s) && See(s.objects, ValueAt(s, t, k)).Collection?
    ensures Private(Next(s, Get(t, k)), s.next)
    ensures Collection(Next(s, Get(t, k)).objects[s.next]) == See(s.objects, ValueAt(s, t, k))
  {
  }

  predicate Passes(step: Step, r: Ref) {
    step.Define? && step.value == Obj(r)
  }

  lemma PrivateStaysPrivate(s: State, step: Step, r: Ref)
    requires WellFormed(s) && Legal(s, step) && Private(s, r) && !Passes(step, r)
    ensures Private(Next(s, step), r)
  {
    match step
    case Define(t, k, v) =>
      WithTableOk(s, t);
      assert Private(WithTable(s, t), r);
    case NewObject(c) =>
    case Mutate(r, c) =>
    case Delete(t, k) =>
    case Get(t, k) =>
    case Enter =>
    case Exit =>
  }

  /** Changing a returned collection is harmless at any later time, unless it was handed back. */
  lemma {:induction false} ChangingAReturnedObjectIsHarmless(s: State, steps: seq<Step>, r: Ref, c: Content)
    requires WellFormed(s) && LegalRun(s, steps) && Private(s, r)
    requires forall i :: 0 <= i < |steps| ==> !Passes(steps[i], r)
    requires Legal(Run(s, steps), Mutate(r, c))
    ensures Harmless(Run(s, steps), Mutate(r, c))
    decreases |steps|
  {
    if steps != [] {
      PrivateStaysPrivate(s, steps[0], r);
      ChangingAReturnedObjectIsHarmless(Next(s, steps[0]), steps[1..], r, c);
    }
  }
}
