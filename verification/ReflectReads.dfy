/** What is read from the metadata store after a run, in terms of the values defined and nothing else. */
module ReflectReads {
  import opened ReflectSpec
  import opened ReflectRuns
  import opened ReflectHistory

  // ----- the values said of one entry -----

  /**
   The values defined under `k` of `t`, in order and layer by layer, after those already heard; deleting the key
   says nothing.  Entering a context hears in it what was heard outside, and leaving it forgets what it heard.
   */
  function Said(heard: seq<seq<Seen>>, changes: seq<Change>, t: Target, k: Key): (said: seq<seq<Seen>>)
    requires heard != [] && Pops(|heard| - 1, changes)
    ensures said != []
    decreases |changes|
  {
    if changes == [] then heard else Said(Hear(heard, changes[0], t, k), changes[1..], t, k)
  }

  function Hear(heard: seq<seq<Seen>>, change: Change, t: Target, k: Key): (said: seq<seq<Seen>>)
    requires heard != [] && (change.Pop? ==> |heard| > 1)
    ensures said != []
  {
    match change
    case SetEntry(t', k', seen) => if t' == t && k' == k then [heard[0] + [seen]] + heard[1..] else heard
    case DropEntry(t', k') => if t' == t && k' == k then [heard[0] + [Nothing]] + heard[1..] else heard
    case Push => [heard[0]] + heard
    case Pop => heard[1..]
    case NoChange => heard
  }

  /** Lists and tuples go together; sets and dicts go with their own; nothing else goes with anything. */
  datatype Family = Alone | Sequences | Sets | Dicts

  function FamilyOf(seen: Seen): Family {
    match seen
    case Nothing => Alone
    case ScalarSeen(x) => Alone
    case Collection(c) =>
      match c
      case ListOf(items) => Sequences
      case TupleOf(items) => Sequences
      case SetOf(elements) => Sets
      case DictOf(entries) => Dicts
  }

  function ItemsOf(seen: Seen): seq<int>
    requires FamilyOf(seen) == Sequences
  {
    seen.content.items
  }

  ghost predicate AllOf(said: seq<Seen>, family: Family) {
    forall i :: 0 <= i < |said| ==> FamilyOf(said[i]) == family
  }

  function Concatenated(said: seq<Seen>): seq<int>
    requires AllOf(said, Sequences)
  {
    if said == [] then [] else Concatenated(said[..|said| - 1]) + ItemsOf(said[|said| - 1])
  }

  // ----- what the values come to -----

  /** A list or a tuple as the first one was, with the items of all in order. */
  ghost predicate IsConcatenation(answer: Seen, said: seq<Seen>)
    requires said != [] && AllOf(said, Sequences)
  {
    && answer.Collection?
    && answer.content ==
       if said[0].content.ListOf? then ListOf(Concatenated(said)) else TupleOf(Concatenated(said))
  }

  /** A set of whatever is in one of them. */
  ghost predicate IsUnion(answer: Seen, said: seq<Seen>)
    requires AllOf(said, Sets)
  {
    && answer.Collection? && answer.content.SetOf?
    && forall x :: x in answer.content.elements <==> exists i :: 0 <= i < |said| && x in said[i].content.elements
  }

  /** The `i`-th value has the key, and none after it. */
  ghost predicate LastWith(said: seq<Seen>, i: nat, key: int)
    requires AllOf(said, Dicts)
  {
    && i < |said| && key in said[i].content.entries
    && forall j :: i < j < |said| ==> key !in said[j].content.entries
  }

  /** A dict in which every key has what the last of them that has it gives. */
  ghost predicate IsLastPerKey(answer: Seen, said: seq<Seen>)
    requires AllOf(said, Dicts)
  {
    && answer.Collection? && answer.content.DictOf?
    && (forall key :: key in answer.content.entries <==> exists i :: 0 <= i < |said| && key in said[i].content.entries)
    && forall key, i: nat :: LastWith(said, i, key) ==>
         key in answer.content.entries && answer.content.entries[key] == said[i].content.entries[key]
  }

  /** What one value after another of a family comes to. */
  ghost predicate ComesTo(answer: Seen, said: seq<Seen>, family: Family)
    requires said != [] && AllOf(said, family)
  {
    match family
    case Alone => answer == said[|said| - 1]
    case Sequences => IsConcatenation(answer, said)
    case Sets => IsUnion(answer, said)
    case Dicts => IsLastPerKey(answer, said)
  }

  // ----- the fold comes to it -----

  ghost function Folded(said: seq<Seen>): Seen
    requires said != []
  {
    if |said| == 1 then said[0] else Merge(Folded(said[..|said| - 1]), said[|said| - 1])
  }

  lemma OneComesToItself(seen: Seen)
    ensures ComesTo(seen, [seen], FamilyOf(seen))
  {
    var said := [seen];
    assert said[..0] == [];
    if FamilyOf(seen) == Dicts {
      assert forall key :: key in seen.content.entries ==> LastWith(said, 0, key);
      assert forall key :: key in seen.content.entries ==> key in said[0].content.entries;
    }
    if FamilyOf(seen) == Sets {
      assert forall x :: x in seen.content.elements ==> x in said[0].content.elements;
    }
  }

  lemma SequencesGrow(answer: Seen, said: seq<Seen>, next: Seen)
    requires said != [] && AllOf(said + [next], Sequences) && AllOf(said, Sequences) && IsConcatenation(answer, said)
    requires FamilyOf(next) == Sequences
    ensures IsConcatenation(Merge(answer, next), said + [next])
  {
    assert (said + [next])[..|said|] == said;
  }

  lemma SetsGrow(answer: Seen, said: seq<Seen>, next: Seen)
    requires AllOf(said + [next], Sets) && AllOf(said, Sets) && IsUnion(answer, said) && FamilyOf(next) == Sets
    ensures IsUnion(Merge(answer, next), said + [next])
  {
    var more := said + [next];
    forall x
      ensures x in Merge(answer, next).content.elements <==>
              exists i :: 0 <= i < |more| && x in more[i].content.elements
    {
      if x in answer.content.elements {
        var i :| 0 <= i < |said| && x in said[i].content.elements;
        assert x in more[i].content.elements;
      }
      if x in next.content.elements {
        assert x in more[|said|].content.elements;
      }
      if i :| 0 <= i < |more| && x in more[i].content.elements {
        assert i < |said| ==> x in said[i].content.elements;
      }
    }
  }

  lemma DictsGrow(answer: Seen, said: seq<Seen>, next: Seen)
    requires AllOf(said + [next], Dicts) && AllOf(said, Dicts) && IsLastPerKey(answer, said) && FamilyOf(next) == Dicts
    ensures IsLastPerKey(Merge(answer, next), said + [next])
  {
    var more, merged := said + [next], Merge(answer, next);
    forall key
      ensures key in merged.content.entries <==> exists i :: 0 <= i < |more| && key in more[i].content.entries
    {
      DictKeysGrow(answer, said, next, key);
    }
    forall key, i: nat | LastWith(more, i, key)
      ensures key in merged.content.entries && merged.content.entries[key] == more[i].content.entries[key]
    {
      if i < |said| {
        assert key !in more[|said|].content.entries;
        assert forall j :: i < j < |said| ==> more[j] == said[j] && key !in more[j].content.entries;
        assert LastWith(said, i, key);
      }
    }
  }

  lemma DictKeysGrow(answer: Seen, said: seq<Seen>, next: Seen, key: int)
    requires AllOf(said + [next], Dicts) && AllOf(said, Dicts) && IsLastPerKey(answer, said) && FamilyOf(next) == Dicts
    ensures var more := said + [next];
            key in Merge(answer, next).content.entries <==>
            exists i :: 0 <= i < |more| && key in more[i].content.entries
  {
    var more := said + [next];
    if key in answer.content.entries {
      var i :| 0 <= i < |said| && key in said[i].content.entries;
      assert key in more[i].content.entries;
    }
    if key in next.content.entries {
      assert key in more[|said|].content.entries;
    }
    if i :| 0 <= i < |more| && key in more[i].content.entries {
      assert i < |said| ==> key in said[i].content.entries;
    }
  }

  lemma StretchGrows(answer: Seen, said: seq<Seen>, next: Seen, family: Family)
    requires said != [] && AllOf(said, family) && FamilyOf(next) == family && ComesTo(answer, said, family)
    ensures AllOf(said + [next], family) && ComesTo(Merge(answer, next), said + [next], family)
  {
    match family
    case Alone =>
    case Sequences => SequencesGrow(answer, said, next);
    case Sets => SetsGrow(answer, said, next);
    case Dicts => DictsGrow(answer, said, next);
  }

  /** A value of another family replaces what was there. */
  lemma OtherFamilyReplaces(answer: Seen, next: Seen)
    requires FamilyOf(answer) != FamilyOf(next)
    ensures Merge(answer, next) == next
  {
  }

  /** The values from `n` on are of one family, and the one before them is not. */
  ghost predicate LastStretch(said: seq<Seen>, n: nat, family: Family) {
    && n < |said| && AllOf(said[n..], family)
    && (n > 0 ==> FamilyOf(said[n - 1]) != family)
  }

  lemma {:induction false} FoldIsOfLastFamily(said: seq<Seen>)
    requires said != []
    ensures FamilyOf(Folded(said)) == FamilyOf(said[|said| - 1])
  {
    if |said| > 1 {
      FoldIsOfLastFamily(said[..|said| - 1]);
    }
  }

  lemma {:induction false} FoldComesTo(said: seq<Seen>, n: nat, family: Family)
    requires LastStretch(said, n, family)
    ensures ComesTo(Folded(said), said[n..], family)
    decreases |said|
  {
    var m := |said| - 1;
    assert said[n..][m - n] == said[m];
    if n == m {
      assert said[n..] == [said[m]];
      OneComesToItself(said[m]);
      if m > 0 {
        FoldIsOfLastFamily(said[..m]);
        OtherFamilyReplaces(Folded(said[..m]), said[m]);
      }
    } else {
      assert said[..m][n..] == said[n..][..m - n];
      assert said[n..] == said[..m][n..] + [said[m]];
      FoldComesTo(said[..m], n, family);
      StretchGrows(Folded(said[..m]), said[..m][n..], said[m], family);
    }
  }

  // ----- the store -----

  /** Each layer's entry is the fold of what was heard in it. */
  ghost predicate FoldsTo(column: seq<Seen>, heard: seq<seq<Seen>>) {
    |column| == |heard| && forall i :: 0 <= i < |heard| ==> heard[i] != [] && column[i] == Folded(heard[i])
  }

  lemma HearingFolds(column: seq<Seen>, heard: seq<seq<Seen>>, change: Change, t: Target, k: Key)
    requires column != [] && FoldsTo(column, heard) && (change.Pop? ==> |column| > 1)
    ensures FoldsTo(ApplyOwn(column, change, t, k), Hear(heard, change, t, k))
  {
    var next := if change.SetEntry? then change.seen else Nothing;
    var more := heard[0] + [next];
    assert more[..|heard[0]|] == heard[0];
    assert Folded(more) == Merge(column[0], next);
  }

  /** The fold of an entry's changes, contexts included, is in every layer the fold of what was said in it. */
  lemma {:induction false} FoldOwnIsFolded(
      column: seq<Seen>, heard: seq<seq<Seen>>, changes: seq<Change>, t: Target, k: Key)
    requires column != [] && FoldsTo(column, heard) && Pops(|column| - 1, changes)
    ensures FoldsTo(FoldOwn(column, changes, t, k), Said(heard, changes, t, k))
    decreases |changes|
  {
    if changes != [] {
      HearingFolds(column, heard, changes[0], t, k);
      FoldOwnIsFolded(ApplyOwn(column, changes[0], t, k), Hear(heard, changes[0], t, k), changes[1..], t, k);
    }
  }

  /** At first, what is there in each layer is all that was said of it. */
  function AtFirst(column: seq<Seen>): (heard: seq<seq<Seen>>)
    ensures |heard| == |column| && forall i :: 0 <= i < |column| ==> heard[i] == [column[i]]
  {
    seq(|column|, i requires 0 <= i < |column| => [column[i]])
  }

  /** What was said of an entry in the current layer, what was there before it included. */
  function SaidNow(stack: Stack, changes: seq<Change>, t: Target, k: Key): seq<Seen>
    requires Pops(|stack.below|, changes)
  {
    Said(AtFirst(Column(stack, t, k)), changes, t, k)[0]
  }

  /** The answer is what the values of one kind at the end come to. */
  ghost predicate IsLastStretch(answer: Seen, said: seq<Seen>, n: nat, family: Family) {
    LastStretch(said, n, family) && ComesTo(answer, said[n..], family)
  }

  /**
   What the store answers under a key after a run of harmless steps, contexts included.  The values said since
   the last one of another kind decide: lists and tuples read as the items of all in order, in the kind of the
   first; sets as their union; a dict key as what the last dict with it gives; and of values of any other kind,
   and of a deletion, the last one is read.
   */
  lemma StoreAnswersLastStretch(s: State, steps: seq<Step>, stack: Stack, t: Target, k: Key)
    requires WellFormed(s) && LegalRun(s, steps) && HarmlessRun(s, steps) && Shows(s, stack)
    ensures Pops(|stack.below|, Meanings(s, steps))
    ensures var r := Run(s, steps);
            exists n, family ::
              IsLastStretch(See(r.objects, ValueAt(r, t, k)), SaidNow(stack, Meanings(s, steps), t, k), n, family)
  {
    var changes := Meanings(s, steps);
    StoreAnswersFoldOfOwnDefinitions(s, steps, stack, t, k);
    FoldOwnIsFolded(Column(stack, t, k), AtFirst(Column(stack, t, k)), changes, t, k);
    var said := SaidNow(stack, changes, t, k);
    var n := LastStretchExists(said);
    FoldComesTo(said, n, FamilyOf(said[|said| - 1]));
    assert IsLastStretch(Folded(said), said, n, FamilyOf(said[|said| - 1]));
  }

  /** There always is such a last stretch. */
  lemma {:induction false} LastStretchExists(said: seq<Seen>) returns (n: nat)
    requires said != []
    ensures LastStretch(said, n, FamilyOf(said[|said| - 1]))
    decreases |said|
  {
    var m := |said| - 1;
    if m > 0 && FamilyOf(said[m - 1]) == FamilyOf(said[m]) {
      n := LastStretchExists(said[..m]);
      assert said[n..] == said[..m][n..] + [said[m]];
    } else {
      n := m;
      assert said[m..] == [said[m]];
    }
  }

  lemma TwoListsComeToBoth(answer: Seen, first: seq<int>, second: seq<int>, n: nat, family: Family)
    requires IsLastStretch(answer, [Nothing, Collection(ListOf(first)), Collection(ListOf(second))], n, family)
    ensures answer == Collection(ListOf(first + second))
  {
    var lists := [Collection(ListOf(first)), Collection(ListOf(second))];
    var said := [Nothing] + lists;
    assert said == [Nothing, Collection(ListOf(first)), Collection(ListOf(second))];
    assert said[2] in said[n..] && family == Sequences;
    assert n == 1;
    assert said[1..] == lists;
    assert lists[..1] == [lists[0]] && lists[..1][..0] == [];
    assert Concatenated(lists[..1]) == [] + first;
    assert Concatenated(lists) == Concatenated(lists[..1]) + second;
  }

  /** Two lists defined in turn under a key that had nothing are read as the first and then the second. */
  lemma TwoListsReadInOrder(
      s: State, steps: seq<Step>, stack: Stack, t: Target, k: Key, first: seq<int>, second: seq<int>)
    requires WellFormed(s) && LegalRun(s, steps) && HarmlessRun(s, steps) && Shows(s, stack)
    requires Pops(|stack.below|, Meanings(s, steps))
    requires SaidNow(stack, Meanings(s, steps), t, k) ==
             [Nothing, Collection(ListOf(first)), Collection(ListOf(second))]
    ensures var r := Run(s, steps); See(r.objects, ValueAt(r, t, k)) == Collection(ListOf(first + second))
  {
    StoreAnswersLastStretch(s, steps, stack, t, k);
    var r := Run(s, steps);
    var answer := See(r.objects, ValueAt(r, t, k));
    var n, family :| IsLastStretch(answer, SaidNow(stack, Meanings(s, steps), t, k), n, family);
    TwoListsComeToBoth(answer, first, second, n, family);
  }

  // ----- which object a definition stores -----

  lemma TableChangesNoValue(s: State, t: Target, k: Key)
    requires WellFormed(s)
    ensures ValueAt(WithTable(s, t), t, k) == ValueAt(s, t, k)
  {
  }

  /**
   A value of another family than what was there is stored itself, so that later changes to it are read.  Two of
   one family go into a new object and leave the added one alone; what was there stays as it was, but a dict
   takes in what was added.
   */
  lemma DefinitionsShareOrCopy(s: State, t: Target, k: Key, v: Value)
    requires WellFormed(s) && Legal(s, Define(t, k, v))
    ensures var s' := After(s, Define(t, k, v));
            var before, added := See(s.objects, ValueAt(s, t, k)), See(s.objects, v);
            if FamilyOf(added) == Alone || FamilyOf(before) != FamilyOf(added) then
              ValueAt(s', t, k) == v && s'.objects == s.objects
            else
              && ValueAt(s', t, k).Obj? && ValueAt(s', t, k).ref !in s.objects && ValueAt(s', t, k).ref in s'.objects
              && (forall r :: r in s.objects ==> r in s'.objects)
              && (forall r :: r in s.objects && !(before.content.DictOf? && ValueAt(s, t, k) == Obj(r)) ==>
                    s'.objects[r] == s.objects[r])
              && (before.content.DictOf? ==>
                    See(s'.objects, ValueAt(s, t, k)) == See(s'.objects, ValueAt(s', t, k)))
  {
    TableChangesNoValue(s, t, k);
  }
}
