/** What resolution keeps: objects are shared exactly as their scopes promise. */
module InjectorSharing {
  import opened Prelude
  import opened Injector

  function ScopeOf(w: World, i: Interface): Scope {
    match BindingOf(w, i)
    case Some(b) => b.scope
    case None => Transient
  }

  /** The application set this entry of the current request itself. */
  predicate PutByHand(w: World, ctx: Option<nat>, i: Interface) {
    ctx.Some? && (ctx.value, i) in w.put
  }

  /** `r` is an object for `i`: built for it, in this request unless it is a singleton, or handed over. */
  ghost predicate Typed(w: World, ctx: Option<nat>, i: Interface, r: Ref) {
    match r
    case Made(k) =>
      k < |w.heap| && w.heap[k].interface == i && (ScopeOf(w, i) != Singleton ==> w.heap[k].ctx == ctx)
    case Given(_) =>
      (BindingOf(w, i).Some? && BindingOf(w, i).value.provider.Instance?) ||
      (PutByHand(w, ctx, i) && ScopeOf(w, i) == Request)
  }

  /** `r` is what the scope of `i` has on record for the whole process or for this request. */
  ghost predicate Recorded(w: World, ctx: Option<nat>, i: Interface, r: Ref) {
    && (ScopeOf(w, i) == Singleton ==> i in w.singletons && w.singletons[i] == r)
    && (ScopeOf(w, i) == Request && ctx.Some? && ctx.value < |w.contexts| && !PutByHand(w, ctx, i) ==>
          i in w.contexts[ctx.value] && w.contexts[ctx.value][i] == Instance(r))
  }

  ghost predicate Answer(w: World, ctx: Option<nat>, i: Interface, r: Ref) {
    Typed(w, ctx, i, r) && Recorded(w, ctx, i, r)
  }

  /** An object is on record itself, and every dependency it holds is one its scope answers. */
  ghost predicate ObjectOk(w: World, j: nat)
    requires j < |w.heap|
  {
    var o := w.heap[j];
    && BindingOf(w, o.interface).Some?
    && (ScopeOf(w, o.interface) != Request ==> BindingOf(w, o.interface).value.provider == Build(o.deps))
    && ValidContext(w, o.ctx)
    && Recorded(w, o.ctx, o.interface, Made(j))
    && |o.deps| == |o.args|
    && (forall p :: 0 <= p < |o.args| ==>
          Answer(w, o.ctx, o.deps[p], o.args[p]) && (o.args[p].Made? ==> o.args[p].index < j))
  }

  ghost predicate BindingsOk(w: World) {
    forall i :: i in w.bindings && w.bindings[i].provider.Instance? ==> w.bindings[i].provider.obj.Given?
  }

  ghost predicate MemoriesOk(w: World) {
    && (forall i :: i in w.singletons ==> ScopeOf(w, i) == Singleton && Typed(w, None, i, w.singletons[i]))
    && (forall c, i :: 0 <= c < |w.contexts| && i in w.contexts[c] ==>
          if (c, i) in w.put then w.contexts[c][i].Instance? ==> w.contexts[c][i].obj.Given?
          else ScopeOf(w, i) == Request && w.contexts[c][i].Instance? && Typed(w, Some(c), i, w.contexts[c][i].obj))
    && (forall c, i :: (c, i) in w.put ==> c < |w.contexts| && i in w.contexts[c])
  }

  ghost predicate Sound(w: World) {
    && BindingsOk(w) && MemoriesOk(w)
    && forall j :: 0 <= j < |w.heap| ==> ObjectOk(w, j)
  }

  // ----- extension keeps what was sound -----

  lemma AnswerSurvives(
      rank: Interface -> nat, w: World, w': World, ctx: Option<nat>, top: nat, ctx': Option<nat>, i: Interface, r: Ref)
    requires Extends(rank, w, w', ctx, top) && ValidContext(w, ctx') && Answer(w, ctx', i, r)
    ensures Answer(w', ctx', i, r)
  {
    assert BindingOf(w', i) == BindingOf(w, i);
  }

  lemma ObjectSurvives(rank: Interface -> nat, w: World, w': World, ctx: Option<nat>, top: nat, j: nat)
    requires Extends(rank, w, w', ctx, top) && j < |w.heap| && ObjectOk(w, j)
    ensures ObjectOk(w', j)
  {
    var o := w.heap[j];
    assert BindingOf(w', o.interface) == BindingOf(w, o.interface);
    forall p | 0 <= p < |o.args|
      ensures Answer(w', o.ctx, o.deps[p], o.args[p])
    {
      AnswerSurvives(rank, w, w', ctx, top, o.ctx, o.deps[p], o.args[p]);
    }
  }

  // ----- building one object -----

  /** The world with a new object for `i`, kept as its scope keeps it. */
  function Added(w: World, ctx: Option<nat>, i: Interface, deps: seq<Interface>, args: seq<Ref>): World
    requires ValidContext(w, ctx)
  {
    var w' := w.(heap := w.heap + [Object(i, deps, args, ctx)]);
    if PutByHand(w, ctx, i) && ScopeOf(w, i) == Request then w'
    else Keep(w', ctx, i, ScopeOf(w, i), Made(|w.heap|))
  }

  ghost predicate Unrecorded(w: World, ctx: Option<nat>, i: Interface) {
    && (ScopeOf(w, i) == Singleton ==> i !in w.singletons)
    && (ScopeOf(w, i) == Request && ctx.Some? && ctx.value < |w.contexts| && !PutByHand(w, ctx, i) ==>
          i !in w.contexts[ctx.value])
  }

  lemma AddedExtends(
      rank: Interface -> nat, w: World, ctx: Option<nat>, i: Interface, deps: seq<Interface>, args: seq<Ref>)
    requires ValidContext(w, ctx) && Unrecorded(w, ctx, i)
    ensures Extends(rank, w, Added(w, ctx, i, deps, args), ctx, rank(i) + 1)
  {
    var grown := w.(heap := w.heap + [Object(i, deps, args, ctx)]);
    HeapGrowthExtends(rank, w, grown, ctx, rank(i) + 1);
    if !(PutByHand(w, ctx, i) && ScopeOf(w, i) == Request) {
      KeepExtends(rank, w, grown, ctx, i, ScopeOf(w, i), Made(|w.heap|));
    }
  }

  lemma HeapGrowthExtends(rank: Interface -> nat, w: World, w': World, ctx: Option<nat>, top: nat)
    requires w' == w.(heap := w'.heap) && w.heap <= w'.heap
    requires forall j :: |w.heap| <= j < |w'.heap| ==> w'.heap[j].ctx == ctx && rank(w'.heap[j].interface) < top
    ensures Extends(rank, w, w', ctx, top)
  {
    assert forall k :: BindingOf(w', k) == BindingOf(w, k);
  }

  lemma AddedIsSound(
      rank: Interface -> nat, w: World, ctx: Option<nat>, i: Interface, deps: seq<Interface>, args: seq<Ref>)
    requires Sound(w) && ValidContext(w, ctx) && Unrecorded(w, ctx, i)
    requires BindingOf(w, i).Some?
    requires ScopeOf(w, i) != Request ==> BindingOf(w, i).value.provider == Build(deps)
    requires |deps| == |args|
    requires forall p :: 0 <= p < |args| ==> Answer(w, ctx, deps[p], args[p])
    ensures var w' := Added(w, ctx, i, deps, args);
            Sound(w') && Answer(w', ctx, i, Made(|w.heap|))
  {
    var w' := Added(w, ctx, i, deps, args);
    AddedExtends(rank, w, ctx, i, deps, args);
    NewObjectIsOk(rank, w, ctx, i, deps, args);
    forall j | 0 <= j < |w.heap|
      ensures ObjectOk(w', j)
    {
      ObjectSurvives(rank, w, w', ctx, rank(i) + 1, j);
    }
    AddedMemoriesOk(rank, w, ctx, i, deps, args);
  }

  lemma NewObjectIsOk(
      rank: Interface -> nat, w: World, ctx: Option<nat>, i: Interface, deps: seq<Interface>, args: seq<Ref>)
    requires ValidContext(w, ctx) && Unrecorded(w, ctx, i) && BindingOf(w, i).Some?
    requires ScopeOf(w, i) != Request ==> BindingOf(w, i).value.provider == Build(deps)
    requires |deps| == |args|
    requires forall p :: 0 <= p < |args| ==> Answer(w, ctx, deps[p], args[p])
    ensures var w' := Added(w, ctx, i, deps, args);
            ObjectOk(w', |w.heap|) && Answer(w', ctx, i, Made(|w.heap|))
  {
    var w' := Added(w, ctx, i, deps, args);
    AddedExtends(rank, w, ctx, i, deps, args);
    assert BindingOf(w', i) == BindingOf(w, i);
    forall p | 0 <= p < |args|
      ensures Answer(w', ctx, deps[p], args[p]) && (args[p].Made? ==> args[p].index < |w.heap|)
    {
      AnswerSurvives(rank, w, w', ctx, rank(i) + 1, ctx, deps[p], args[p]);
    }
  }

  lemma AddedMemoriesOk(
      rank: Interface -> nat, w: World, ctx: Option<nat>, i: Interface, deps: seq<Interface>, args: seq<Ref>)
    requires ValidContext(w, ctx) && MemoriesOk(w) && Unrecorded(w, ctx, i)
    ensures MemoriesOk(Added(w, ctx, i, deps, args))
  {
    var w' := Added(w, ctx, i, deps, args);
    AddedExtends(rank, w, ctx, i, deps, args);
    forall k | k in w'.singletons
      ensures ScopeOf(w', k) == Singleton && Typed(w', None, k, w'.singletons[k])
    {
      assert BindingOf(w', k) == BindingOf(w, k);
    }
    forall c, k | 0 <= c < |w'.contexts| && k in w'.contexts[c] && (c, k) !in w'.put
      ensures ScopeOf(w', k) == Request && w'.contexts[c][k].Instance? && Typed(w', Some(c), k, w'.contexts[c][k].obj)
    {
      assert BindingOf(w', k) == BindingOf(w, k);
    }
  }

  // ----- resolution -----

  lemma BoundIsSound(rank: Interface -> nat, w: World, ctx: Option<nat>, i: Interface)
    requires Sound(w) && BindingOf(w, i).Some?
    ensures Sound(Bound(w, i))
  {
    BoundExtends(rank, w, i, ctx);
    forall j | 0 <= j < |w.heap|
      ensures ObjectOk(Bound(w, i), j)
    {
      ObjectSurvives(rank, w, Bound(w, i), ctx, rank(i) + 1, j);
    }
    assert forall k :: BindingOf(Bound(w, i), k) == BindingOf(w, k);
  }

  lemma BoundKeepsBindings(w: World, i: Interface, k: Interface)
    requires BindingOf(w, i).Some?
    ensures BindingOf(Bound(w, i), k) == BindingOf(w, k)
  {
  }

  /** A scope that remembers an object answers with it. */
  lemma RememberedIsSound(w: World, ctx: Option<nat>, i: Interface, r: Ref)
    requires ValidContext(w, ctx) && Sound(w) && i in w.bindings
    requires Remembered(w, ctx, i, w.bindings[i].scope) == Some(Instance(r))
    ensures Answer(w, ctx, i, r)
  {
    if w.bindings[i].scope == Singleton {
      assert Typed(w, None, i, r);
    } else {
      var c := ctx.value;
      assert ctx == Some(c) && w.contexts[c][i] == Instance(r);
      if (c, i) in w.put {
        assert r.Given?;
      } else {
        assert Typed(w, Some(c), i, r);
      }
    }
  }

  /** Having the binding created beforehand makes no difference. */
  lemma ResolveAfterBinding(rank: Interface -> nat, w: World, ctx: Option<nat>, i: Interface)
    requires Acyclic(rank, w) && ValidContext(w, ctx) && BindingOf(w, i).Some?
    ensures Acyclic(rank, Bound(w, i))
    ensures Resolve(rank, Bound(w, i), ctx, i) == Resolve(rank, w, ctx, i)
  {
    var w1 := Bound(w, i);
    assert w1.bindings[i := w1.bindings[i]] == w1.bindings;
    assert Bound(w1, i) == w1;
  }

  /** A registered instance, seen for the first time by its scope. */
  lemma KeptGivenIsRemembered(w: World, ctx: Option<nat>, i: Interface)
    requires ValidContext(w, ctx) && Sound(w) && i in w.bindings && w.bindings[i].provider.Instance?
    requires Remembered(w, ctx, i, w.bindings[i].scope).None?
    ensures var r := w.bindings[i].provider.obj;
            var w' := Keep(w, ctx, i, w.bindings[i].scope, r);
            BindingsOk(w') && MemoriesOk(w') && Answer(w', ctx, i, r)
  {
    var w' := Keep(w, ctx, i, w.bindings[i].scope, w.bindings[i].provider.obj);
    assert forall k :: BindingOf(w', k) == BindingOf(w, k);
  }

  lemma KeepGivenIsSound(rank: Interface -> nat, w: World, ctx: Option<nat>, i: Interface)
    requires ValidContext(w, ctx) && Sound(w) && i in w.bindings && w.bindings[i].provider.Instance?
    requires Remembered(w, ctx, i, w.bindings[i].scope).None?
    ensures var r := w.bindings[i].provider.obj;
            var w' := Keep(w, ctx, i, w.bindings[i].scope, r);
            Sound(w') && Answer(w', ctx, i, r)
  {
    var r := w.bindings[i].provider.obj;
    var w' := Keep(w, ctx, i, w.bindings[i].scope, r);
    KeepExtends(rank, w, w, ctx, i, w.bindings[i].scope, r);
    KeptGivenIsRemembered(w, ctx, i);
    forall j | 0 <= j < |w.heap|
      ensures ObjectOk(w', j)
    {
      ObjectSurvives(rank, w, w', ctx, rank(i) + 1, j);
    }
  }

  lemma {:induction false} ResolveIsSound(rank: Interface -> nat, w: World, ctx: Option<nat>, i: Interface)
    requires Acyclic(rank, w) && ValidContext(w, ctx) && Sound(w)
    ensures Sound(Resolve(rank, w, ctx, i).0)
    ensures Resolve(rank, w, ctx, i).1.Some? ==>
              Answer(Resolve(rank, w, ctx, i).0, ctx, i, Resolve(rank, w, ctx, i).1.value)
    decreases rank(i), 2, 0
  {
    var b := BindingOf(w, i);
    if b.Some? {
      var w1 := Bound(w, i);
      BoundIsSound(rank, w, ctx, i);
      BoundKeepsBindings(w, i, i);
      ResolveAfterBinding(rank, w, ctx, i);
      assert Bound(w1, i) == w1 by { assert w1.bindings[i := w1.bindings[i]] == w1.bindings; }
      var memory := Remembered(w, ctx, i, b.value.scope);
      assert memory == Remembered(w1, ctx, i, b.value.scope);
      var p := memory.GetOr(b.value.provider);
      if p.Build? {
        BuildIsSound(rank, w1, ctx, i, p.deps);
      } else if memory.Some? {
        RememberedIsSound(w1, ctx, i, p.obj);
      } else {
        KeepGivenIsSound(rank, w1, ctx, i);
      }
    }
  }

  lemma {:induction false} BuildIsSound(
      rank: Interface -> nat, w: World, ctx: Option<nat>, i: Interface, deps: seq<Interface>)
    requires Acyclic(rank, w) && ValidContext(w, ctx) && Sound(w) && i in w.bindings
    requires Below(rank, i, Build(deps))
    requires Remembered(w, ctx, i, w.bindings[i].scope).GetOr(w.bindings[i].provider) == Build(deps)
    ensures Sound(Resolve(rank, w, ctx, i).0)
    ensures Resolve(rank, w, ctx, i).1.Some? ==>
              Answer(Resolve(rank, w, ctx, i).0, ctx, i, Resolve(rank, w, ctx, i).1.value)
    decreases rank(i), 1, 0
  {
    assert Bound(w, i) == w by { assert w.bindings[i := w.bindings[i]] == w.bindings; }
    ResolveAllIsSound(rank, w, ctx, deps, rank(i));
    ResolveAllExtends(rank, w, ctx, deps, rank(i));
    var (w', args) := ResolveAll(rank, w, ctx, deps, rank(i));
    assert BindingOf(w', i) == BindingOf(w, i);
    if args.Some? {
      AddedIsSound(rank, w', ctx, i, deps, args.value);
      AddedIsResolve(rank, w, ctx, i, deps);
    }
  }

  /** Resolving by building is exactly adding the object and keeping it. */
  lemma AddedIsResolve(rank: Interface -> nat, w: World, ctx: Option<nat>, i: Interface, deps: seq<Interface>)
    requires Acyclic(rank, w) && ValidContext(w, ctx) && Sound(w) && i in w.bindings
    requires Below(rank, i, Build(deps))
    requires Remembered(w, ctx, i, w.bindings[i].scope).GetOr(w.bindings[i].provider) == Build(deps)
    requires ResolveAll(rank, w, ctx, deps, rank(i)).1.Some?
    ensures var (w', args) := ResolveAll(rank, w, ctx, deps, rank(i));
            Resolve(rank, w, ctx, i) == (Added(w', ctx, i, deps, args.value), Some(Made(|w'.heap|)))
  {
    assert Bound(w, i) == w by { assert w.bindings[i := w.bindings[i]] == w.bindings; }
    var w' := ResolveAll(rank, w, ctx, deps, rank(i)).0;
    ResolveAllExtends(rank, w, ctx, deps, rank(i));
    assert BindingOf(w', i) == BindingOf(w, i);
  }

  lemma {:induction false} ResolveAllIsSound(
      rank: Interface -> nat, w: World, ctx: Option<nat>, deps: seq<Interface>, top: nat)
    requires Acyclic(rank, w) && ValidContext(w, ctx) && Sound(w)
    requires forall d :: d in deps ==> rank(d) < top
    ensures Sound(ResolveAll(rank, w, ctx, deps, top).0)
    ensures var (w', args) := ResolveAll(rank, w, ctx, deps, top);
            args.Some? ==> forall p :: 0 <= p < |deps| ==> Answer(w', ctx, deps[p], args.value[p])
    decreases top, 0, |deps|
  {
    if deps != [] {
      ResolveIsSound(rank, w, ctx, deps[0]);
      var (w1, first) := Resolve(rank, w, ctx, deps[0]);
      if first.Some? {
        ResolveAllIsSound(rank, w1, ctx, deps[1..], top);
        ResolveAllExtends(rank, w1, ctx, deps[1..], top);
        var (w2, rest) := ResolveAll(rank, w1, ctx, deps[1..], top);
        AnswerSurvives(rank, w1, w2, ctx, top, ctx, deps[0], first.value);
        if rest.Some? {
          AnswersJoin(w2, ctx, deps, first.value, rest.value);
        }
      }
    }
  }

  lemma AnswersJoin(w: World, ctx: Option<nat>, deps: seq<Interface>, first: Ref, rest: seq<Ref>)
    requires |deps| == |rest| + 1 && Answer(w, ctx, deps[0], first)
    requires forall p :: 0 <= p < |rest| ==> Answer(w, ctx, deps[1..][p], rest[p])
    ensures forall p :: 0 <= p < |deps| ==> Answer(w, ctx, deps[p], ([first] + rest)[p])
  {
    forall p | 0 <= p < |deps|
      ensures Answer(w, ctx, deps[p], ([first] + rest)[p])
    {
      if p > 0 {
        assert deps[p] == deps[1..][p - 1];
      }
    }
  }
}
