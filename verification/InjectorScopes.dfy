/** What a class that is bound automatically, or registered in one way or another, is shared by. */
module InjectorScopes {
  import opened Prelude
  import opened Injector
  import opened InjectorSharing
  import opened EllarInjectors

  /** Resolving gave an object that was not there before, built for `i` from these dependencies. */
  ghost predicate IsNew(w: World, w': World, r: Ref, i: Interface, deps: seq<Interface>, ctx: Option<nat>) {
    && r.Made? && |w.heap| <= r.index < |w'.heap|
    && w'.heap[r.index].interface == i && w'.heap[r.index].deps == deps && w'.heap[r.index].ctx == ctx
  }

  lemma BuildsAnew(rank: Interface -> nat, w: World, ctx: Option<nat>, i: Interface, deps: seq<Interface>, scope: Scope)
    requires Acyclic(rank, w) && ValidContext(w, ctx) && BindingOf(w, i) == Some(Binding(Build(deps), scope))
    requires Remembered(w, ctx, i, scope).None?
    ensures var (w', r) := Resolve(rank, w, ctx, i);
            && (r.Some? ==> IsNew(w, w', r.value, i, deps, ctx))
            && BindingOf(w', i) == BindingOf(w, i)
            && (r.Some? && scope == Singleton ==> i in w'.singletons && w'.singletons[i] == r.value)
            && (r.Some? && scope == Request && ctx.Some? ==>
                  i in w'.contexts[ctx.value] && w'.contexts[ctx.value][i] == Instance(r.value))
  {
    ResolveExtends(rank, w, ctx, i);
    ProvidesNew(rank, Bound(w, i), ctx, i, deps);
  }

  lemma ProvidesNew(rank: Interface -> nat, w: World, ctx: Option<nat>, i: Interface, deps: seq<Interface>)
    requires Acyclic(rank, w) && ValidContext(w, ctx) && Below(rank, i, Build(deps))
    ensures var (w', r) := Provide(rank, w, ctx, i, Build(deps));
            r.Some? ==> IsNew(w, w', r.value, i, deps, ctx)
  {
    ResolveAllExtends(rank, w, ctx, deps, rank(i));
  }

  /** Every successful answer is a new object, in whatever request and however often one asks. */
  ghost predicate GivesNewObjects(rank: Interface -> nat, w: World, i: Interface, deps: seq<Interface>)
    requires Acyclic(rank, w)
  {
    forall ctx: Option<nat> :: ValidContext(w, ctx) ==>
      var (w', r) := Resolve(rank, w, ctx, i);
      && (r.Some? ==> IsNew(w, w', r.value, i, deps, ctx))
      && forall again: Option<nat> :: ValidContext(w, again) ==>
           var (w2, r2) := Resolve(rank, w', again, i);
           r2.Some? ==> IsNew(w', w2, r2.value, i, deps, again) && r2 != r
  }

  /** The first successful answer is a new object, and whoever asks later gets the same. */
  ghost predicate GivesOneObject(rank: Interface -> nat, w: World, i: Interface, deps: seq<Interface>)
    requires Acyclic(rank, w)
  {
    forall ctx: Option<nat> :: ValidContext(w, ctx) ==>
      var (w', r) := Resolve(rank, w, ctx, i);
      r.Some? ==>
        && IsNew(w, w', r.value, i, deps, ctx)
        && forall again: Option<nat> :: ValidContext(w, again) ==>
             Resolve(rank, w', again, i).1 == r && Resolve(rank, w', again, i).0.heap == w'.heap
  }

  /** A request gets one object, another request another, and outside any request every answer is new. */
  ghost predicate GivesOnePerRequest(rank: Interface -> nat, w: World, i: Interface, deps: seq<Interface>)
    requires Acyclic(rank, w)
  {
    forall ctx: Option<nat> :: ValidContext(w, ctx) ==>
      var (w', r) := Resolve(rank, w, ctx, i);
      r.Some? ==>
        && IsNew(w, w', r.value, i, deps, ctx)
        && forall again: Option<nat> :: ValidContext(w, again) ==>
             var (w2, r2) := Resolve(rank, w', again, i);
             if again == ctx && ctx.Some? then r2 == r && w2.heap == w'.heap
             else r2.Some? ==> IsNew(w', w2, r2.value, i, deps, again) && r2 != r
  }

  ghost predicate Unkept(w: World, i: Interface) {
    i !in w.singletons && forall c :: 0 <= c < |w.contexts| ==> i !in w.contexts[c]
  }

  lemma TransientGivesNewObjects(rank: Interface -> nat, w: World, i: Interface, deps: seq<Interface>)
    requires Acyclic(rank, w) && BindingOf(w, i) == Some(Binding(Build(deps), Transient))
    ensures GivesNewObjects(rank, w, i, deps)
  {
    forall ctx: Option<nat> | ValidContext(w, ctx)
      ensures var (w', r) := Resolve(rank, w, ctx, i);
              && (r.Some? ==> IsNew(w, w', r.value, i, deps, ctx))
              && forall again: Option<nat> :: ValidContext(w, again) ==>
                   var (w2, r2) := Resolve(rank, w', again, i);
                   r2.Some? ==> IsNew(w', w2, r2.value, i, deps, again) && r2 != r
    {
      BuildsAnew(rank, w, ctx, i, deps, Transient);
      var (w', r) := Resolve(rank, w, ctx, i);
      forall again: Option<nat> | ValidContext(w, again)
        ensures var (w2, r2) := Resolve(rank, w', again, i);
                r2.Some? ==> IsNew(w', w2, r2.value, i, deps, again) && r2 != r
      {
        BuildsAnew(rank, w', again, i, deps, Transient);
      }
    }
  }

  lemma SingletonAnswers(rank: Interface -> nat, w: World, ctx: Option<nat>, i: Interface, r: Ref)
    requires Acyclic(rank, w) && ValidContext(w, ctx) && ScopeOf(w, i) == Singleton
    requires i in w.singletons && w.singletons[i] == r
    ensures Resolve(rank, w, ctx, i).1 == Some(r) && Resolve(rank, w, ctx, i).0.heap == w.heap
  {
    assert Remembered(w, ctx, i, Singleton) == Some(Instance(r));
  }

  lemma SingletonGivesOneObject(rank: Interface -> nat, w: World, i: Interface, deps: seq<Interface>)
    requires Acyclic(rank, w) && BindingOf(w, i) == Some(Binding(Build(deps), Singleton)) && i !in w.singletons
    ensures GivesOneObject(rank, w, i, deps)
  {
    forall ctx: Option<nat> | ValidContext(w, ctx) && Resolve(rank, w, ctx, i).1.Some?
      ensures var (w', r) := Resolve(rank, w, ctx, i);
              && IsNew(w, w', r.value, i, deps, ctx)
              && forall again: Option<nat> :: ValidContext(w, again) ==>
                   Resolve(rank, w', again, i).1 == r && Resolve(rank, w', again, i).0.heap == w'.heap
    {
      BuildsAnew(rank, w, ctx, i, deps, Singleton);
      var (w', r) := Resolve(rank, w, ctx, i);
      forall again: Option<nat> | ValidContext(w, again)
        ensures Resolve(rank, w', again, i).1 == r && Resolve(rank, w', again, i).0.heap == w'.heap
      {
        SingletonAnswers(rank, w', again, i, r.value);
      }
    }
  }

  lemma RequestAnswers(rank: Interface -> nat, w: World, c: nat, i: Interface, r: Ref)
    requires Acyclic(rank, w) && c < |w.contexts| && ScopeOf(w, i) == Request
    requires i in w.contexts[c] && w.contexts[c][i] == Instance(r)
    ensures Resolve(rank, w, Some(c), i).1 == Some(r) && Resolve(rank, w, Some(c), i).0.heap == w.heap
  {
    assert Remembered(w, Some(c), i, Request) == Some(Instance(r));
  }

  lemma RequestGivesOnePerRequest(rank: Interface -> nat, w: World, i: Interface, deps: seq<Interface>)
    requires Acyclic(rank, w) && BindingOf(w, i) == Some(Binding(Build(deps), Request)) && Unkept(w, i)
    ensures GivesOnePerRequest(rank, w, i, deps)
  {
    forall ctx: Option<nat> | ValidContext(w, ctx) && Resolve(rank, w, ctx, i).1.Some?
      ensures var (w', r) := Resolve(rank, w, ctx, i);
              && IsNew(w, w', r.value, i, deps, ctx)
              && forall again: Option<nat> :: ValidContext(w, again) ==>
                   var (w2, r2) := Resolve(rank, w', again, i);
                   if again == ctx && ctx.Some? then r2 == r && w2.heap == w'.heap
                   else r2.Some? ==> IsNew(w', w2, r2.value, i, deps, again) && r2 != r
    {
      BuildsAnew(rank, w, ctx, i, deps, Request);
      ResolveExtends(rank, w, ctx, i);
      var (w', r) := Resolve(rank, w, ctx, i);
      forall again: Option<nat> | ValidContext(w, again)
        ensures var (w2, r2) := Resolve(rank, w', again, i);
                if again == ctx && ctx.Some? then r2 == r && w2.heap == w'.heap
                else r2.Some? ==> IsNew(w', w2, r2.value, i, deps, again) && r2 != r
      {
        if again == ctx && ctx.Some? {
          RequestAnswers(rank, w', ctx.value, i, r.value);
        } else {
          assert again.Some? ==> w'.contexts[again.value] == w.contexts[again.value];
          BuildsAnew(rank, w', again, i, deps, Request);
        }
      }
    }
  }

  /** How an interface bound to a class is shared, scope by scope. */
  ghost predicate SharedAs(rank: Interface -> nat, w: World, i: Interface, deps: seq<Interface>, scope: Scope)
    requires Acyclic(rank, w)
  {
    match scope
    case Transient => GivesNewObjects(rank, w, i, deps)
    case Singleton => GivesOneObject(rank, w, i, deps)
    case Request => GivesOnePerRequest(rank, w, i, deps)
  }

  lemma ScopeDecidesSharing(rank: Interface -> nat, w: World, i: Interface, deps: seq<Interface>, scope: Scope)
    requires Acyclic(rank, w) && BindingOf(w, i) == Some(Binding(Build(deps), scope)) && Unkept(w, i)
    ensures SharedAs(rank, w, i, deps, scope)
  {
    match scope
    case Transient => TransientGivesNewObjects(rank, w, i, deps);
    case Singleton => SingletonGivesOneObject(rank, w, i, deps);
    case Request => RequestGivesOnePerRequest(rank, w, i, deps);
  }

  // ----- classes that are not registered -----

  /** With automatic binding, a class that declares no scope gives a new object every time. */
  lemma UndeclaredClassesAreTransient(rank: Interface -> nat, w: World, i: Interface)
    requires Acyclic(rank, w) && i !in w.bindings && i in w.classes && w.classes[i].declared.None? && w.autoBind
    ensures GivesNewObjects(rank, w, i, w.classes[i].deps)
  {
    TransientGivesNewObjects(rank, w, i, w.classes[i].deps);
  }

  /** A decorated class is shared as it declares, with or without automatic binding. */
  lemma DeclaredClassesAreSharedAsDeclared(rank: Interface -> nat, w: World, i: Interface)
    requires Acyclic(rank, w) && i !in w.bindings && i in w.classes && w.classes[i].declared.Some? && Unkept(w, i)
    ensures SharedAs(rank, w, i, w.classes[i].deps, w.classes[i].declared.value)
  {
    ScopeDecidesSharing(rank, w, i, w.classes[i].deps, w.classes[i].declared.value);
  }

  /** Without automatic binding a class that is neither registered nor decorated is refused, and nothing changes. */
  lemma UnboundClassesAreRefused(rank: Interface -> nat, w: World, ctx: Option<nat>, i: Interface)
    requires Acyclic(rank, w) && ValidContext(w, ctx) && i !in w.bindings
    requires i !in w.classes || (!w.autoBind && w.classes[i].declared.None?)
    ensures Resolve(rank, w, ctx, i) == (w, None)
  {
  }

  /** The binding of what is asked for is stored, automatic ones included, and resolving never changes it. */
  lemma AutomaticBindingsAreStored(rank: Interface -> nat, w: World, ctx: Option<nat>, i: Interface)
    requires Acyclic(rank, w) && ValidContext(w, ctx) && BindingOf(w, i).Some?
    ensures var w' := Resolve(rank, w, ctx, i).0;
            i in w'.bindings && w'.bindings[i] == BindingOf(w, i).value
  {
    var p := Remembered(w, ctx, i, BindingOf(w, i).value.scope).GetOr(BindingOf(w, i).value.provider);
    ProvideExtends(rank, Bound(w, i), ctx, i, p);
    var w1 := Provide(rank, Bound(w, i), ctx, i, p).0;
    assert i in w1.bindings && BindingOf(w1, i) == BindingOf(Bound(w, i), i);
  }

  // ----- registration -----

  /** The container after one registration. */
  function Registered(w: World, base: Interface, concrete: Concrete, scope: Option<Scope>): Option<World> {
    match RegistrationOf(w.classes, base, concrete, scope)
    case None => None
    case Some(b) => Some(w.(bindings := w.bindings[base := b]))
  }

  /** A registered class is shared by the scope given, or else by the one the class declares, or else not at all. */
  lemma RegisteredClassesAreSharedAsGiven(
      rank: Interface -> nat, w: World, base: Interface, concrete: Concrete, scope: Option<Scope>)
    requires concrete.Itself? || concrete.ClassOf?
    requires var c := if concrete.ClassOf? then concrete.concrete else base;
             c in w.classes && forall d :: d in w.classes[c].deps ==> rank(d) < rank(base)
    requires Acyclic(rank, w) && Unkept(w, base)
    ensures var c := if concrete.ClassOf? then concrete.concrete else base;
            var declared := w.classes[c].declared;
            var used := if scope.Some? then scope.value else if declared.Some? then declared.value else Transient;
            && Registered(w, base, concrete, scope).Some?
            && var w' := Registered(w, base, concrete, scope).value;
               Acyclic(rank, w') && SharedAs(rank, w', base, w.classes[c].deps, used)
  {
    var c := if concrete.ClassOf? then concrete.concrete else base;
    var w' := Registered(w, base, concrete, scope).value;
    var declared := w.classes[c].declared;
    var used := if scope.Some? then scope.value else if declared.Some? then declared.value else Transient;
    assert BindingOf(w', base) == Some(Binding(Build(w.classes[c].deps), used));
    ScopeDecidesSharing(rank, w', base, w.classes[c].deps, used);
  }

  /** A registered object is what is answered, and nothing is built; a class that is not known is not registered. */
  lemma RegisteredObjectsAreAnswered(
      rank: Interface -> nat, w: World, ctx: Option<nat>, base: Interface, obj: Ref, scope: Option<Scope>)
    requires Acyclic(rank, w) && ValidContext(w, ctx) && Unkept(w, base)
    ensures Registered(w, base, ValueOf(obj), scope).Some?
    ensures var w' := Registered(w, base, ValueOf(obj), scope).value;
            && Acyclic(rank, w')
            && Resolve(rank, w', ctx, base).1 == Some(obj) && Resolve(rank, w', ctx, base).0.heap == w.heap
    ensures base !in w.classes ==> Registered(w, base, Itself, scope).None?
  {
    assert ctx.Some? ==> base !in w.contexts[ctx.value];
  }

  /** The scope that an object is registered with: the one given, or what its interface declares, or none. */
  function UsedScope(w: World, base: Interface, scope: Option<Scope>): Scope {
    if scope.Some? then scope.value
    else if base in w.classes && w.classes[base].declared.Some? then w.classes[base].declared.value
    else Transient
  }

  lemma ObjectIsRegistered(
      rank: Interface -> nat, w: World, base: Interface, obj: Ref, scope: Option<Scope>)
    requires Acyclic(rank, w)
    ensures Registered(w, base, ValueOf(obj), scope) ==
            Some(w.(bindings := w.bindings[base := Binding(Instance(obj), UsedScope(w, base, scope))]))
    ensures Acyclic(rank, Registered(w, base, ValueOf(obj), scope).value)
  {
  }

  /** A bound object is answered unless something is remembered, and what is answered is remembered by its scope. */
  lemma ObjectIsAnswered(rank: Interface -> nat, w: World, ctx: Option<nat>, base: Interface, obj: Ref, scope: Scope)
    requires Acyclic(rank, w) && ValidContext(w, ctx)
    requires BindingOf(w, base) == Some(Binding(Instance(obj), scope))
    requires var memory := Remembered(w, ctx, base, scope); memory.Some? ==> memory.value.Instance?
    ensures var memory := Remembered(w, ctx, base, scope);
            var (w', r) := Resolve(rank, w, ctx, base);
            && r == Some(if memory.Some? then memory.value.obj else obj)
            && Remembered(w', ctx, base, scope) == (if scope == Transient || (scope == Request && ctx.None?) then None
                                                    else Some(Instance(r.value)))
            && w'.classes == w.classes
  {
  }

  /**
   Of two objects registered in turn for an interface, the later is answered also when the earlier was resolved in
   between, unless a scope remembers the earlier: a singleton always, and request scope within a request.
   */
  lemma LaterObjectIsAnsweredUnlessRemembered(
      rank: Interface -> nat, w: World, ctx: Option<nat>, base: Interface, first: Ref, second: Ref,
      scope: Option<Scope>)
    requires Acyclic(rank, w) && ValidContext(w, ctx) && Unkept(w, base)
    ensures Registered(w, base, ValueOf(first), scope).Some? &&
            var w1 := Registered(w, base, ValueOf(first), scope).value;
            Acyclic(rank, w1) &&
            var w2 := Resolve(rank, w1, ctx, base).0;
            Registered(w2, base, ValueOf(second), scope).Some? &&
            var w3 := Registered(w2, base, ValueOf(second), scope).value;
            var used := UsedScope(w, base, scope);
            Acyclic(rank, w3) &&
            Resolve(rank, w3, ctx, base).1 ==
            Some(if used == Singleton || (used == Request && ctx.Some?) then first else second)
  {
    var used := UsedScope(w, base, scope);
    ObjectIsRegistered(rank, w, base, first, scope);
    var w1 := Registered(w, base, ValueOf(first), scope).value;
    assert Remembered(w1, ctx, base, used).None?;
    ObjectIsAnswered(rank, w1, ctx, base, first, used);
    var w2 := Resolve(rank, w1, ctx, base).0;
    ObjectIsRegistered(rank, w2, base, second, scope);
    var w3 := Registered(w2, base, ValueOf(second), scope).value;
    assert Remembered(w3, ctx, base, used) == Remembered(w2, ctx, base, used);
    ObjectIsAnswered(rank, w3, ctx, base, second, used);
  }

  // ----- dependencies -----

  /** What two lists come to, one after the other. */
  function Both(first: seq<Ref>, rest: Option<seq<Ref>>): Option<seq<Ref>> {
    match rest
    case None => None
    case Some(refs) => Some(first + refs)
  }

  lemma BothJoins(one: Ref, first: seq<Ref>, rest: Option<seq<Ref>>)
    ensures Both([one] + first, rest) == Both([one], Both(first, rest))
  {
    if rest.Some? {
      assert [one] + first + rest.value == [one] + (first + rest.value);
    }
  }

  lemma ResolveAllUnfolds(
      rank: Interface -> nat, w: World, ctx: Option<nat>, d: Interface, rest: seq<Interface>, top: nat)
    requires Acyclic(rank, w) && ValidContext(w, ctx)
    requires rank(d) < top && forall x :: x in rest ==> rank(x) < top
    ensures var (w1, one) := Resolve(rank, w, ctx, d);
            ResolveAll(rank, w, ctx, [d] + rest, top) ==
            if one.None? then (w1, None)
            else (ResolveAll(rank, w1, ctx, rest, top).0, Both([one.value], ResolveAll(rank, w1, ctx, rest, top).1))
  {
    assert ([d] + rest)[1..] == rest;
  }

  /** Dependencies are resolved one after another: resolving two lists in turn is resolving them joined. */
  lemma {:induction false} DependenciesAreResolvedInOrder(
      rank: Interface -> nat, w: World, ctx: Option<nat>, a: seq<Interface>, b: seq<Interface>, top: nat)
    requires Acyclic(rank, w) && ValidContext(w, ctx)
    requires (forall d :: d in a ==> rank(d) < top) && forall d :: d in b ==> rank(d) < top
    ensures var (w1, first) := ResolveAll(rank, w, ctx, a, top);
            ResolveAll(rank, w, ctx, a + b, top) ==
            if first.None? then (w1, None)
            else (ResolveAll(rank, w1, ctx, b, top).0, Both(first.value, ResolveAll(rank, w1, ctx, b, top).1))
    decreases |a|
  {
    if a == [] {
      assert a + b == b;
      assert forall s: seq<Ref> :: [] + s == s;
    } else {
      var (w1, one) := Resolve(rank, w, ctx, a[0]);
      assert a == [a[0]] + a[1..] && a + b == [a[0]] + (a[1..] + b);
      ResolveAllUnfolds(rank, w, ctx, a[0], a[1..], top);
      ResolveAllUnfolds(rank, w, ctx, a[0], a[1..] + b, top);
      if one.Some? {
        DependenciesAreResolvedInOrder(rank, w1, ctx, a[1..], b, top);
        var (w2, first) := ResolveAll(rank, w1, ctx, a[1..], top);
        if first.Some? {
          BothJoins(one.value, first.value, ResolveAll(rank, w2, ctx, b, top).1);
        }
      }
    }
  }

  /** When a dependency is not bound, resolving ends there and what was resolved before it stays resolved. */
  lemma FailureKeepsWhatWasResolved(
      rank: Interface -> nat, w: World, ctx: Option<nat>, i: Interface, a: seq<Interface>, d: Interface,
      b: seq<Interface>, scope: Scope)
    requires Acyclic(rank, w) && ValidContext(w, ctx)
    requires BindingOf(w, i) == Some(Binding(Build(a + [d] + b), scope)) && Remembered(w, ctx, i, scope).None?
    requires BindingOf(w, d).None?
    ensures forall x :: x in a ==> rank(x) < rank(i)
    ensures var (w1, before) := ResolveAll(rank, Bound(w, i), ctx, a, rank(i));
            before.Some? ==> Resolve(rank, w, ctx, i) == (w1, None)
  {
    var deps := a + [d] + b;
    assert Below(rank, i, Build(deps));
    assert forall x :: x in a || x == d ==> x in deps;
    assert deps == a + ([d] + b);
    DependenciesAreResolvedInOrder(rank, Bound(w, i), ctx, a, [d] + b, rank(i));
    ResolveAllExtends(rank, Bound(w, i), ctx, a, rank(i));
    assert BindingOf(Bound(w, i), d) == BindingOf(w, d);
    ResolveAllUnfolds(rank, ResolveAll(rank, Bound(w, i), ctx, a, rank(i)).0, ctx, d, b, rank(i));
  }
}
