/** A diamond of modules in which a deferred module is given a service of a deferred module it imports. */
module ModuleDiamond {
  import opened Prelude
  import opened OrderedDicts
  import opened ModuleGraph
  import opened ModuleOrder
  import opened ModuleBuild
  import opened ModuleCreation
  import opened Resolvability
  import Injector

  const READY: Service := 2
  const OFFERED: Service := 3

  const ROOT := Simple(0)
  const PROVIDER := ModuleSetup(1, [READY], Factory(true))
  const ASKER := ModuleSetup(2, [OFFERED], Factory(true))

  /** The root lists the provider before the asker, which imports it as well. */
  const DEFERRED_DIAMOND: Graph := map[0 := [Prepared(PROVIDER), Prepared(ASKER)], 2 := [Prepared(PROVIDER)]]

  lemma DeferredDiamondIsAcyclic()
    ensures Acyclic(DiamondRank, DEFERRED_DIAMOND)
    ensures ModulesOf(DEFERRED_DIAMOND, 0) == [Prepared(PROVIDER), Prepared(ASKER)]
    ensures ModulesOf(DEFERRED_DIAMOND, 1) == [] && ModulesOf(DEFERRED_DIAMOND, 2) == [Prepared(PROVIDER)]
  {
  }

  lemma ReadNothing(found: Found, top: nat)
    requires Acyclic(DiamondRank, DEFERRED_DIAMOND)
    ensures ReadList(DiamondRank, DEFERRED_DIAMOND, found, [], top) == found
  {
  }

  lemma ReadProvider()
    ensures Acyclic(DiamondRank, DEFERRED_DIAMOND) && ReadAll(DiamondRank, DEFERRED_DIAMOND, 1) == []
    ensures ReadAll(DiamondRank, DEFERRED_DIAMOND, 2) == [Item(1, PROVIDER)]
  {
    DeferredDiamondIsAcyclic();
    assert [Prepared(PROVIDER)][1..] == [];
    ReadNothing([Item(1, PROVIDER)], 1);
  }

  lemma ReadDiamond()
    ensures Acyclic(DiamondRank, DEFERRED_DIAMOND)
    ensures ReadAll(DiamondRank, DEFERRED_DIAMOND, 0) == [Item(1, PROVIDER), Item(2, ASKER)]
  {
    ReadProvider();
    DeferredDiamondIsAcyclic();
    var one, both := [Item(1, PROVIDER)], [Item(1, PROVIDER), Item(2, ASKER)];
    assert Put([], 1, PROVIDER) == one && Update(one, []) == one;
    assert one[1..] == [] && Put(one, 2, ASKER) == both;
    assert Put(both, 1, PROVIDER) == both;
    assert Update(both, one) == both;
    assert [Prepared(PROVIDER), Prepared(ASKER)][1..] == [Prepared(ASKER)] && [Prepared(ASKER)][1..] == [];
    ReadNothing(both, 2);
    assert ReadList(DiamondRank, DEFERRED_DIAMOND, one, [Prepared(ASKER)], 2) == both;
  }

  /** The asker is taken before the provider, and both are kept. */
  lemma DiamondQueue()
    ensures Acyclic(DiamondRank, DEFERRED_DIAMOND)
    ensures Queue(DiamondRank, DEFERRED_DIAMOND, 0) == [ASKER, PROVIDER, ROOT]
  {
    ReadDiamond();
    assert Values([Item(1, PROVIDER), Item(2, ASKER)]) == [PROVIDER, ASKER];
    assert AllModules(DiamondRank, DEFERRED_DIAMOND, 0) == [ROOT, PROVIDER, ASKER];
  }

  lemma KindSnoc(init: seq<ModuleSetup>, s: ModuleSetup, kind: Kind)
    ensures OfKind(init + [s], kind) == OfKind(init, kind) + Picked(s, kind)
  {
    assert (init + [s])[..|init|] == init;
  }

  function Picked(s: ModuleSetup, kind: Kind): seq<ModuleSetup> {
    if KindOf(s) == kind then [s] else []
  }

  lemma KindOfThree(a: ModuleSetup, b: ModuleSetup, c: ModuleSetup, kind: Kind)
    ensures OfKind([a, b, c], kind) == Picked(a, kind) + Picked(b, kind) + Picked(c, kind)
  {
    KindSnoc([], a, kind);
    KindSnoc([] + [a], b, kind);
    KindSnoc([] + [a] + [b], c, kind);
    assert [] + [a] + [b] + [c] == [a, b, c];
  }

  lemma DiamondKind(kind: Kind)
    ensures OfKind([ASKER, PROVIDER, ROOT], kind) ==
            (if kind == Deferred then [ASKER, PROVIDER] else if kind == Immediate then [ROOT] else [])
  {
    assert KindOf(ASKER) == Deferred && KindOf(PROVIDER) == Deferred && KindOf(ROOT) == Immediate;
    KindOfThree(ASKER, PROVIDER, ROOT, kind);
  }

  /** Kept last, the provider is configured first. */
  lemma DiamondConfigureOrder()
    ensures ConfigureOrder([ASKER, PROVIDER, ROOT]) == [ROOT, PROVIDER, ASKER]
    ensures WithoutApp([ASKER, PROVIDER, ROOT]) == [ROOT, PROVIDER, ASKER]
  {
    DiamondKind(Immediate);
    DiamondKind(Deferred);
    DiamondKind(AppDependent);
    ReverseTwo(ASKER, PROVIDER);
    InThreeParts([ASKER, PROVIDER, ROOT], ROOT, PROVIDER, ASKER);
  }

  lemma ReverseTwo(a: ModuleSetup, b: ModuleSetup)
    ensures Reverse([a, b]) == [b, a]
  {
  }

  lemma InThreeParts(queue: seq<ModuleSetup>, a: ModuleSetup, b: ModuleSetup, c: ModuleSetup)
    requires OfKind(queue, Immediate) == [a] && Reverse(OfKind(queue, Deferred)) == [b, c]
    requires OfKind(queue, AppDependent) == []
    ensures ConfigureOrder(queue) == [a, b, c] && WithoutApp(queue) == [a, b, c]
  {
  }

  /** One service is ready in the core, the other is registered by the provider alone. */
  ghost predicate OffersInTurn(app: Application) {
    && Injector.BindingOf(app.core, OFFERED).None?
    && Injector.BindingOf(app.core, READY).Some? && Injector.BindingOf(app.core, READY).value.provider.Instance?
    && app.registrations(0) == map[] && app.registrations(2) == map[] && app.appBindings == map[]
    && app.middleware == []
    && app.registrations(1).Keys == {OFFERED} && app.registrations(1)[OFFERED].provider.Instance?
  }

  lemma NothingIsReboundInTheDiamond(app: Application)
    requires OffersInTurn(app)
    ensures NothingIsRebound(app, [ASKER, PROVIDER, ROOT])
  {
    forall i, b | Offers(app, [ASKER, PROVIDER, ROOT], i, b)
      ensures if i == OFFERED then b == app.registrations(1)[OFFERED] else Injector.BindingOf(app.core, i) == Some(b)
    {
      OnlyOneOffer(app, i, b);
    }
  }

  lemma OnlyOneOffer(app: Application, i: Service, b: Injector.Binding)
    requires OffersInTurn(app) && Offers(app, [ASKER, PROVIDER, ROOT], i, b)
    ensures if i == OFFERED then b == app.registrations(1)[OFFERED] else Injector.BindingOf(app.core, i) == Some(b)
  {
    if Injector.BindingOf(app.core, i) != Some(b) {
      var s :| s in [ASKER, PROVIDER, ROOT] && i in app.registrations(s.mod) && app.registrations(s.mod)[i] == b;
      assert s.mod == 1 && i in app.registrations(1).Keys;
    }
  }

  lemma InstanceIsAnswerable(rank: Service -> nat, w: Injector.World, i: Service)
    requires Injector.Acyclic(rank, w)
    requires Injector.BindingOf(w, i).Some? && Injector.BindingOf(w, i).value.provider.Instance?
    ensures AllAnswerable(rank, w, [i])
  {
  }

  lemma DiamondIsServed(app: Application, k: nat)
    requires Sensible(app) && OffersInTurn(app) && k < 3
    ensures |ConfigureOrder([ASKER, PROVIDER, ROOT])| == 3 && CanBeServed(app, [ASKER, PROVIDER, ROOT], k)
  {
    DiamondConfigureOrder();
    var order := [ROOT, PROVIDER, ASKER];
    if k == 0 {
      ServedEarlyOn(app, [ASKER, PROVIDER, ROOT], k, ROOT, []);
    } else if k == 1 {
      assert order[..1] == [ROOT];
      ReadyAfterRoot(app);
      ServedEarlyOn(app, [ASKER, PROVIDER, ROOT], k, PROVIDER, [ROOT]);
    } else {
      assert order[..2] == [ROOT] + [PROVIDER];
      OfferedAfterProvider(app);
      ServedEarlyOn(app, [ASKER, PROVIDER, ROOT], k, ASKER, [ROOT] + [PROVIDER]);
    }
  }

  lemma ServedEarlyOn(app: Application, queue: seq<ModuleSetup>, k: nat, s: ModuleSetup, before: seq<ModuleSetup>)
    requires Sensible(app) && k < |WithoutApp(queue)| && k < |ConfigureOrder(queue)|
    requires ConfigureOrder(queue)[k] == s && ConfigureOrder(queue)[..k] == before
    requires CanConfigure(app, s, VisibleAfter(app, app.core, before))
    ensures CanBeServed(app, queue, k)
  {
  }

  lemma ReadyAfterRoot(app: Application)
    requires Sensible(app) && OffersInTurn(app)
    ensures AllAnswerable(app.rank, VisibleAfter(app, app.core, [ROOT]), [READY])
  {
    VisibleAfterOne(app, app.core, ROOT);
    RegisteredBinding(app.core, map[], READY);
    InstanceIsAnswerable(app.rank, VisibleAfter(app, app.core, [ROOT]), READY);
  }

  lemma OfferedAfterProvider(app: Application)
    requires Sensible(app) && OffersInTurn(app)
    ensures AllAnswerable(app.rank, VisibleAfter(app, app.core, [ROOT] + [PROVIDER]), [OFFERED])
  {
    VisibleAfterOneMore(app, app.core, [ROOT], PROVIDER);
    RegisteredBinding(VisibleAfter(app, app.core, [ROOT]), app.registrations(1), OFFERED);
    InstanceIsAnswerable(app.rank, VisibleAfter(app, app.core, [ROOT] + [PROVIDER]), OFFERED);
  }

  lemma VisibleAfterOneMore(app: Application, v: Injector.World, order: seq<ModuleSetup>, s: ModuleSetup)
    requires Sensible(app) && Injector.Acyclic(app.rank, v)
    ensures VisibleAfter(app, v, order + [s]) == RegisterModule(app, VisibleAfter(app, v, order), s.mod)
  {
    assert (order + [s])[..|order|] == order;
  }

  lemma VisibleAfterOne(app: Application, v: Injector.World, s: ModuleSetup)
    requires Sensible(app) && Injector.Acyclic(app.rank, v)
    ensures VisibleAfter(app, v, [s]) == RegisterModule(app, v, s.mod)
  {
    VisibleAfterOneMore(app, v, [], s);
    assert [] + [s] == [s];
  }

  /** Creation succeeds although the asker is given what only its deferred import registers. */
  lemma DeferredDiamondIsCreated(app: Application)
    requires Sensible(app) && OffersInTurn(app)
    ensures Acyclic(DiamondRank, DEFERRED_DIAMOND) && Imports(DEFERRED_DIAMOND, ASKER.mod, PROVIDER.mod)
    ensures KindOf(ASKER) == Deferred && KindOf(PROVIDER) == Deferred && OFFERED in ASKER.inject
    ensures CreationSucceeds(app, Queue(DiamondRank, DEFERRED_DIAMOND, 0))
  {
    DiamondQueue();
    AskerImportsProvider();
    DiamondSucceeds(app);
  }

  lemma AskerImportsProvider()
    ensures Imports(DEFERRED_DIAMOND, ASKER.mod, PROVIDER.mod)
    ensures KindOf(ASKER) == Deferred && KindOf(PROVIDER) == Deferred && OFFERED in ASKER.inject
  {
    DeferredDiamondIsAcyclic();
    assert Prepared(PROVIDER) in ModulesOf(DEFERRED_DIAMOND, 2) && SetupOf(Prepared(PROVIDER)).mod == 1;
  }

  lemma DiamondSucceeds(app: Application)
    requires Sensible(app) && OffersInTurn(app)
    ensures CreationSucceeds(app, [ASKER, PROVIDER, ROOT])
  {
    var queue := [ASKER, PROVIDER, ROOT];
    NothingIsReboundInTheDiamond(app);
    DiamondConfigureOrder();
    forall k | 0 <= k < |ConfigureOrder(queue)|
      ensures CanBeServed(app, queue, k)
    {
      DiamondIsServed(app, k);
    }
    CreationSucceedsIffServed(app, queue);
  }

  /** One such application, with ready instances and nothing else. */
  function DiamondApplication(): (app: Application)
    ensures Sensible(app) && OffersInTurn(app)
  {
    var ready := Injector.Binding(Injector.Instance(Injector.Given(0)), Injector.Singleton);
    var core := Injector.World(map[], false, map[READY := ready], map[], [], [], {});
    Application(_ => 0, core, m => if m == 1 then map[OFFERED := ready] else map[], map[], [])
  }

  lemma DiamondApplicationIsCreated()
    ensures Acyclic(DiamondRank, DEFERRED_DIAMOND)
    ensures CreationSucceeds(DiamondApplication(), Queue(DiamondRank, DEFERRED_DIAMOND, 0))
  {
    DeferredDiamondIsCreated(DiamondApplication());
  }
}
