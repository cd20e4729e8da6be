/** Configuring modules loses nothing that the injector has built: later modules are given the same singletons. */
module ModuleServices {
  import opened Prelude
  import opened ModuleGraph
  import opened ModuleBuild
  import opened Resolvability
  import Injector

  type World = Injector.World

  /** Every object is still there, and every singleton is the one it was. */
  ghost predicate Keeps(v: World, w: World) {
    && v.heap <= w.heap
    && forall i :: i in v.singletons ==> i in w.singletons && w.singletons[i] == v.singletons[i]
  }

  ghost predicate IsSingleton(w: World, i: Service) {
    Injector.BindingOf(w, i).Some? && Injector.BindingOf(w, i).value.scope == Injector.Singleton
  }

  lemma {:induction false} ServeKeeps(rank: Service -> nat, w: World, services: seq<Service>)
    requires Injector.Acyclic(rank, w)
    ensures Keeps(w, Serve(rank, w, services).0)
    decreases |services|
  {
    if services != [] {
      Injector.ResolveExtends(rank, w, None, services[0]);
      var (w1, r) := Injector.Resolve(rank, w, None, services[0]);
      if r.Some? {
        ServeKeeps(rank, w1, services[1..]);
      }
    }
  }

  lemma {:induction false} ServedSingletonIsKept(rank: Service -> nat, w: World, services: seq<Service>, j: nat)
    requires Injector.Acyclic(rank, w) && j < |services| && IsSingleton(w, services[j])
    requires AllAnswerable(rank, w, services[..j + 1])
    ensures services[j] in Serve(rank, w, services).0.singletons
    decreases |services|
  {
    var (w1, r) := Injector.Resolve(rank, w, None, services[0]);
    assert services[0] in services[..j + 1];
    ResolvesIffAnswerable(rank, w, services[0]);
    if j == 0 {
      ServeKeeps(rank, w1, services[1..]);
    } else {
      assert services[1..][..j] == services[..j + 1][1..];
      assert AllAnswerable(rank, w, services[1..][..j]);
      SameAnswersAllAnswer(rank, w, w1, services[1..][..j]);
      assert Injector.BindingOf(w1, services[j]) == Injector.BindingOf(w, services[j]);
      ServedSingletonIsKept(rank, w1, services[1..], j - 1);
    }
  }

  predicate IsServed(s: ModuleSetup) {
    s.factory.Factory? || KindOf(s) == AppDependent
  }

  lemma ConfiguringOneKeeps(app: Application, w: World, s: ModuleSetup)
    requires Sensible(app) && Injector.Acyclic(app.rank, w)
    ensures Keeps(w, ConfigureOne(app, w, s).0)
    ensures IsServed(s) ==> Keeps(Serve(app.rank, w, s.inject).0, ConfigureOne(app, w, s).0)
  {
    ServeKeeps(app.rank, w, s.inject);
  }

  /** Whatever was built for the first setups is still there after all of them, also when a later one fails. */
  lemma {:induction false} ConfiguringKeeps(app: Application, w: World, order: seq<ModuleSetup>, k: nat)
    requires Sensible(app) && Injector.Acyclic(app.rank, w) && k <= |order|
    ensures Keeps(Configuring(app, w, order[..k]).world, Configuring(app, w, order).world)
    decreases |order|
  {
    if k == |order| {
      assert order[..k] == order;
    } else {
      var n := |order| - 1;
      assert order[..n][..k] == order[..k];
      ConfiguringKeeps(app, w, order[..n], k);
      ConfiguringOneKeeps(app, Configuring(app, w, order[..n]).world, order[n]);
    }
  }

  lemma SetupKeepsSingleton(app: Application, w: World, s: ModuleSetup, j: nat)
    requires Sensible(app) && Injector.Acyclic(app.rank, w) && IsServed(s) && j < |s.inject|
    requires IsSingleton(w, s.inject[j]) && AllAnswerable(app.rank, w, s.inject[..j + 1])
    ensures s.inject[j] in ConfigureOne(app, w, s).0.singletons
  {
    ServedSingletonIsKept(app.rank, w, s.inject, j);
    ConfiguringOneKeeps(app, w, s);
  }

  lemma ConfiguringReaches(app: Application, w: World, order: seq<ModuleSetup>, k: nat)
    requires Sensible(app) && Injector.Acyclic(app.rank, w)
    requires k < |order| && k <= Configuring(app, w, order).count
    ensures var v := Configuring(app, w, order[..k]).world;
            Configuring(app, w, order[..k + 1]).world == ConfigureOne(app, v, order[k]).0
  {
    if Configuring(app, w, order[..k]).count < k {
      ConfiguringStops(app, w, order, k);
    }
    assert order[..k + 1][..k] == order[..k];
  }

  /**
   A singleton given to a setup is remembered from then on, so that later setups are given the same object.  It
   is remembered even when the setup fails for another service that it asks for after it.
   */
  lemma SetupsShareSingletons(app: Application, w: World, order: seq<ModuleSetup>, k: nat, j: nat)
    requires Sensible(app) && Injector.Acyclic(app.rank, w)
    requires k < |order| && k <= Configuring(app, w, order).count && IsServed(order[k]) && j < |order[k].inject|
    requires IsSingleton(Configuring(app, w, order[..k]).world, order[k].inject[j])
    requires AllAnswerable(app.rank, Configuring(app, w, order[..k]).world, order[k].inject[..j + 1])
    ensures order[k].inject[j] in Configuring(app, w, order).world.singletons
  {
    var v := Configuring(app, w, order[..k]).world;
    SetupKeepsSingleton(app, v, order[k], j);
    ConfiguringReaches(app, w, order, k);
    ConfiguringKeeps(app, w, order, k + 1);
  }

  lemma FinishingKeeps(app: Application, queue: seq<ModuleSetup>, w: World)
    requires Sensible(app) && Injector.Acyclic(app.rank, w)
    ensures Keeps(w, Finishing(app, queue, w).world)
  {
    var late := WithApp(queue);
    assert late[..0] == [];
    ConfiguringKeeps(app, w, late, 0);
    ServeKeeps(app.rank, Configuring(app, w, late).world, app.middleware);
  }

  /** Whatever the core has built, and whatever the modules were given, outlives the creation of the application. */
  lemma CreationKeeps(app: Application, queue: seq<ModuleSetup>)
    requires Sensible(app)
    ensures Keeps(app.core, Creating(app, queue).world)
    ensures Keeps(Configuring(app, app.core, WithoutApp(queue)).world, Creating(app, queue).world)
  {
    var early := WithoutApp(queue);
    var w := Configuring(app, app.core, early).world;
    assert early[..0] == [];
    ConfiguringKeeps(app, app.core, early, 0);
    var v := RegisterApp(app, w);
    ServeKeeps(app.rank, v, app.middleware);
    FinishingKeeps(app, queue, Serve(app.rank, v, app.middleware).0);
  }

  /** The singletons that the middleware is given are remembered, also when it fails for another service after them. */
  lemma MiddlewareSingletonsAreKept(app: Application, queue: seq<ModuleSetup>, j: nat)
    requires Sensible(app) && j < |app.middleware|
    requires Configuring(app, app.core, WithoutApp(queue)).count == |WithoutApp(queue)|
    requires var v := RegisterApp(app, Configuring(app, app.core, WithoutApp(queue)).world);
             IsSingleton(v, app.middleware[j]) && AllAnswerable(app.rank, v, app.middleware[..j + 1])
    ensures app.middleware[j] in Creating(app, queue).world.singletons
  {
    var v := RegisterApp(app, Configuring(app, app.core, WithoutApp(queue)).world);
    ServedSingletonIsKept(app.rank, v, app.middleware, j);
    FinishingKeeps(app, queue, Serve(app.rank, v, app.middleware).0);
  }
}
