/** Building the modules: immediate ones, then deferred ones, then those that need the application. */
module ModuleBuild {
  import opened Prelude
  import opened OrderedDicts
  import opened ModuleGraph
  import opened Resolvability
  import Injector

  /** What `get_module_ref` decides about a setup. */
  datatype Kind = Immediate | Deferred | AppDependent

  function HasFactoryFunction(s: ModuleSetup): bool {
    s.factory.Factory? && s.inject != [] && s.inject != [CONFIG]
  }

  function KindOf(s: ModuleSetup): Kind {
    if APP in s.inject then AppDependent
    else if HasFactoryFunction(s) then Deferred
    else Immediate
  }

  function OfKind(setups: seq<ModuleSetup>, kind: Kind): (r: seq<ModuleSetup>)
    ensures forall s :: s in r <==> s in setups && KindOf(s) == kind
  {
    if setups == [] then []
    else
      var last := setups[|setups| - 1];
      assert setups == setups[..|setups| - 1] + [last];
      OfKind(setups[..|setups| - 1], kind) + if KindOf(last) == kind then [last] else []
  }

  /** The order in which modules are configured: the two registries are drained from the back. */
  function ConfigureOrder(queue: seq<ModuleSetup>): seq<ModuleSetup> {
    OfKind(queue, Immediate) + Reverse(OfKind(queue, Deferred)) + Reverse(OfKind(queue, AppDependent))
  }

  // ----- configuring -----

  /**
   What the modules are built into: the container with the core services, what each module registers once
   it is configured, what the application registers about itself, and the services its middleware needs.
   */
  datatype Application = Application(
    rank: Service -> nat,
    core: Injector.World,
    registrations: Module -> map<Service, Injector.Binding>,
    appBindings: map<Service, Injector.Binding>,
    middleware: seq<Service>)

  ghost predicate Sensible(app: Application) {
    && Injector.Acyclic(app.rank, app.core) && AllBelow(app.rank, app.appBindings)
    && forall m :: AllBelow(app.rank, app.registrations(m))
  }

  function RegisterModule(app: Application, w: Injector.World, m: Module): (w': Injector.World)
    requires Sensible(app) && Injector.Acyclic(app.rank, w)
    ensures Injector.Acyclic(app.rank, w')
  {
    Register(w, app.registrations(m))
  }

  /** A setup without a factory is built as it is; the others get their services first, and then call the factory. */
  function ConfigureOne(app: Application, w: Injector.World, s: ModuleSetup): (res: (Injector.World, bool))
    requires Sensible(app) && Injector.Acyclic(app.rank, w)
    ensures Injector.Acyclic(app.rank, res.0)
  {
    if s.factory.NoFactory? && KindOf(s) != AppDependent then (RegisterModule(app, w, s.mod), true)
    else
      var (w1, ok) := Serve(app.rank, w, s.inject);
      if ok && s.factory.Factory? && s.factory.returnsDynamicModule then (RegisterModule(app, w1, s.mod), true)
      else (w1, false)
  }

  /** How many setups were configured, and what the injector is then. */
  datatype Progress = Progress(count: nat, world: Injector.World)

  /** Setups in order, up to the first that cannot be configured. */
  function Configuring(app: Application, w: Injector.World, order: seq<ModuleSetup>): (p: Progress)
    requires Sensible(app) && Injector.Acyclic(app.rank, w)
    ensures p.count <= |order| && Injector.Acyclic(app.rank, p.world)
  {
    if order == [] then Progress(0, w)
    else
      var n := |order| - 1;
      var p := Configuring(app, w, order[..n]);
      if p.count < n then p
      else
        var (w', ok) := ConfigureOne(app, p.world, order[n]);
        Progress(if ok then n + 1 else n, w')
  }

  lemma {:induction false} ConfiguringStops(app: Application, w: Injector.World, order: seq<ModuleSetup>, k: nat)
    requires Sensible(app) && Injector.Acyclic(app.rank, w)
    requires k <= |order| && Configuring(app, w, order[..k]).count < k
    ensures Configuring(app, w, order) == Configuring(app, w, order[..k])
    decreases |order|
  {
    if k < |order| {
      assert order[..|order| - 1][..k] == order[..k];
      ConfiguringStops(app, w, order[..|order| - 1], k);
    } else {
      assert order[..k] == order;
    }
  }

  // ----- the registries -----

  type Registry = seq<Item<Module, ModuleSetup>>

  function Registered(setups: seq<ModuleSetup>): (r: Registry)
    ensures |r| == |setups| && Keys(r) == ModuleNames(setups) && Values(r) == setups
  {
    seq(|setups|, i requires 0 <= i < |setups| => Item(setups[i].mod, setups[i]))
  }

  /** A built module reference, known by the setup it was built from, or a setup kept for later. */
  datatype ModuleRef = TemplateRef(setup: ModuleSetup) | Kept(setup: ModuleSetup)

  class ModuleRegistries {
    const app: Application
    var world: Injector.World
    var templates: Registry
    var dynamics: Registry
    var appDependents: Registry

    constructor (app: Application)
      ensures this.app == app && world == app.core
      ensures templates == [] && dynamics == [] && appDependents == []
    {
      this.app, world := app, app.core;
      templates, dynamics, appDependents := [], [], [];
    }

    /** `_get_services`, one `get` after the other. */
    method GetServices(services: seq<Service>) returns (ok: bool)
      requires Injector.Acyclic(app.rank, world)
      modifies this`world
      ensures (world, ok) == Serve(app.rank, old(world), services)
    {
      var i := 0;
      while i < |services|
        invariant 0 <= i <= |services| && Injector.Acyclic(app.rank, world)
        invariant Serve(app.rank, old(world), services) == Serve(app.rank, world, services[i..])
      {
        var (next, answer) := Injector.Resolve(app.rank, world, None, services[i]);
        assert services[i..][1..] == services[i + 1..];
        world := next;
        if answer.None? {
          return false;
        }
        i := i + 1;
      }
      ok := true;
    }

    /** A plain reference, or `configure_with_factory`; the reference registers what its module provides. */
    method Configure(s: ModuleSetup) returns (ok: bool)
      requires Sensible(app) && Injector.Acyclic(app.rank, world)
      modifies this`world
      ensures (world, ok) == ConfigureOne(app, old(world), s)
    {
      ok := true;
      if s.factory.Factory? || KindOf(s) == AppDependent {
        ok := GetServices(s.inject);
        ok := ok && s.factory.Factory? && s.factory.returnsDynamicModule;
      }
      if ok {
        world := RegisterModule(app, world, s.mod);
      }
    }

    method GetModule(mod: Module) returns (found: bool)
      ensures found <==> mod in Keys(templates)
    {
      found := exists i :: 0 <= i < |templates| && templates[i].key == mod;
    }

    method AddModule(ref: ModuleRef)
      modifies this`templates, this`dynamics, this`appDependents
      ensures templates == if ref.TemplateRef? then Put(old(templates), ref.setup.mod, ref.setup) else old(templates)
      ensures dynamics ==
              if ref.Kept? && KindOf(ref.setup) != AppDependent
              then Put(old(dynamics), ref.setup.mod, ref.setup) else old(dynamics)
      ensures appDependents ==
              if ref.Kept? && KindOf(ref.setup) == AppDependent
              then Put(old(appDependents), ref.setup.mod, ref.setup) else old(appDependents)
    {
      if ref.TemplateRef? {
        templates := Put(templates, ref.setup.mod, ref.setup);
      } else if KindOf(ref.setup) == AppDependent {
        appDependents := Put(appDependents, ref.setup.mod, ref.setup);
      } else {
        dynamics := Put(dynamics, ref.setup.mod, ref.setup);
      }
    }

    method DrainDynamicModules() returns (setups: seq<ModuleSetup>)
      modifies this`dynamics
      ensures setups == Values(old(dynamics)) && dynamics == []
    {
      setups := Values(dynamics);
      dynamics := [];
    }

    method DrainAppDependentModules() returns (setups: seq<ModuleSetup>)
      modifies this`appDependents
      ensures setups == Values(old(appDependents)) && appDependents == []
    {
      setups := Values(appDependents);
      appDependents := [];
    }
  }

  // ----- the factory -----

  /** `read_all_module` as written: a loop writing into one ordered dictionary. */
  method ReadAllModule(ghost rank: Module -> nat, g: Graph, mod: Module) returns (found: Found)
    requires Acyclic(rank, g)
    ensures found == ReadAll(rank, g, mod)
    decreases rank(mod)
  {
    var modules := ModulesOf(g, mod);
    found := [];
    var i := 0;
    while i < |modules|
      invariant 0 <= i <= |modules|
      invariant ReadAll(rank, g, mod) == ReadList(rank, g, found, modules[i..], rank(mod))
    {
      var s := SetupOf(modules[i]);
      assert modules[i] in modules;
      var below := ReadAllModule(rank, g, s.mod);
      assert modules[i..][1..] == modules[i + 1..];
      found := Update(Put(found, s.mod, s), below);
      i := i + 1;
    }
  }

  /** A stretch of setups: the injector at its start, and the setups whose modules are built already. */
  datatype Stage = Stage(app: Application, start: Injector.World, base: seq<ModuleSetup>)

  ghost predicate Ready(st: Stage) {
    Sensible(st.app) && Injector.Acyclic(st.app.rank, st.start)
  }

  /** The first `i` setups of the order are configured and registered. */
  ghost predicate BuiltUpTo(st: Stage, templates: Registry, world: Injector.World, order: seq<ModuleSetup>, i: nat)
    requires Ready(st)
  {
    && i <= |order| && templates == Registered(st.base + order[..i])
    && Configuring(st.app, st.start, order[..i]) == Progress(i, world)
  }

  /** Some setup could not be configured; the ones before it are registered. */
  ghost predicate Stopped(st: Stage, templates: Registry, world: Injector.World, order: seq<ModuleSetup>)
    requires Ready(st)
  {
    var p := Configuring(st.app, st.start, order);
    p.count < |order| && world == p.world && templates == Registered(st.base + order[..p.count])
  }

  lemma StoppedLonger(
      st: Stage, templates: Registry, world: Injector.World, init: seq<ModuleSetup>, order: seq<ModuleSetup>)
    requires Ready(st) && init <= order && Stopped(st, templates, world, init)
    ensures Stopped(st, templates, world, order)
  {
    assert order[..|init|] == init;
    ConfiguringStops(st.app, st.start, order, |init|);
    var n := Configuring(st.app, st.start, init).count;
    assert order[..n] == init[..n];
  }

  lemma FreshName(base: seq<ModuleSetup>, order: seq<ModuleSetup>, i: nat)
    requires i < |order| && Distinct(ModuleNames(base + order))
    ensures var s, sofar := order[i], base + order[..i];
            && s.mod !in Keys(Registered(sofar))
            && Put(Registered(sofar), s.mod, s) == Registered(base + order[..i + 1])
  {
    var s, sofar := order[i], base + order[..i];
    var names := ModuleNames(base + order);
    assert forall k :: 0 <= k < |sofar| ==> sofar[k] == (base + order)[k] && names[k] != names[|base| + i];
    PutFresh(Registered(sofar), s.mod, s);
    assert Registered(sofar) + [Item(s.mod, s)] == Registered(base + order[..i + 1]);
  }

  /** One more setup: registered at the end, or the end of the run. */
  lemma ConfigureStep(st: Stage, templates: Registry, world: Injector.World, order: seq<ModuleSetup>, i: nat)
    requires Ready(st) && i < |order| && BuiltUpTo(st, templates, world, order, i)
    ensures var (world', ok) := ConfigureOne(st.app, world, order[i]);
            if ok then Configuring(st.app, st.start, order[..i + 1]) == Progress(i + 1, world')
            else Stopped(st, templates, world', order)
  {
    assert order[..i + 1][..i] == order[..i];
    var (world', ok) := ConfigureOne(st.app, world, order[i]);
    if !ok {
      assert Configuring(st.app, st.start, order[..i + 1]) == Progress(i, world');
      ConfiguringStops(st.app, st.start, order, i + 1);
    }
  }

  /** The loop body: skip a module that is there, or configure it and register the reference. */
  method ConfigureNext(
    injector: ModuleRegistries, s: ModuleSetup, ghost st: Stage, ghost order: seq<ModuleSetup>, ghost i: nat)
    returns (ok: bool)
    requires Ready(st) && st.app == injector.app && i < |order| && s == order[i]
    requires BuiltUpTo(st, injector.templates, injector.world, order, i) && Distinct(ModuleNames(st.base + order))
    modifies injector
    ensures if ok then BuiltUpTo(st, injector.templates, injector.world, order, i + 1)
            else Stopped(st, injector.templates, injector.world, order)
    ensures injector.dynamics == old(injector.dynamics) && injector.appDependents == old(injector.appDependents)
  {
    FreshName(st.base, order, i);
    ConfigureStep(st, injector.templates, injector.world, order, i);
    var found := injector.GetModule(s.mod);
    ok := true;
    if !found {
      ok := injector.Configure(s);
      if ok {
        injector.AddModule(TemplateRef(s));
      }
    }
  }

  /** Takes the setups in order; stops at the first that cannot be configured. */
  method ConfigureAll(
    injector: ModuleRegistries, setups: seq<ModuleSetup>, ghost st: Stage, ghost done: seq<ModuleSetup>)
    returns (ok: bool)
    requires Ready(st) && st.app == injector.app
    requires BuiltUpTo(st, injector.templates, injector.world, done, |done|)
    requires Distinct(ModuleNames(st.base + (done + setups)))
    modifies injector
    ensures if ok then BuiltUpTo(st, injector.templates, injector.world, done + setups, |done + setups|)
            else Stopped(st, injector.templates, injector.world, done + setups)
    ensures injector.dynamics == old(injector.dynamics) && injector.appDependents == old(injector.appDependents)
  {
    ghost var order, n := done + setups, |done|;
    assert order[..n] == done == done[..n];
    var i := 0;
    while i < |setups|
      invariant 0 <= i <= |setups|
      invariant BuiltUpTo(st, injector.templates, injector.world, order, n + i)
      invariant injector.dynamics == old(injector.dynamics) && injector.appDependents == old(injector.appDependents)
    {
      ok := ConfigureNext(injector, setups[i], st, order, n + i);
      if !ok {
        return;
      }
      i := i + 1;
    }
    ok := true;
  }

  // ----- the queue and its kinds -----

  /** The next setup of the queue joins the setups of its kind and leaves the others alone. */
  lemma OfKindStep(queue: seq<ModuleSetup>, i: nat, kind: Kind)
    requires i < |queue|
    ensures OfKind(queue[..i + 1], kind) ==
            OfKind(queue[..i], kind) + if KindOf(queue[i]) == kind then [queue[i]] else []
  {
    assert queue[..i + 1][..i] == queue[..i];
  }

  lemma {:induction false} OfKindPrefix(queue: seq<ModuleSetup>, i: nat, kind: Kind)
    requires i <= |queue|
    ensures OfKind(queue[..i], kind) <= OfKind(queue, kind)
    decreases |queue| - i
  {
    if i < |queue| {
      OfKindStep(queue, i, kind);
      OfKindPrefix(queue, i + 1, kind);
    } else {
      assert queue[..i] == queue;
    }
  }

  lemma {:induction false} OfKindDistinct(queue: seq<ModuleSetup>, kind: Kind)
    requires Distinct(ModuleNames(queue))
    ensures Distinct(ModuleNames(OfKind(queue, kind)))
    decreases |queue|
  {
    if queue != [] {
      var n := |queue| - 1;
      OfKindDistinctInit(queue);
      OfKindDistinct(queue[..n], kind);
      forall s | s in OfKind(queue[..n], kind)
        ensures s.mod != queue[n].mod
      {
        var k :| 0 <= k < n && queue[..n][k] == s;
        assert ModuleNames(queue)[k] != ModuleNames(queue)[n];
      }
    }
  }

  lemma OfKindDistinctInit(queue: seq<ModuleSetup>)
    requires Distinct(ModuleNames(queue)) && queue != []
    ensures Distinct(ModuleNames(queue[..|queue| - 1]))
  {
    assert ModuleNames(queue[..|queue| - 1]) == ModuleNames(queue)[..|queue| - 1];
  }

  lemma SameNameSameSetup(queue: seq<ModuleSetup>, s: ModuleSetup, t: ModuleSetup)
    requires Distinct(ModuleNames(queue)) && s in queue && t in queue && s.mod == t.mod
    ensures s == t
  {
    var i, j :| 0 <= i < |queue| && 0 <= j < |queue| && queue[i] == s && queue[j] == t;
    assert ModuleNames(queue)[i] == ModuleNames(queue)[j];
  }

  lemma DistinctJoin(a: seq<ModuleSetup>, b: seq<ModuleSetup>)
    requires Distinct(ModuleNames(a)) && Distinct(ModuleNames(b))
    requires forall s, t :: s in a && t in b ==> s.mod != t.mod
    ensures Distinct(ModuleNames(a + b))
  {
  }

  lemma DistinctReverse(a: seq<ModuleSetup>)
    requires Distinct(ModuleNames(a))
    ensures Distinct(ModuleNames(Reverse(a))) && forall s :: s in Reverse(a) <==> s in a
  {
    var r := Reverse(a);
    forall i, j | 0 <= i < j < |a|
      ensures ModuleNames(r)[i] != ModuleNames(r)[j]
    {
      assert ModuleNames(a)[|a| - 1 - j] != ModuleNames(a)[|a| - 1 - i];
    }
    forall s | s in a
      ensures s in r
    {
      var k :| 0 <= k < |a| && a[k] == s;
      assert r[|a| - 1 - k] == s;
    }
  }

  /** Every setup of the queue is configured exactly once. */
  lemma EverySetupIsConfiguredOnce(queue: seq<ModuleSetup>)
    requires Distinct(ModuleNames(queue))
    ensures Distinct(ModuleNames(ConfigureOrder(queue)))
    ensures forall s :: s in ConfigureOrder(queue) <==> s in queue
  {
    var a, b, c := OfKind(queue, Immediate), OfKind(queue, Deferred), OfKind(queue, AppDependent);
    OfKindDistinct(queue, Immediate);
    OfKindDistinct(queue, Deferred);
    OfKindDistinct(queue, AppDependent);
    DistinctReverse(b);
    DistinctReverse(c);
    forall s, t | s in queue && t in queue && s.mod == t.mod
      ensures s == t
    {
      SameNameSameSetup(queue, s, t);
    }
    DistinctJoin(a, Reverse(b));
    DistinctJoin(a + Reverse(b), Reverse(c));
    forall s | s in queue
      ensures s in ConfigureOrder(queue)
    {
      assert s in a || s in b || s in c;
    }
  }

  // ----- the three phases -----

  function FirstStage(app: Application): Stage {
    Stage(app, app.core, [])
  }

  /** The registries after the first `i` setups of the queue were taken. */
  ghost predicate QueuedUpTo(injector: ModuleRegistries, queue: seq<ModuleSetup>, i: nat)
    requires Sensible(injector.app)
    reads injector
  {
    && i <= |queue|
    && var done := OfKind(queue[..i], Immediate);
    && BuiltUpTo(FirstStage(injector.app), injector.templates, injector.world, done, |done|)
    && injector.dynamics == Registered(OfKind(queue[..i], Deferred))
    && injector.appDependents == Registered(OfKind(queue[..i], AppDependent))
  }

  lemma KeepStep(queue: seq<ModuleSetup>, i: nat, kind: Kind)
    requires i < |queue| && Distinct(ModuleNames(queue)) && KindOf(queue[i]) == kind
    ensures Put(Registered(OfKind(queue[..i], kind)), queue[i].mod, queue[i]) ==
            Registered(OfKind(queue[..i + 1], kind))
  {
    var s, kept := queue[i], OfKind(queue[..i], kind);
    OfKindStep(queue, i, kind);
    forall k | 0 <= k < |kept|
      ensures kept[k].mod != s.mod
    {
      assert kept[k] in kept;
      var p :| 0 <= p < i && queue[..i][p] == kept[k];
      assert ModuleNames(queue)[p] != ModuleNames(queue)[i];
    }
    PutFresh(Registered(kept), s.mod, s);
    assert Registered(kept) + [Item(s.mod, s)] == Registered(kept + [s]);
  }

  lemma ImmediateStep(queue: seq<ModuleSetup>, i: nat)
    requires i < |queue| && Distinct(ModuleNames(queue)) && KindOf(queue[i]) == Immediate
    ensures OfKind(queue[..i + 1], Immediate) == OfKind(queue[..i], Immediate) + [queue[i]]
    ensures Distinct(ModuleNames(OfKind(queue[..i + 1], Immediate)))
  {
    OfKindStep(queue, i, Immediate);
    assert ModuleNames(queue[..i + 1]) == ModuleNames(queue)[..i + 1];
    OfKindDistinct(queue[..i + 1], Immediate);
  }

  lemma BuiltUpToLonger(
    st: Stage, templates: Registry, world: Injector.World, done: seq<ModuleSetup>, order: seq<ModuleSetup>)
    requires Ready(st) && BuiltUpTo(st, templates, world, done, |done|) && done <= order
    ensures BuiltUpTo(st, templates, world, order, |done|)
  {
    assert order[..|done|] == done == done[..|done|];
  }

  /** The loop body for a setup that follows those already configured. */
  method ConfigureAppended(injector: ModuleRegistries, s: ModuleSetup, ghost st: Stage, ghost done: seq<ModuleSetup>)
    returns (ok: bool)
    requires Ready(st) && st.app == injector.app && Distinct(ModuleNames(st.base + (done + [s])))
    requires BuiltUpTo(st, injector.templates, injector.world, done, |done|)
    modifies injector
    ensures if ok then BuiltUpTo(st, injector.templates, injector.world, done + [s], |done| + 1)
            else Stopped(st, injector.templates, injector.world, done + [s])
    ensures injector.dynamics == old(injector.dynamics) && injector.appDependents == old(injector.appDependents)
  {
    BuiltUpToLonger(st, injector.templates, injector.world, done, done + [s]);
    ok := ConfigureNext(injector, s, st, done + [s], |done|);
  }

  method TakeImmediate(injector: ModuleRegistries, queue: seq<ModuleSetup>, i: nat) returns (ok: bool)
    requires Sensible(injector.app) && i < |queue| && Distinct(ModuleNames(queue)) && QueuedUpTo(injector, queue, i)
    requires KindOf(queue[i]) == Immediate
    modifies injector
    ensures var order := OfKind(queue[..i + 1], Immediate);
            if ok then BuiltUpTo(FirstStage(injector.app), injector.templates, injector.world, order, |order|)
            else Stopped(FirstStage(injector.app), injector.templates, injector.world, order)
    ensures injector.dynamics == old(injector.dynamics) && injector.appDependents == old(injector.appDependents)
  {
    ImmediateStep(queue, i);
    NothingBefore(OfKind(queue[..i + 1], Immediate));
    ok := ConfigureAppended(injector, queue[i], FirstStage(injector.app), OfKind(queue[..i], Immediate));
  }

  lemma NothingBefore(order: seq<ModuleSetup>)
    ensures [] + order == order
  {
  }

  /** What keeping a setup does to the setups of each kind. */
  lemma KeptSteps(queue: seq<ModuleSetup>, i: nat)
    requires i < |queue| && Distinct(ModuleNames(queue)) && KindOf(queue[i]) != Immediate
    ensures OfKind(queue[..i + 1], Immediate) == OfKind(queue[..i], Immediate)
    ensures forall kind :: kind == Deferred || kind == AppDependent ==>
              Registered(OfKind(queue[..i + 1], kind)) ==
              if KindOf(queue[i]) == kind then Put(Registered(OfKind(queue[..i], kind)), queue[i].mod, queue[i])
              else Registered(OfKind(queue[..i], kind))
  {
    OfKindStep(queue, i, Immediate);
    OfKindStep(queue, i, Deferred);
    OfKindStep(queue, i, AppDependent);
    KeepStep(queue, i, KindOf(queue[i]));
  }

  method TakeKept(injector: ModuleRegistries, queue: seq<ModuleSetup>, i: nat)
    requires Sensible(injector.app) && i < |queue| && Distinct(ModuleNames(queue)) && QueuedUpTo(injector, queue, i)
    requires KindOf(queue[i]) != Immediate
    modifies injector
    ensures QueuedUpTo(injector, queue, i + 1)
  {
    KeptSteps(queue, i);
    injector.AddModule(Kept(queue[i]));
  }

  /** An immediate setup is configured in place; any other is kept in its registry. */
  method TakeNext(injector: ModuleRegistries, queue: seq<ModuleSetup>, i: nat) returns (ok: bool)
    requires Sensible(injector.app) && i < |queue| && Distinct(ModuleNames(queue)) && QueuedUpTo(injector, queue, i)
    modifies injector
    ensures if ok then QueuedUpTo(injector, queue, i + 1)
            else Stopped(FirstStage(injector.app), injector.templates, injector.world,
                         OfKind(queue[..i + 1], Immediate))
  {
    ok := true;
    if KindOf(queue[i]) == Immediate {
      OfKindStep(queue, i, Deferred);
      OfKindStep(queue, i, AppDependent);
      ok := TakeImmediate(injector, queue, i);
    } else {
      TakeKept(injector, queue, i);
    }
  }

  method TakeAll(injector: ModuleRegistries, queue: seq<ModuleSetup>) returns (ok: bool)
    requires Sensible(injector.app) && injector.world == injector.app.core
    requires injector.templates == [] && injector.dynamics == [] && injector.appDependents == []
    requires Distinct(ModuleNames(queue))
    modifies injector
    ensures if ok then QueuedUpTo(injector, queue, |queue|)
            else Stopped(FirstStage(injector.app), injector.templates, injector.world, OfKind(queue, Immediate))
  {
    var i := 0;
    while i < |queue|
      invariant 0 <= i <= |queue|
      invariant QueuedUpTo(injector, queue, i)
    {
      ok := TakeNext(injector, queue, i);
      if !ok {
        OfKindPrefix(queue, i + 1, Immediate);
        StoppedLonger(FirstStage(injector.app), injector.templates, injector.world,
                      OfKind(queue[..i + 1], Immediate), OfKind(queue, Immediate));
        return;
      }
      i := i + 1;
    }
    ok := true;
  }

  // ----- building and creating the application -----

  /** `reversed(get_all_modules(root))`: what `_build_modules` goes through. */
  function Queue(rank: Module -> nat, g: Graph, root: Module): (queue: seq<ModuleSetup>)
    requires Acyclic(rank, g)
    ensures ModuleNames(queue) == BuildOrder(rank, g, root)
  {
    Reverse(AllModules(rank, g, root))
  }

  /** The setups configured by `_build_modules`, before there is an application. */
  function WithoutApp(queue: seq<ModuleSetup>): seq<ModuleSetup> {
    OfKind(queue, Immediate) + Reverse(OfKind(queue, Deferred))
  }

  /** The setups that need the application, in the order in which they are configured. */
  function WithApp(queue: seq<ModuleSetup>): seq<ModuleSetup> {
    Reverse(OfKind(queue, AppDependent))
  }

  method BuildModules(injector: ModuleRegistries, ghost rank: Module -> nat, g: Graph, root: Module) returns (ok: bool)
    requires Sensible(injector.app) && injector.world == injector.app.core
    requires injector.templates == [] && injector.dynamics == [] && injector.appDependents == []
    requires Acyclic(rank, g)
    modifies injector
    ensures var st, early := FirstStage(injector.app), WithoutApp(Queue(rank, g, root));
            if ok then
              && BuiltUpTo(st, injector.templates, injector.world, early, |early|)
              && injector.dynamics == []
              && injector.appDependents == Registered(OfKind(Queue(rank, g, root), AppDependent))
            else Stopped(st, injector.templates, injector.world, early)
  {
    var found := ReadAllModule(rank, g, root);
    var queue := Reverse([Simple(root)] + Values(found));
    assert queue == Queue(rank, g, root);
    BuildOrderIsReversedFirsts(rank, g, root);
    ok := TakeAll(injector, queue);
    if ok {
      ok := ConfigureDeferred(injector, queue);
    } else {
      StoppedLonger(FirstStage(injector.app), injector.templates, injector.world,
                    OfKind(queue, Immediate), WithoutApp(queue));
    }
  }

  method ConfigureDeferred(injector: ModuleRegistries, queue: seq<ModuleSetup>) returns (ok: bool)
    requires Sensible(injector.app) && QueuedUpTo(injector, queue, |queue|) && Distinct(ModuleNames(queue))
    modifies injector
    ensures var st, early := FirstStage(injector.app), WithoutApp(queue);
            if ok then
              && BuiltUpTo(st, injector.templates, injector.world, early, |early|)
              && injector.dynamics == []
              && injector.appDependents == Registered(OfKind(queue, AppDependent))
            else Stopped(st, injector.templates, injector.world, early)
  {
    assert queue[..|queue|] == queue;
    EverySetupIsConfiguredOnce(queue);
    EarlyIsPrefix(queue);
    assert [] + WithoutApp(queue) == WithoutApp(queue);
    var setups := injector.DrainDynamicModules();
    ok := ConfigureAll(injector, Reverse(setups), FirstStage(injector.app), OfKind(queue, Immediate));
  }

  lemma EarlyIsPrefix(queue: seq<ModuleSetup>)
    requires Distinct(ModuleNames(ConfigureOrder(queue)))
    ensures ConfigureOrder(queue) == WithoutApp(queue) + WithApp(queue)
    ensures Distinct(ModuleNames(WithoutApp(queue)))
  {
    var early, order := WithoutApp(queue), ConfigureOrder(queue);
    assert forall i :: 0 <= i < |early| ==> ModuleNames(early)[i] == ModuleNames(order)[i];
  }

  // ----- the whole of creation, as a function -----

  function RegisterApp(app: Application, w: Injector.World): (w': Injector.World)
    requires Sensible(app) && Injector.Acyclic(app.rank, w)
    ensures Injector.Acyclic(app.rank, w')
  {
    Register(w, app.appBindings)
  }

  /** Whether an application comes out, how many modules were built, and what the injector is in the end. */
  datatype Creation = Creation(ok: bool, count: nat, world: Injector.World)

  function Creating(app: Application, queue: seq<ModuleSetup>): Creation
    requires Sensible(app)
  {
    var p := Configuring(app, app.core, WithoutApp(queue));
    if p.count < |WithoutApp(queue)| then Creation(false, p.count, p.world) else Starting(app, queue, p.world)
  }

  /** The application registers itself and builds its middleware. */
  function Starting(app: Application, queue: seq<ModuleSetup>, w: Injector.World): Creation
    requires Sensible(app) && Injector.Acyclic(app.rank, w)
  {
    var (w1, ok) := Serve(app.rank, RegisterApp(app, w), app.middleware);
    if ok then Finishing(app, queue, w1) else Creation(false, |WithoutApp(queue)|, w1)
  }

  /** The setups that need it are configured; if there are any, the middleware is built again. */
  function Finishing(app: Application, queue: seq<ModuleSetup>, w: Injector.World): Creation
    requires Sensible(app) && Injector.Acyclic(app.rank, w)
  {
    var late := WithApp(queue);
    var p := Configuring(app, w, late);
    var count := |WithoutApp(queue)| + p.count;
    if p.count < |late| || late == [] then Creation(p.count == |late|, count, p.world)
    else
      var (w1, ok) := Serve(app.rank, p.world, app.middleware);
      Creation(ok, count, w1)
  }

  ghost predicate CreationSucceeds(app: Application, queue: seq<ModuleSetup>)
    requires Sensible(app)
  {
    Creating(app, queue).ok
  }

  /** What creation leaves behind: its result in the injector, and in the registry the modules built. */
  ghost predicate Leaves(c: Creation, queue: seq<ModuleSetup>, ok: bool, templates: Registry, world: Injector.World) {
    && c.ok == ok && c.world == world
    && c.count <= |ConfigureOrder(queue)| && templates == Registered(ConfigureOrder(queue)[..c.count])
    && (ok ==> templates == Registered(ConfigureOrder(queue)))
  }

  /** `_create_app`: builds the modules, starts the application, then configures those that need it. */
  method CreateApp(app: Application, ghost rank: Module -> nat, g: Graph, root: Module)
    returns (injector: ModuleRegistries, ok: bool)
    requires Sensible(app) && Acyclic(rank, g)
    ensures fresh(injector)
    ensures Leaves(Creating(app, Queue(rank, g, root)), Queue(rank, g, root), ok, injector.templates, injector.world)
    ensures ok <==> CreationSucceeds(app, Queue(rank, g, root))
    ensures ok ==> injector.dynamics == [] && injector.appDependents == []
  {
    injector := new ModuleRegistries(app);
    ghost var queue := Queue(rank, g, root);
    BuildOrderIsReversedFirsts(rank, g, root);
    EverySetupIsConfiguredOnce(queue);
    EarlyIsPrefix(queue);
    ok := BuildModules(injector, rank, g, root);
    if ok {
      BuiltAll(FirstStage(app), injector.templates, injector.world, WithoutApp(queue));
      ok := Start(injector, queue);
    } else {
      StoppedLeaves(app, queue, injector.templates, injector.world);
    }
  }

  lemma BuiltAll(st: Stage, templates: Registry, world: Injector.World, order: seq<ModuleSetup>)
    requires Ready(st) && BuiltUpTo(st, templates, world, order, |order|)
    ensures templates == Registered(st.base + order) && Configuring(st.app, st.start, order) == Progress(|order|, world)
  {
    assert order[..|order|] == order;
  }

  lemma StoppedLeaves(app: Application, queue: seq<ModuleSetup>, templates: Registry, world: Injector.World)
    requires Sensible(app) && ConfigureOrder(queue) == WithoutApp(queue) + WithApp(queue)
    requires Stopped(FirstStage(app), templates, world, WithoutApp(queue))
    ensures Leaves(Creating(app, queue), queue, false, templates, world)
  {
    var early := WithoutApp(queue);
    var n := Configuring(app, app.core, early).count;
    assert ConfigureOrder(queue)[..n] == early[..n] == [] + early[..n];
  }

  method Start(injector: ModuleRegistries, ghost queue: seq<ModuleSetup>) returns (ok: bool)
    requires Sensible(injector.app) && Injector.Acyclic(injector.app.rank, injector.world)
    requires Distinct(ModuleNames(ConfigureOrder(queue)))
    requires ConfigureOrder(queue) == WithoutApp(queue) + WithApp(queue)
    requires injector.templates == Registered([] + WithoutApp(queue))
    requires injector.dynamics == [] && injector.appDependents == Registered(OfKind(queue, AppDependent))
    modifies injector
    ensures Leaves(Starting(injector.app, queue, old(injector.world)), queue, ok, injector.templates, injector.world)
    ensures ok ==> injector.dynamics == [] && injector.appDependents == []
  {
    assert [] + WithoutApp(queue) == WithoutApp(queue);
    injector.world := RegisterApp(injector.app, injector.world);
    ok := injector.GetServices(injector.app.middleware);
    if ok {
      ok := ConfigureAppDependent(injector, queue);
    } else {
      assert ConfigureOrder(queue)[..|WithoutApp(queue)|] == WithoutApp(queue);
    }
  }

  method ConfigureAppDependent(injector: ModuleRegistries, ghost queue: seq<ModuleSetup>) returns (ok: bool)
    requires Sensible(injector.app) && Injector.Acyclic(injector.app.rank, injector.world)
    requires Distinct(ModuleNames(ConfigureOrder(queue)))
    requires ConfigureOrder(queue) == WithoutApp(queue) + WithApp(queue)
    requires injector.templates == Registered(WithoutApp(queue))
    requires injector.dynamics == [] && injector.appDependents == Registered(OfKind(queue, AppDependent))
    modifies injector
    ensures Leaves(Finishing(injector.app, queue, old(injector.world)), queue, ok, injector.templates, injector.world)
    ensures injector.dynamics == [] && injector.appDependents == []
  {
    var changed;
    ok, changed := ConfigureLate(injector, queue);
    if ok {
      ghost var w := injector.world;
      if changed {
        ok := injector.GetServices(injector.app.middleware);
      }
      FinishedLeaves(injector.app, queue, old(injector.world), w, ok, injector.world);
    }
  }

  /** The late setups in turn; afterwards all modules are built, or the run has ended. */
  method ConfigureLate(injector: ModuleRegistries, ghost queue: seq<ModuleSetup>) returns (ok: bool, changed: bool)
    requires Sensible(injector.app) && Injector.Acyclic(injector.app.rank, injector.world)
    requires Distinct(ModuleNames(ConfigureOrder(queue)))
    requires ConfigureOrder(queue) == WithoutApp(queue) + WithApp(queue)
    requires injector.templates == Registered(WithoutApp(queue))
    requires injector.dynamics == [] && injector.appDependents == Registered(OfKind(queue, AppDependent))
    modifies injector
    ensures changed <==> WithApp(queue) != []
    ensures if ok then
              && injector.templates == Registered(ConfigureOrder(queue))
              && Configuring(injector.app, old(injector.world), WithApp(queue)) ==
                 Progress(|WithApp(queue)|, injector.world)
            else
              Leaves(Finishing(injector.app, queue, old(injector.world)), queue, false, injector.templates,
                     injector.world)
    ensures injector.dynamics == [] && injector.appDependents == []
  {
    ghost var st := Stage(injector.app, injector.world, WithoutApp(queue));
    var setups := injector.DrainAppDependentModules();
    NothingBuiltYet(st, injector.templates);
    NothingBefore(Reverse(setups));
    ok := ConfigureAll(injector, Reverse(setups), st, []);
    changed := setups != [];
    if ok {
      BuiltAll(st, injector.templates, injector.world, WithApp(queue));
    } else {
      StoppedLate(st, injector.templates, injector.world, queue);
    }
  }

  lemma FinishedLeaves(
    app: Application, queue: seq<ModuleSetup>, start: Injector.World, w: Injector.World, ok: bool, w': Injector.World)
    requires Sensible(app) && Injector.Acyclic(app.rank, start) && Injector.Acyclic(app.rank, w)
    requires Configuring(app, start, WithApp(queue)) == Progress(|WithApp(queue)|, w)
    requires (w', ok) == if WithApp(queue) == [] then (w, true) else Serve(app.rank, w, app.middleware)
    requires ConfigureOrder(queue) == WithoutApp(queue) + WithApp(queue)
    ensures Leaves(Finishing(app, queue, start), queue, ok, Registered(ConfigureOrder(queue)), w')
  {
    AllBuilt(queue);
  }

  lemma NothingBuiltYet(st: Stage, templates: Registry)
    requires Ready(st) && templates == Registered(st.base)
    ensures BuiltUpTo(st, templates, st.start, [], 0)
  {
    assert st.base + [] == st.base;
  }

  lemma AllBuilt(queue: seq<ModuleSetup>)
    requires ConfigureOrder(queue) == WithoutApp(queue) + WithApp(queue)
    ensures ConfigureOrder(queue)[..|WithoutApp(queue)| + |WithApp(queue)|] == ConfigureOrder(queue)
  {
  }

  lemma StoppedLate(st: Stage, templates: Registry, world: Injector.World, queue: seq<ModuleSetup>)
    requires Ready(st) && st.base == WithoutApp(queue) && Stopped(st, templates, world, WithApp(queue))
    requires ConfigureOrder(queue) == WithoutApp(queue) + WithApp(queue)
    ensures Leaves(Finishing(st.app, queue, st.start), queue, false, templates, world)
  {
    var n := Configuring(st.app, st.start, WithApp(queue)).count;
    assert ConfigureOrder(queue)[..|st.base| + n] == st.base + WithApp(queue)[..n];
  }

  /** A created application has exactly the root and everything reachable from it, each once. */
  lemma EveryReachableModuleIsBuiltOnce(rank: Module -> nat, g: Graph, root: Module)
    requires Acyclic(rank, g)
    ensures var names := ModuleNames(ConfigureOrder(Queue(rank, g, root)));
            Distinct(names) && forall m :: m in names <==> InApp(g, root, m)
  {
    var queue := Queue(rank, g, root);
    var order := ConfigureOrder(queue);
    BuildOrderIsReversedFirsts(rank, g, root);
    EverySetupIsConfiguredOnce(queue);
    ReadFindsExactlyTheReachable(rank, g, root);
    ReadOrder(rank, g, root);
    var firsts := [root] + Firsts(Keys(Unfold(rank, g, root)));
    forall m
      ensures m in ModuleNames(order) <==> InApp(g, root, m)
    {
      SameNames(order, queue, m);
      ReverseHas(firsts, m);
    }
  }

  lemma SameNames(a: seq<ModuleSetup>, b: seq<ModuleSetup>, m: Module)
    requires forall s :: s in a <==> s in b
    ensures m in ModuleNames(a) <==> m in ModuleNames(b)
  {
    if m in ModuleNames(a) {
      var i :| 0 <= i < |a| && ModuleNames(a)[i] == m;
      assert a[i] in a;
      var j :| 0 <= j < |b| && b[j] == a[i];
      assert ModuleNames(b)[j] == m;
    }
    if m in ModuleNames(b) {
      var i :| 0 <= i < |b| && ModuleNames(b)[i] == m;
      assert b[i] in b;
      var j :| 0 <= j < |a| && a[j] == b[i];
      assert ModuleNames(a)[j] == m;
    }
  }

  lemma ReverseHas(s: seq<Module>, m: Module)
    ensures m in Reverse(s) <==> m in s
  {
    if m in s {
      var i :| 0 <= i < |s| && s[i] == m;
      assert Reverse(s)[|s| - 1 - i] == m;
    }
  }

  // ----- when creation succeeds -----

  function Phase(s: ModuleSetup): nat {
    match KindOf(s)
    case Immediate => 0
    case Deferred => 1
    case AppDependent => 2
  }

  /** Kept setups are configured in the opposite of the order the queue has them in. */
  ghost predicate ConfiguredBefore(queue: seq<ModuleSetup>, s: ModuleSetup, t: ModuleSetup) {
    if Phase(s) != Phase(t) then Phase(s) < Phase(t)
    else if KindOf(s) == Immediate then Before(queue, s, t)
    else Before(queue, t, s)
  }

  lemma {:induction false} OfKindKeepsOrder(queue: seq<ModuleSetup>, kind: Kind, s: ModuleSetup, t: ModuleSetup)
    requires Before(queue, s, t) && KindOf(s) == kind && KindOf(t) == kind
    ensures Before(OfKind(queue, kind), s, t)
    decreases |queue|
  {
    var i, j :| 0 <= i < j < |queue| && queue[i] == s && queue[j] == t;
    var n := |queue| - 1;
    var init := OfKind(queue[..n], kind);
    if j < n {
      assert queue[..n][i] == s && queue[..n][j] == t;
      OfKindKeepsOrder(queue[..n], kind, s, t);
      BeforeInJoin(init, OfKind(queue, kind)[|init|..], s, t);
      assert OfKind(queue, kind) == init + OfKind(queue, kind)[|init|..];
    } else {
      assert queue[..n][i] == s;
      assert s in init;
      AcrossJoin(init, [t], s, t);
    }
  }

  lemma BeforeInJoin<T>(a: seq<T>, b: seq<T>, s: T, t: T)
    requires Before(a, s, t) || Before(b, s, t)
    ensures Before(a + b, s, t)
  {
    if Before(a, s, t) {
      var i, j :| 0 <= i < j < |a| && a[i] == s && a[j] == t;
      assert (a + b)[i] == s && (a + b)[j] == t;
    } else {
      var i, j :| 0 <= i < j < |b| && b[i] == s && b[j] == t;
      assert (a + b)[|a| + i] == s && (a + b)[|a| + j] == t;
    }
  }

  lemma AcrossJoin<T>(a: seq<T>, b: seq<T>, s: T, t: T)
    requires s in a && t in b
    ensures Before(a + b, s, t)
  {
    var i, j :| 0 <= i < |a| && 0 <= j < |b| && a[i] == s && b[j] == t;
    assert (a + b)[i] == s && (a + b)[|a| + j] == t;
  }

  lemma InReverse(queue: seq<ModuleSetup>, s: ModuleSetup)
    ensures s in Reverse(queue) <==> s in queue
  {
    if s in queue {
      var i :| 0 <= i < |queue| && queue[i] == s;
      assert Reverse(queue)[|queue| - 1 - i] == s;
    }
  }

  lemma ConfiguredBeforeIsOrder(queue: seq<ModuleSetup>, s: ModuleSetup, t: ModuleSetup)
    requires s in queue && t in queue && ConfiguredBefore(queue, s, t)
    ensures Before(ConfigureOrder(queue), s, t)
  {
    var a, b, c := OfKind(queue, Immediate), Reverse(OfKind(queue, Deferred)), Reverse(OfKind(queue, AppDependent));
    InReverse(OfKind(queue, Deferred), s);
    InReverse(OfKind(queue, Deferred), t);
    InReverse(OfKind(queue, AppDependent), t);
    if Phase(s) == Phase(t) {
      if KindOf(s) == Immediate {
        OfKindKeepsOrder(queue, Immediate, s, t);
        BeforeInJoin(a, b, s, t);
      } else {
        OfKindKeepsOrder(queue, KindOf(s), t, s);
        BeforeReversed(OfKind(queue, KindOf(s)), t, s);
        if KindOf(s) == Deferred {
          BeforeInJoin(a, b, s, t);
        }
      }
      BeforeInJoin(a + b, c, s, t);
    } else if KindOf(t) == AppDependent {
      AcrossJoin(a + b, c, s, t);
    } else {
      AcrossJoin(a, b, s, t);
      BeforeInJoin(a + b, c, s, t);
    }
  }

  lemma BeforeIsTotal<T>(s: seq<T>, a: T, b: T)
    requires a in s && b in s && a != b
    ensures Before(s, a, b) || Before(s, b, a)
  {
    var i, j :| 0 <= i < |s| && 0 <= j < |s| && s[i] == a && s[j] == b;
  }

  lemma DistinctSetups(setups: seq<ModuleSetup>)
    requires Distinct(ModuleNames(setups))
    ensures Distinct(setups)
  {
    assert forall i :: 0 <= i < |setups| ==> ModuleNames(setups)[i] == setups[i].mod;
  }

  /** The configuration order, position by position. */
  lemma OrderIsConfiguredBefore(queue: seq<ModuleSetup>, s: ModuleSetup, t: ModuleSetup)
    requires Distinct(ModuleNames(queue)) && s in queue && t in queue
    ensures Before(ConfigureOrder(queue), s, t) <==> ConfiguredBefore(queue, s, t)
  {
    EverySetupIsConfiguredOnce(queue);
    DistinctSetups(ConfigureOrder(queue));
    DistinctSetups(queue);
    if ConfiguredBefore(queue, s, t) {
      ConfiguredBeforeIsOrder(queue, s, t);
    } else if s != t {
      BeforeIsTotal(queue, s, t);
      ConfiguredBeforeIsOrder(queue, t, s);
      BeforeIsAsymmetric(ConfigureOrder(queue), t, s);
    }
  }

  // ----- the order, read off what the setups inject -----

  predicate NeedsApp(s: ModuleSetup) {
    exists i :: 0 <= i < |s.inject| && s.inject[i] == APP
  }

  /** There is a factory, and it is to be given something besides the configuration. */
  predicate FactoryNeedsServices(s: ModuleSetup) {
    s.factory.Factory? && |s.inject| > 0 && !(|s.inject| == 1 && s.inject[0] == CONFIG)
  }

  /**
   First those that need nothing, in queue order; then those that need services, and then those that need the
   application, both in reverse.
   */
  ghost predicate ComesBefore(queue: seq<ModuleSetup>, s: ModuleSetup, t: ModuleSetup) {
    if NeedsApp(s) then NeedsApp(t) && Before(queue, t, s)
    else if NeedsApp(t) then true
    else if FactoryNeedsServices(s) then FactoryNeedsServices(t) && Before(queue, t, s)
    else FactoryNeedsServices(t) || Before(queue, s, t)
  }

  /**
   The configuration order, position by position: a setup that has no factory, or injects nothing, or only
   the configuration keeps its queue place among such setups; one whose factory needs other services comes
   after all of these and in reverse order; anything that needs the application comes last and in reverse order.
   */
  lemma OrderFollowsInjection(queue: seq<ModuleSetup>, s: ModuleSetup, t: ModuleSetup)
    requires Distinct(ModuleNames(queue)) && s in queue && t in queue
    ensures Before(ConfigureOrder(queue), s, t) <==> ComesBefore(queue, s, t)
  {
    OrderIsConfiguredBefore(queue, s, t);
    assert NeedsApp(s) <==> APP in s.inject;
    assert NeedsApp(t) <==> APP in t.inject;
    InjectsOnlyConfig(s);
    InjectsOnlyConfig(t);
  }

  lemma InjectsOnlyConfig(s: ModuleSetup)
    ensures s.inject == [CONFIG] <==> |s.inject| == 1 && s.inject[0] == CONFIG
  {
  }

  /**
   A root that only imports is configured after every setup that needs nothing, factories given just the
   configuration included.
   */
  lemma RootFollowsImmediateSetups(rank: Module -> nat, g: Graph, root: Module, s: ModuleSetup)
    requires Acyclic(rank, g) && s in Queue(rank, g, root) && s.mod != root
    requires !NeedsApp(s) && (s.factory.NoFactory? || s.inject == [] || s.inject == [CONFIG])
    ensures Simple(root) in Queue(rank, g, root)
    ensures Before(ConfigureOrder(Queue(rank, g, root)), s, Simple(root))
  {
    var queue := Queue(rank, g, root);
    BuildOrderIsReversedFirsts(rank, g, root);
    var n := |queue| - 1;
    assert queue[n] == Simple(root);
    var i :| 0 <= i < |queue| && queue[i] == s;
    assert Before(queue, s, Simple(root));
    assert s.inject == [] || s.inject == [CONFIG] ==> !FactoryNeedsServices(s);
    OrderFollowsInjection(queue, s, Simple(root));
  }

  /** A cache module set up from the configuration is built before the root that imports it. */
  lemma ConfigOnlySetupIsBuiltFirst(cache: Module, root: Module)
    requires cache != root
    ensures var setup := ModuleSetup(cache, [CONFIG], Factory(true));
            ConfigureOrder([setup, Simple(root)]) == [setup, Simple(root)]
  {
    TwoImmediate(ModuleSetup(cache, [CONFIG], Factory(true)), Simple(root));
  }

  lemma TwoImmediate(a: ModuleSetup, b: ModuleSetup)
    requires KindOf(a) == Immediate && KindOf(b) == Immediate
    ensures ConfigureOrder([a, b]) == [a, b]
  {
    KindOfTwo(a, b, Immediate);
    KindOfTwo(a, b, Deferred);
    KindOfTwo(a, b, AppDependent);
  }

  lemma KindOfTwo(a: ModuleSetup, b: ModuleSetup, kind: Kind)
    requires KindOf(a) == Immediate && KindOf(b) == Immediate
    ensures OfKind([a, b], kind) == if kind == Immediate then [a, b] else []
  {
    OneOfKind([], a, kind);
    OneOfKind([] + [a], b, kind);
    assert [] + [a] + [b] == [a, b];
  }

  lemma OneOfKind(init: seq<ModuleSetup>, s: ModuleSetup, kind: Kind)
    ensures OfKind(init + [s], kind) == OfKind(init, kind) + if KindOf(s) == kind then [s] else []
  {
    assert (init + [s])[..|init|] == init;
  }

  lemma NamesBefore(queue: seq<ModuleSetup>, s: ModuleSetup, t: ModuleSetup)
    requires Distinct(ModuleNames(queue)) && s in queue && t in queue && Before(ModuleNames(queue), s.mod, t.mod)
    ensures Before(queue, s, t)
  {
    var i, j :| 0 <= i < j < |queue| && ModuleNames(queue)[i] == s.mod && ModuleNames(queue)[j] == t.mod;
    assert queue[i] in queue && queue[j] in queue;
    SameNameSameSetup(queue, queue[i], s);
    SameNameSameSetup(queue, queue[j], t);
  }
}
