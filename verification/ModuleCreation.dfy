/** When creating an application succeeds: which services each setup is given, and by whom. */
module ModuleCreation {
  import opened Prelude
  import opened OrderedDicts
  import opened ModuleGraph
  import opened ModuleBuild
  import opened Resolvability
  import Injector

  // ----- setup by setup -----

  /** Whether the setup becomes a module reference, read off what the injector can answer. */
  ghost predicate CanConfigure(app: Application, s: ModuleSetup, w: Injector.World)
    requires Injector.Acyclic(app.rank, w)
  {
    if s.factory.NoFactory? then KindOf(s) != AppDependent
    else s.factory.returnsDynamicModule && AllAnswerable(app.rank, w, s.inject)
  }

  lemma {:induction false} ConfiguresIff(app: Application, w: Injector.World, s: ModuleSetup)
    requires Sensible(app) && Injector.Acyclic(app.rank, w)
    ensures ConfigureOne(app, w, s).1 <==> CanConfigure(app, s, w)
    ensures ConfigureOne(app, w, s).1 ==>
              exists w1 :: Injector.Acyclic(app.rank, w1) && SameAnswers(app.rank, w, w1) &&
                           ConfigureOne(app, w, s).0 == RegisterModule(app, w1, s.mod)
  {
    if s.factory.NoFactory? && KindOf(s) != AppDependent {
      assert SameAnswers(app.rank, w, w);
    } else {
      ServesIffAnswerable(app.rank, w, s.inject);
    }
  }

  ghost predicate ConfiguresAt(app: Application, w: Injector.World, order: seq<ModuleSetup>, k: nat)
    requires Sensible(app) && Injector.Acyclic(app.rank, w) && k < |order|
  {
    CanConfigure(app, order[k], Configuring(app, w, order[..k]).world)
  }

  /** Each setup can be configured in what those before it have made of the injector. */
  ghost predicate EachConfigures(app: Application, w: Injector.World, order: seq<ModuleSetup>)
    requires Sensible(app) && Injector.Acyclic(app.rank, w)
  {
    forall k :: 0 <= k < |order| ==> ConfiguresAt(app, w, order, k)
  }

  lemma {:induction false} EachConfiguresSnoc(app: Application, w: Injector.World, order: seq<ModuleSetup>)
    requires Sensible(app) && Injector.Acyclic(app.rank, w) && order != []
    ensures EachConfigures(app, w, order) <==>
            EachConfigures(app, w, order[..|order| - 1]) && ConfiguresAt(app, w, order, |order| - 1)
  {
    var n := |order| - 1;
    forall k | 0 <= k < n
      ensures ConfiguresAt(app, w, order[..n], k) == ConfiguresAt(app, w, order, k)
    {
      assert order[..n][..k] == order[..k];
    }
  }

  lemma {:induction false} ConfiguringSnoc(app: Application, w: Injector.World, order: seq<ModuleSetup>)
    requires Sensible(app) && Injector.Acyclic(app.rank, w) && order != []
    ensures Configuring(app, w, order).count == |order| <==>
            && Configuring(app, w, order[..|order| - 1]).count == |order| - 1
            && ConfiguresAt(app, w, order, |order| - 1)
  {
    ConfiguresIff(app, Configuring(app, w, order[..|order| - 1]).world, order[|order| - 1]);
  }

  lemma {:induction false} AllConfigured(app: Application, w: Injector.World, order: seq<ModuleSetup>)
    requires Sensible(app) && Injector.Acyclic(app.rank, w)
    ensures Configuring(app, w, order).count == |order| <==> EachConfigures(app, w, order)
    decreases |order|
  {
    if order != [] {
      var n := |order| - 1;
      AllConfigured(app, w, order[..n]);
      EachConfiguresSnoc(app, w, order);
      ConfiguringSnoc(app, w, order);
    }
  }

  /** What the injector is when the application has registered itself and built its middleware. */
  function StartedWorld(app: Application, queue: seq<ModuleSetup>): (w: Injector.World)
    requires Sensible(app)
    ensures Injector.Acyclic(app.rank, w)
  {
    Serve(app.rank, RegisterApp(app, Configuring(app, app.core, WithoutApp(queue)).world), app.middleware).0
  }

  /**
   For every application: it is created exactly when every setup with a factory gets a DynamicModule
   and the injector, as those before have left it, answers each service it asks for, and the
   middleware's as well, both times that it is built.
   */
  lemma {:induction false} CreationSucceedsIffAnswered(app: Application, queue: seq<ModuleSetup>)
    requires Sensible(app)
    ensures CreationSucceeds(app, queue) <==>
            && EachConfigures(app, app.core, WithoutApp(queue))
            && AllAnswerable(app.rank, RegisterApp(app, Configuring(app, app.core, WithoutApp(queue)).world),
                             app.middleware)
            && EachConfigures(app, StartedWorld(app, queue), WithApp(queue))
            && (WithApp(queue) != [] ==>
                  AllAnswerable(app.rank, Configuring(app, StartedWorld(app, queue), WithApp(queue)).world,
                                app.middleware))
  {
    var p := Configuring(app, app.core, WithoutApp(queue));
    var late := Configuring(app, StartedWorld(app, queue), WithApp(queue));
    AllConfigured(app, app.core, WithoutApp(queue));
    ServesIffAnswerable(app.rank, RegisterApp(app, p.world), app.middleware);
    AllConfigured(app, StartedWorld(app, queue), WithApp(queue));
    ServesIffAnswerable(app.rank, late.world, app.middleware);
  }

  // ----- read off the registrations -----

  /** `b` is a binding of `i` from the core, the application, or some module. */
  ghost predicate Offers(app: Application, queue: seq<ModuleSetup>, i: Service, b: Injector.Binding) {
    || Injector.BindingOf(app.core, i) == Some(b)
    || (i in app.appBindings && app.appBindings[i] == b)
    || exists s :: s in queue && i in app.registrations(s.mod) && app.registrations(s.mod)[i] == b
  }

  /** No service is bound in two different ways. */
  ghost predicate NothingIsRebound(app: Application, queue: seq<ModuleSetup>) {
    forall i, b, c :: Offers(app, queue, i, b) && Offers(app, queue, i, c) ==> b == c
  }

  ghost predicate AllOffered(app: Application, queue: seq<ModuleSetup>, v: Injector.World) {
    forall i :: Injector.BindingOf(v, i).Some? ==> Offers(app, queue, i, Injector.BindingOf(v, i).value)
  }

  ghost predicate OffersAll(app: Application, queue: seq<ModuleSetup>, more: map<Service, Injector.Binding>) {
    forall i :: i in more ==> Offers(app, queue, i, more[i])
  }

  lemma {:induction false} OfferedRebindsNothing(
    app: Application, queue: seq<ModuleSetup>, v: Injector.World, more: map<Service, Injector.Binding>)
    requires NothingIsRebound(app, queue) && AllOffered(app, queue, v) && OffersAll(app, queue, more)
    ensures RebindsNothing(v, more) && AllOffered(app, queue, Register(v, more))
  {
    forall i | Injector.BindingOf(Register(v, more), i).Some?
      ensures Offers(app, queue, i, Injector.BindingOf(Register(v, more), i).value)
    {
      RegisteredBinding(v, more, i);
    }
  }

  /** The registrations of the setups, on top of `v`, and nothing built. */
  function VisibleAfter(app: Application, v: Injector.World, order: seq<ModuleSetup>): (v': Injector.World)
    requires Sensible(app) && Injector.Acyclic(app.rank, v)
    ensures Injector.Acyclic(app.rank, v')
  {
    if order == [] then v
    else RegisterModule(app, VisibleAfter(app, v, order[..|order| - 1]), order[|order| - 1].mod)
  }

  lemma {:induction false} VisibleStaysOffered(
    app: Application, queue: seq<ModuleSetup>, v: Injector.World, order: seq<ModuleSetup>)
    requires Sensible(app) && Injector.Acyclic(app.rank, v)
    requires NothingIsRebound(app, queue) && AllOffered(app, queue, v) && forall s :: s in order ==> s in queue
    ensures AllOffered(app, queue, VisibleAfter(app, v, order))
    decreases |order|
  {
    if order != [] {
      var n := |order| - 1;
      VisibleStaysOffered(app, queue, v, order[..n]);
      assert order[n] in queue;
      OfferedRebindsNothing(app, queue, VisibleAfter(app, v, order[..n]), app.registrations(order[n].mod));
    }
  }

  /** More registrations take no answer away. */
  lemma {:induction false} VisibleKeepsAnswers(
    app: Application, queue: seq<ModuleSetup>, v: Injector.World, order: seq<ModuleSetup>, i: Service)
    requires Sensible(app) && Injector.Acyclic(app.rank, v)
    requires NothingIsRebound(app, queue) && AllOffered(app, queue, v) && forall s :: s in order ==> s in queue
    requires Answerable(app.rank, v, i)
    ensures Answerable(app.rank, VisibleAfter(app, v, order), i)
    decreases |order|
  {
    if order != [] {
      var n := |order| - 1;
      var v' := VisibleAfter(app, v, order[..n]);
      VisibleKeepsAnswers(app, queue, v, order[..n], i);
      VisibleStaysOffered(app, queue, v, order[..n]);
      assert order[n] in queue;
      OfferedRebindsNothing(app, queue, v', app.registrations(order[n].mod));
      RegisteringKeepsAnswers(app.rank, v', app.registrations(order[n].mod), i);
    }
  }

  ghost predicate ServedAt(app: Application, v: Injector.World, order: seq<ModuleSetup>, k: nat)
    requires Sensible(app) && Injector.Acyclic(app.rank, v) && k < |order|
  {
    CanConfigure(app, order[k], VisibleAfter(app, v, order[..k]))
  }

  ghost predicate EachServed(app: Application, v: Injector.World, order: seq<ModuleSetup>)
    requires Sensible(app) && Injector.Acyclic(app.rank, v)
  {
    forall k :: 0 <= k < |order| ==> ServedAt(app, v, order, k)
  }

  lemma {:induction false} EachServedSnoc(app: Application, v: Injector.World, order: seq<ModuleSetup>)
    requires Sensible(app) && Injector.Acyclic(app.rank, v) && order != []
    ensures EachServed(app, v, order) <==>
            EachServed(app, v, order[..|order| - 1]) && ServedAt(app, v, order, |order| - 1)
  {
    var n := |order| - 1;
    forall k | 0 <= k < n
      ensures ServedAt(app, v, order[..n], k) == ServedAt(app, v, order, k)
    {
      assert order[..n][..k] == order[..k];
    }
  }

  lemma {:induction false} SameAnswersSameSetups(app: Application, v: Injector.World, w: Injector.World, s: ModuleSetup)
    requires Injector.Acyclic(app.rank, v) && Injector.Acyclic(app.rank, w) && SameAnswers(app.rank, v, w)
    ensures CanConfigure(app, s, w) == CanConfigure(app, s, v)
  {
    SameAnswersAllAnswer(app.rank, v, w, s.inject);
  }

  /** A setup that is configured leaves the injector answering as its registrations say. */
  lemma {:induction false} ConfiguredSameAnswers(
    app: Application, queue: seq<ModuleSetup>, v: Injector.World, w: Injector.World, s: ModuleSetup)
    requires Sensible(app) && Injector.Acyclic(app.rank, v) && Injector.Acyclic(app.rank, w)
    requires SameAnswers(app.rank, v, w) && NothingIsRebound(app, queue) && AllOffered(app, queue, v) && s in queue
    requires ConfigureOne(app, w, s).1
    ensures SameAnswers(app.rank, RegisterModule(app, v, s.mod), ConfigureOne(app, w, s).0)
  {
    ConfiguresIff(app, w, s);
    var w1 :| Injector.Acyclic(app.rank, w1) && SameAnswers(app.rank, w, w1) &&
              ConfigureOne(app, w, s).0 == RegisterModule(app, w1, s.mod);
    SameAnswersTransitive(app.rank, v, w, w1);
    OfferedRebindsNothing(app, queue, v, app.registrations(s.mod));
    RegisteringSameAnswers(app.rank, v, w1, app.registrations(s.mod));
  }

  /** One stretch of setups, with what was built on the way left out of account. */
  lemma {:induction false} StretchIsServed(
    app: Application, queue: seq<ModuleSetup>, v: Injector.World, w: Injector.World, order: seq<ModuleSetup>)
    requires Sensible(app) && Injector.Acyclic(app.rank, v) && Injector.Acyclic(app.rank, w)
    requires SameAnswers(app.rank, v, w) && NothingIsRebound(app, queue) && AllOffered(app, queue, v)
    requires forall s :: s in order ==> s in queue
    ensures Configuring(app, w, order).count == |order| <==> EachServed(app, v, order)
    ensures Configuring(app, w, order).count == |order| ==>
              SameAnswers(app.rank, VisibleAfter(app, v, order), Configuring(app, w, order).world)
    decreases |order|
  {
    if order != [] {
      var n := |order| - 1;
      StretchIsServed(app, queue, v, w, order[..n]);
      EachServedSnoc(app, v, order);
      var v1, p := VisibleAfter(app, v, order[..n]), Configuring(app, w, order[..n]);
      if p.count == n {
        VisibleStaysOffered(app, queue, v, order[..n]);
        SameAnswersSameSetups(app, v1, p.world, order[n]);
        ConfiguresIff(app, p.world, order[n]);
        assert order[n] in queue;
        if ConfigureOne(app, p.world, order[n]).1 {
          ConfiguredSameAnswers(app, queue, v1, p.world, order[n]);
        }
      }
    }
  }

  /** What is registered when the application has started: by the core, all modules before it, and itself. */
  function VisibleToApp(app: Application, queue: seq<ModuleSetup>): (v: Injector.World)
    requires Sensible(app)
    ensures Injector.Acyclic(app.rank, v)
  {
    RegisterApp(app, VisibleAfter(app, app.core, WithoutApp(queue)))
  }

  /** What is registered when the `k`-th setup is configured. */
  function VisibleBefore(app: Application, queue: seq<ModuleSetup>, k: nat): (v: Injector.World)
    requires Sensible(app) && k <= |ConfigureOrder(queue)|
    ensures Injector.Acyclic(app.rank, v)
  {
    var order, n := ConfigureOrder(queue), |WithoutApp(queue)|;
    if k < n then VisibleAfter(app, app.core, order[..k]) else VisibleAfter(app, VisibleToApp(app, queue), order[n..k])
  }

  /** The `k`-th setup can be configured from what is registered by then. */
  ghost predicate CanBeServed(app: Application, queue: seq<ModuleSetup>, k: nat)
    requires Sensible(app) && k < |ConfigureOrder(queue)|
  {
    CanConfigure(app, ConfigureOrder(queue)[k], VisibleBefore(app, queue, k))
  }

  lemma {:induction false} OrderIsInQueue(queue: seq<ModuleSetup>)
    ensures forall s :: s in WithoutApp(queue) || s in WithApp(queue) ==> s in queue
  {
    forall s
      ensures s in Reverse(OfKind(queue, Deferred)) ==> s in queue
      ensures s in Reverse(OfKind(queue, AppDependent)) ==> s in queue
    {
      InReverse(OfKind(queue, Deferred), s);
      InReverse(OfKind(queue, AppDependent), s);
    }
  }

  lemma {:induction false} AppVisibleIsOffered(app: Application, queue: seq<ModuleSetup>)
    requires Sensible(app) && NothingIsRebound(app, queue)
    ensures AllOffered(app, queue, app.core)
    ensures RebindsNothing(VisibleAfter(app, app.core, WithoutApp(queue)), app.appBindings)
    ensures AllOffered(app, queue, VisibleToApp(app, queue))
  {
    OrderIsInQueue(queue);
    VisibleStaysOffered(app, queue, app.core, WithoutApp(queue));
    OfferedRebindsNothing(app, queue, VisibleAfter(app, app.core, WithoutApp(queue)), app.appBindings);
  }

  /** The two stretches, the application's start between them and the middleware built twice. */
  lemma {:induction false} CreationInStretches(app: Application, queue: seq<ModuleSetup>)
    requires Sensible(app) && NothingIsRebound(app, queue)
    ensures CreationSucceeds(app, queue) <==>
            && EachServed(app, app.core, WithoutApp(queue))
            && AllAnswerable(app.rank, VisibleToApp(app, queue), app.middleware)
            && EachServed(app, VisibleToApp(app, queue), WithApp(queue))
  {
    OrderIsInQueue(queue);
    AppVisibleIsOffered(app, queue);
    var early := WithoutApp(queue);
    var p := Configuring(app, app.core, early);
    StretchIsServed(app, queue, app.core, app.core, early);
    if p.count == |early| {
      RegisteringSameAnswers(app.rank, VisibleAfter(app, app.core, early), p.world, app.appBindings);
      StartIsServed(app, queue, p.world);
    }
  }

  lemma {:induction false} StartIsServed(app: Application, queue: seq<ModuleSetup>, w: Injector.World)
    requires Sensible(app) && NothingIsRebound(app, queue) && Injector.Acyclic(app.rank, w)
    requires AllOffered(app, queue, VisibleToApp(app, queue))
    requires SameAnswers(app.rank, VisibleToApp(app, queue), RegisterApp(app, w))
    ensures Starting(app, queue, w).ok <==>
            && AllAnswerable(app.rank, VisibleToApp(app, queue), app.middleware)
            && EachServed(app, VisibleToApp(app, queue), WithApp(queue))
  {
    var v, w0 := VisibleToApp(app, queue), RegisterApp(app, w);
    ServesIffAnswerable(app.rank, w0, app.middleware);
    SameAnswersAllAnswer(app.rank, v, w0, app.middleware);
    var (w1, ok) := Serve(app.rank, w0, app.middleware);
    if ok {
      SameAnswersTransitive(app.rank, v, w0, w1);
      LateIsServed(app, queue, w1);
    }
  }

  lemma {:induction false} LateIsServed(app: Application, queue: seq<ModuleSetup>, w: Injector.World)
    requires Sensible(app) && NothingIsRebound(app, queue) && Injector.Acyclic(app.rank, w)
    requires AllOffered(app, queue, VisibleToApp(app, queue))
    requires SameAnswers(app.rank, VisibleToApp(app, queue), w)
    requires AllAnswerable(app.rank, VisibleToApp(app, queue), app.middleware)
    ensures Finishing(app, queue, w).ok <==> EachServed(app, VisibleToApp(app, queue), WithApp(queue))
  {
    OrderIsInQueue(queue);
    var v, late := VisibleToApp(app, queue), WithApp(queue);
    StretchIsServed(app, queue, v, w, late);
    var p := Configuring(app, w, late);
    if p.count == |late| {
      forall i | i in app.middleware
        ensures Answerable(app.rank, VisibleAfter(app, v, late), i)
      {
        VisibleKeepsAnswers(app, queue, v, late, i);
      }
      SameAnswersAllAnswer(app.rank, VisibleAfter(app, v, late), p.world, app.middleware);
      ServesIffAnswerable(app.rank, p.world, app.middleware);
    }
  }

  /**
   When no service is bound in two ways, what was built on the way makes no difference: the application
   is created exactly when every setup with a factory gets a DynamicModule and each service it asks for
   can be built from what the core, the modules configured before it and, for the last kind, the
   application have registered, and so can the services of the middleware.
   */
  lemma {:induction false} CreationSucceedsIffServed(app: Application, queue: seq<ModuleSetup>)
    requires Sensible(app) && NothingIsRebound(app, queue)
    ensures CreationSucceeds(app, queue) <==>
            AllServed(app, queue) && AllAnswerable(app.rank, VisibleToApp(app, queue), app.middleware)
  {
    CreationInStretches(app, queue);
    AllServedByStretch(app, queue);
  }

  ghost predicate AllServed(app: Application, queue: seq<ModuleSetup>)
    requires Sensible(app)
  {
    forall k :: 0 <= k < |ConfigureOrder(queue)| ==> CanBeServed(app, queue, k)
  }

  lemma {:induction false} AllServedByStretch(app: Application, queue: seq<ModuleSetup>)
    requires Sensible(app)
    ensures AllServed(app, queue) <==>
            EachServed(app, app.core, WithoutApp(queue)) && EachServed(app, VisibleToApp(app, queue), WithApp(queue))
  {
    if AllServed(app, queue) {
      forall k | 0 <= k < |WithoutApp(queue)|
        ensures ServedAt(app, app.core, WithoutApp(queue), k)
      {
        ServedEarly(app, queue, k);
      }
      forall k | 0 <= k < |WithApp(queue)|
        ensures ServedAt(app, VisibleToApp(app, queue), WithApp(queue), k)
      {
        ServedLate(app, queue, |WithoutApp(queue)| + k);
      }
    }
    if EachServed(app, app.core, WithoutApp(queue)) && EachServed(app, VisibleToApp(app, queue), WithApp(queue)) {
      StretchesServeAll(app, queue);
    }
  }

  lemma {:induction false} StretchesServeAll(app: Application, queue: seq<ModuleSetup>)
    requires Sensible(app)
    requires EachServed(app, app.core, WithoutApp(queue)) && EachServed(app, VisibleToApp(app, queue), WithApp(queue))
    ensures AllServed(app, queue)
  {
    forall k | 0 <= k < |ConfigureOrder(queue)|
      ensures CanBeServed(app, queue, k)
    {
      StretchServes(app, queue, k);
    }
  }

  lemma {:induction false} StretchServes(app: Application, queue: seq<ModuleSetup>, k: nat)
    requires Sensible(app) && k < |ConfigureOrder(queue)|
    requires EachServed(app, app.core, WithoutApp(queue)) && EachServed(app, VisibleToApp(app, queue), WithApp(queue))
    ensures CanBeServed(app, queue, k)
  {
    if k < |WithoutApp(queue)| {
      ServedEarly(app, queue, k);
    } else {
      ServedLate(app, queue, k);
      assert ServedAt(app, VisibleToApp(app, queue), WithApp(queue), k - |WithoutApp(queue)|);
    }
  }

  lemma {:induction false} ServedEarly(app: Application, queue: seq<ModuleSetup>, k: nat)
    requires Sensible(app) && k < |WithoutApp(queue)|
    ensures CanBeServed(app, queue, k) == ServedAt(app, app.core, WithoutApp(queue), k)
  {
    assert ConfigureOrder(queue)[..k] == WithoutApp(queue)[..k];
  }

  lemma {:induction false} ServedLate(app: Application, queue: seq<ModuleSetup>, k: nat)
    requires Sensible(app) && |WithoutApp(queue)| <= k < |ConfigureOrder(queue)|
    ensures CanBeServed(app, queue, k) ==
            ServedAt(app, VisibleToApp(app, queue), WithApp(queue), k - |WithoutApp(queue)|)
  {
    var n := |WithoutApp(queue)|;
    assert ConfigureOrder(queue)[n..k] == WithApp(queue)[..k - n];
  }

  // ----- who has registered what -----

  lemma {:induction false} VisibleAfterIff(app: Application, v: Injector.World, order: seq<ModuleSetup>, i: Service)
    requires Sensible(app) && Injector.Acyclic(app.rank, v)
    ensures Injector.BindingOf(VisibleAfter(app, v, order), i).Some? <==>
            Injector.BindingOf(v, i).Some? || exists s :: s in order && i in app.registrations(s.mod)
    decreases |order|
  {
    if order != [] {
      var n := |order| - 1;
      VisibleAfterIff(app, v, order[..n], i);
      RegisteredBinding(VisibleAfter(app, v, order[..n]), app.registrations(order[n].mod), i);
      assert order == order[..n] + [order[n]];
    }
  }

  lemma {:induction false} BeforeIffInPrefix(queue: seq<ModuleSetup>, k: nat, t: ModuleSetup)
    requires Distinct(ModuleNames(queue)) && k < |ConfigureOrder(queue)| && t in queue
    ensures t in ConfigureOrder(queue)[..k] <==> ConfiguredBefore(queue, t, ConfigureOrder(queue)[k])
  {
    var order := ConfigureOrder(queue);
    EverySetupIsConfiguredOnce(queue);
    DistinctSetups(order);
    assert order[k] in order && t in order;
    OrderIsConfiguredBefore(queue, t, order[k]);
    if t in order[..k] {
      var j :| 0 <= j < k && order[..k][j] == t;
      assert Before(order, t, order[k]);
    }
    if Before(order, t, order[k]) {
      var j, l :| 0 <= j < l < |order| && order[j] == t && order[l] == order[k];
      assert order[..k][j] == t;
    }
  }

  /**
   A setup finds a service bound exactly when the core or a module configured before it binds it, or the
   application for a setup that needs it.
   */
  lemma {:induction false} VisibleIffRegisteredBefore(app: Application, queue: seq<ModuleSetup>, k: nat, i: Service)
    requires Sensible(app) && Distinct(ModuleNames(queue)) && k < |ConfigureOrder(queue)|
    ensures Injector.BindingOf(VisibleBefore(app, queue, k), i).Some? <==>
            || Injector.BindingOf(app.core, i).Some?
            || (KindOf(ConfigureOrder(queue)[k]) == AppDependent && i in app.appBindings)
            || exists t ::
                 t in queue && ConfiguredBefore(queue, t, ConfigureOrder(queue)[k]) && i in app.registrations(t.mod)
  {
    VisibleIffInPrefix(app, queue, k, i);
    LateIsLast(queue, k);
    EverySetupIsConfiguredOnce(queue);
    var order := ConfigureOrder(queue);
    forall t | t in queue
      ensures t in order[..k] <==> ConfiguredBefore(queue, t, order[k])
    {
      BeforeIffInPrefix(queue, k, t);
    }
    assert forall t :: t in order[..k] ==> t in order;
  }

  lemma {:induction false} VisibleIffInPrefix(app: Application, queue: seq<ModuleSetup>, k: nat, i: Service)
    requires Sensible(app) && k < |ConfigureOrder(queue)|
    ensures Injector.BindingOf(VisibleBefore(app, queue, k), i).Some? <==>
            || Injector.BindingOf(app.core, i).Some?
            || (|WithoutApp(queue)| <= k && i in app.appBindings)
            || exists t :: t in ConfigureOrder(queue)[..k] && i in app.registrations(t.mod)
  {
    var order, n := ConfigureOrder(queue), |WithoutApp(queue)|;
    if k < n {
      VisibleAfterIff(app, app.core, order[..k], i);
    } else {
      LateIsLast(queue, k);
      VisibleAfterIff(app, app.core, order[..n], i);
      RegisteredBinding(VisibleAfter(app, app.core, order[..n]), app.appBindings, i);
      VisibleAfterIff(app, VisibleToApp(app, queue), order[n..k], i);
      assert order[..k] == order[..n] + order[n..k];
    }
  }

  lemma {:induction false} LateIsLast(queue: seq<ModuleSetup>, k: nat)
    requires k < |ConfigureOrder(queue)|
    ensures KindOf(ConfigureOrder(queue)[k]) == AppDependent <==> |WithoutApp(queue)| <= k
    ensures ConfigureOrder(queue)[..|WithoutApp(queue)|] == WithoutApp(queue)
  {
    var a, b, c := OfKind(queue, Immediate), OfKind(queue, Deferred), OfKind(queue, AppDependent);
    var s := ConfigureOrder(queue)[k];
    InReverse(b, s);
    InReverse(c, s);
    if k < |a| {
      assert s in a;
    } else if k < |a| + |b| {
      assert s == Reverse(b)[k - |a|];
    } else {
      assert s == Reverse(c)[k - |a| - |b|];
    }
  }

  // ----- what is always served -----

  /** What the core can build, decorated and automatically bound classes included, is served to every setup. */
  lemma {:induction false} CoreServicesAreServed(app: Application, queue: seq<ModuleSetup>, k: nat, i: Service)
    requires Sensible(app) && NothingIsRebound(app, queue) && k <= |ConfigureOrder(queue)|
    requires Answerable(app.rank, app.core, i)
    ensures Answerable(app.rank, VisibleBefore(app, queue, k), i) && Answerable(app.rank, VisibleToApp(app, queue), i)
  {
    var order, n := ConfigureOrder(queue), |WithoutApp(queue)|;
    OrderIsInQueue(queue);
    AppVisibleIsOffered(app, queue);
    assert order == WithoutApp(queue) + WithApp(queue);
    VisibleKeepsAnswers(app, queue, app.core, WithoutApp(queue), i);
    RegisteringKeepsAnswers(app.rank, VisibleAfter(app, app.core, WithoutApp(queue)), app.appBindings, i);
    if k < n {
      VisibleKeepsAnswers(app, queue, app.core, order[..k], i);
    } else {
      VisibleKeepsAnswers(app, queue, VisibleToApp(app, queue), order[n..k], i);
    }
  }

  /** Setups that ask for nothing else, and get a DynamicModule, are always configured, in whatever order they come. */
  lemma {:induction false} CoreServicesSuffice(app: Application, queue: seq<ModuleSetup>)
    requires Sensible(app) && NothingIsRebound(app, queue) && AllAnswerable(app.rank, app.core, app.middleware)
    requires forall s :: s in queue ==> CanConfigure(app, s, app.core)
    ensures CreationSucceeds(app, queue)
  {
    CreationSucceedsIffServed(app, queue);
    OrderIsInQueue(queue);
    var order := ConfigureOrder(queue);
    assert order == WithoutApp(queue) + WithApp(queue);
    forall k | 0 <= k < |order|
      ensures CanBeServed(app, queue, k)
    {
      assert order[k] in queue;
      forall i | i in order[k].inject && Answerable(app.rank, app.core, i)
        ensures Answerable(app.rank, VisibleBefore(app, queue, k), i)
      {
        CoreServicesAreServed(app, queue, k, i);
      }
    }
    forall i | i in app.middleware
      ensures Answerable(app.rank, VisibleToApp(app, queue), i)
    {
      CoreServicesAreServed(app, queue, 0, i);
    }
  }

  // ----- what cannot be served -----

  lemma {:induction false} BindingsComeFromRegistrations(
    app: Application, w: Injector.World, order: seq<ModuleSetup>, i: Service)
    requires Sensible(app) && Injector.Acyclic(app.rank, w) && Configuring(app, w, order).count == |order|
    requires Injector.BindingOf(Configuring(app, w, order).world, i).Some?
    ensures Injector.BindingOf(w, i).Some? || exists s :: s in order && i in app.registrations(s.mod)
    decreases |order|
  {
    if order != [] {
      var n := |order| - 1;
      var p := Configuring(app, w, order[..n]);
      ConfiguresIff(app, p.world, order[n]);
      var w1 :| Injector.Acyclic(app.rank, w1) && SameAnswers(app.rank, p.world, w1) &&
                ConfigureOne(app, p.world, order[n]).0 == RegisterModule(app, w1, order[n].mod);
      RegisteredBinding(w1, app.registrations(order[n].mod), i);
      assert Injector.BindingOf(w1, i) == Injector.BindingOf(p.world, i);
      if i in app.registrations(order[n].mod) {
        assert order[n] in order;
      } else {
        BindingsComeFromRegistrations(app, w, order[..n], i);
      }
    }
  }

  /**
   A service that the core does not bind, automatic binding included, and that no module configured before a
   setup registers is not there for it, whatever else is registered or rebound.
   */
  lemma {:induction false} UnregisteredServiceFails(
      app: Application, queue: seq<ModuleSetup>, s: ModuleSetup, i: Service)
    requires Sensible(app) && Distinct(ModuleNames(queue)) && s in queue && i in s.inject
    requires KindOf(s) == Deferred && Injector.BindingOf(app.core, i).None?
    requires forall t :: t in queue && i in app.registrations(t.mod) ==> !ConfiguredBefore(queue, t, s)
    ensures !CreationSucceeds(app, queue)
  {
    var k := DeferredPosition(queue, s);
    var early := WithoutApp(queue);
    CreationSucceedsIffAnswered(app, queue);
    forall t | t in early[..k]
      ensures i !in app.registrations(t.mod)
    {
      OrderIsInQueue(queue);
      assert t in early;
      BeforeIffInPrefix(queue, k, t);
    }
    AllConfigured(app, app.core, early);
    if EachConfigures(app, app.core, early) {
      PrefixConfigures(app, app.core, early, k);
      NotBoundNotConfigured(app, early, k, i);
    }
  }

  lemma {:induction false} DeferredPosition(queue: seq<ModuleSetup>, s: ModuleSetup) returns (k: nat)
    requires s in queue && KindOf(s) == Deferred
    ensures k < |WithoutApp(queue)| && WithoutApp(queue)[k] == s
    ensures k < |ConfigureOrder(queue)| && ConfigureOrder(queue)[k] == s
    ensures ConfigureOrder(queue)[..k] == WithoutApp(queue)[..k]
  {
    InReverse(OfKind(queue, Deferred), s);
    assert s in OfKind(queue, Deferred);
    var j :| 0 <= j < |OfKind(queue, Deferred)| && Reverse(OfKind(queue, Deferred))[j] == s;
    k := |OfKind(queue, Immediate)| + j;
  }

  lemma {:induction false} PrefixConfigures(app: Application, w: Injector.World, order: seq<ModuleSetup>, k: nat)
    requires Sensible(app) && Injector.Acyclic(app.rank, w) && k <= |order|
    requires Configuring(app, w, order).count == |order|
    ensures Configuring(app, w, order[..k]).count == k
  {
    if Configuring(app, w, order[..k]).count < k {
      ConfiguringStops(app, w, order, k);
    }
  }

  lemma {:induction false} NotBoundNotConfigured(app: Application, order: seq<ModuleSetup>, k: nat, i: Service)
    requires Sensible(app) && k < |order| && Configuring(app, app.core, order[..k]).count == k
    requires i in order[k].inject && order[k].factory.Factory? && Injector.BindingOf(app.core, i).None?
    requires forall t :: t in order[..k] ==> i !in app.registrations(t.mod)
    ensures !EachConfigures(app, app.core, order)
  {
    var w := Configuring(app, app.core, order[..k]).world;
    if Injector.BindingOf(w, i).Some? {
      BindingsComeFromRegistrations(app, app.core, order[..k], i);
      assert false;
    }
    assert !Answerable(app.rank, w, i);
    assert !ConfiguresAt(app, app.core, order, k);
  }

  /**
   A deferred module cannot be given a service that only a deferred module standing before it in the build
   order registers: what is kept first is configured last.
   */
  lemma {:induction false} KeptFirstConfiguredLast(
    app: Application, queue: seq<ModuleSetup>, s: ModuleSetup, t: ModuleSetup, i: Service)
    requires Sensible(app) && Distinct(ModuleNames(queue)) && Before(ModuleNames(queue), t.mod, s.mod)
    requires s in queue && t in queue && KindOf(s) == Deferred && KindOf(t) == Deferred && i in s.inject
    requires Injector.BindingOf(app.core, i).None?
    requires forall u :: u in queue && i in app.registrations(u.mod) ==> u == t
    ensures !CreationSucceeds(app, queue)
  {
    NamesBefore(queue, t, s);
    DistinctSetups(queue);
    BeforeIsAsymmetric(queue, t, s);
    UnregisteredServiceFails(app, queue, s, i);
  }

  /**
   Of two deferred modules the one finds what only the other registers exactly when it stands before it in
   the build order.
   */
  lemma {:induction false} DeferredServiceIffBuiltEarlier(
    app: Application, queue: seq<ModuleSetup>, k: nat, t: ModuleSetup, i: Service)
    requires Sensible(app) && Distinct(ModuleNames(queue)) && k < |ConfigureOrder(queue)| && t in queue
    requires KindOf(ConfigureOrder(queue)[k]) == Deferred && KindOf(t) == Deferred
    requires Injector.BindingOf(app.core, i).None? && i in app.registrations(t.mod)
    requires forall u :: u in queue && i in app.registrations(u.mod) ==> u == t
    ensures Injector.BindingOf(VisibleBefore(app, queue, k), i).Some? <==> Before(queue, ConfigureOrder(queue)[k], t)
  {
    VisibleIffRegisteredBefore(app, queue, k, i);
  }

  /**
   A deferred module cannot be given a service that only a deferred module it imports registers when, as
   wherever no module has two importers, the import stands before it in the build order.
   */
  lemma {:induction false} DeferredImportIsNotYetConfigured(
    app: Application, rank: Module -> nat, g: Graph, root: Module, s: ModuleSetup, t: ModuleSetup, i: Service)
    requires Sensible(app) && Acyclic(rank, g) && Imports(g, s.mod, t.mod)
    requires Before(BuildOrder(rank, g, root), t.mod, s.mod) || SingleImporter(g, root)
    requires s in Queue(rank, g, root) && t in Queue(rank, g, root)
    requires KindOf(s) == Deferred && KindOf(t) == Deferred && i in s.inject
    requires Injector.BindingOf(app.core, i).None?
    requires forall u :: u in Queue(rank, g, root) && i in app.registrations(u.mod) ==> u == t
    ensures !CreationSucceeds(app, Queue(rank, g, root))
  {
    BuildOrderIsReversedFirsts(rank, g, root);
    if SingleImporter(g, root) {
      SingleImportersBuildInOrder(rank, g, root);
    }
    KeptFirstConfiguredLast(app, Queue(rank, g, root), s, t, i);
  }
}
