/**
 The injector over whole runs: tasks open and close requests, resolve
 interfaces and hand objects to the current request, in any order.
 */
module InjectorRuns {
  import opened Prelude
  import opened Injector
  import opened InjectorSharing

  /** What `update_scoped_context` is given: an object, or a provider that builds one each time. */
  datatype Handed = Value(id: int) | Factory(deps: seq<Interface>)

  datatype Step =
    | Open(task: int)                     // entering `create_asgi_args`
    | Close(task: int)                    // leaving it: no request at all afterwards
    | Spawn(task: int, child: int)        // a new task starts with its creator's request
    | Get(task: int, i: Interface)
    | Hand(task: int, i: Interface, what: Handed)

  /** `current` is the context variable: which request each task is in. */
  datatype Process = Process(world: World, current: map<int, nat>)

  function Ctx(p: Process, t: int): Option<nat> {
    if t in p.current then Some(p.current[t]) else None
  }

  function ProviderOf(what: Handed): Provider {
    match what
    case Value(id) => Instance(Given(id))
    case Factory(deps) => Build(deps)
  }

  ghost predicate Ready(rank: Interface -> nat, p: Process) {
    Acyclic(rank, p.world) && forall t :: t in p.current ==> p.current[t] < |p.world.contexts|
  }

  ghost predicate StepOk(rank: Interface -> nat, step: Step) {
    step.Hand? ==> Below(rank, step.i, ProviderOf(step.what))
  }

  function After(rank: Interface -> nat, p: Process, step: Step): (p': Process)
    requires Ready(rank, p) && StepOk(rank, step)
    ensures Ready(rank, p')
  {
    var w := p.world;
    match step
    case Open(t) => Process(w.(contexts := w.contexts + [map[]]), p.current[t := |w.contexts|])
    case Close(t) => p.(current := p.current - {t})
    case Spawn(t, child) =>
      if t in p.current then p.(current := p.current[child := p.current[t]]) else p.(current := p.current - {child})
    case Get(t, i) => p.(world := Resolve(rank, w, Ctx(p, t), i).0)
    case Hand(t, i, what) =>
      if t !in p.current then p
      else
        var c := p.current[t];
        p.(world := PutIn(w, c, i, ProviderOf(what)).(put := w.put + {(c, i)}))
  }

  function Run(rank: Interface -> nat, p: Process, steps: seq<Step>): (p': Process)
    requires Ready(rank, p) && forall s :: s in steps ==> StepOk(rank, s)
    ensures Ready(rank, p')
    decreases |steps|
  {
    if steps == [] then p else Run(rank, After(rank, p, steps[0]), steps[1..])
  }

  /** A container with its registrations made and nothing resolved yet. */
  ghost predicate Fresh(rank: Interface -> nat, p: Process) {
    && Ready(rank, p) && p.current == map[]
    && BindingsOk(p.world)
    && p.world.singletons == map[] && p.world.contexts == [] && p.world.heap == [] && p.world.put == {}
  }

  // ----- soundness over runs -----

  lemma OpenIsSound(w: World)
    requires Sound(w)
    ensures Sound(w.(contexts := w.contexts + [map[]]))
  {
    var w' := w.(contexts := w.contexts + [map[]]);
    assert forall i :: BindingOf(w', i) == BindingOf(w, i);
    forall j | 0 <= j < |w'.heap|
      ensures ObjectOk(w', j)
    {
      assert ObjectOk(w, j);
    }
  }

  lemma HandIsSound(w: World, c: nat, i: Interface, what: Handed)
    requires Sound(w) && c < |w.contexts|
    ensures Sound(PutIn(w, c, i, ProviderOf(what)).(put := w.put + {(c, i)}))
  {
    var w' := PutIn(w, c, i, ProviderOf(what)).(put := w.put + {(c, i)});
    assert forall k :: BindingOf(w', k) == BindingOf(w, k);
    forall j | 0 <= j < |w'.heap|
      ensures ObjectOk(w', j)
    {
      assert ObjectOk(w, j);
      var o := w.heap[j];
      forall p | 0 <= p < |o.args|
        ensures Answer(w', o.ctx, o.deps[p], o.args[p])
      {
        assert Answer(w, o.ctx, o.deps[p], o.args[p]);
      }
    }
  }

  lemma {:induction false} RunIsSound(rank: Interface -> nat, p: Process, steps: seq<Step>)
    requires Ready(rank, p) && Sound(p.world)
    requires forall s :: s in steps ==> StepOk(rank, s)
    ensures Sound(Run(rank, p, steps).world)
    decreases |steps|
  {
    if steps != [] {
      match steps[0] {
        case Open(_) => OpenIsSound(p.world);
        case Get(t, i) => ResolveIsSound(rank, p.world, Ctx(p, t), i);
        case Hand(t, i, what) =>
          if t in p.current {
            HandIsSound(p.world, p.current[t], i, what);
          }
        case _ =>
      }
      RunIsSound(rank, After(rank, p, steps[0]), steps[1..]);
    }
  }

  /** Each singleton is built at most once per process. */
  lemma SingletonsAreBuiltOnce(rank: Interface -> nat, p: Process, steps: seq<Step>, j: nat, k: nat)
    requires Fresh(rank, p) && forall s :: s in steps ==> StepOk(rank, s)
    requires var w := Run(rank, p, steps).world;
             && j < |w.heap| && k < |w.heap| && w.heap[j].interface == w.heap[k].interface
             && ScopeOf(w, w.heap[j].interface) == Singleton
    ensures j == k
  {
    RunIsSound(rank, p, steps);
    var w := Run(rank, p, steps).world;
    assert ObjectOk(w, j) && ObjectOk(w, k);
  }

  /** The `q`-th dependency of the `j`-th object is on `i`. */
  predicate DependsOn(w: World, j: nat, q: nat, i: Interface) {
    j < |w.heap| && q < |w.heap[j].deps| && q < |w.heap[j].args| && w.heap[j].deps[q] == i
  }

  /** A request-scoped interface is built at most once per request. */
  lemma RequestObjectsAreBuiltOnce(rank: Interface -> nat, p: Process, steps: seq<Step>, c: nat, j: nat, k: nat)
    requires Fresh(rank, p) && forall s :: s in steps ==> StepOk(rank, s)
    requires var w := Run(rank, p, steps).world;
             && j < |w.heap| && k < |w.heap| && w.heap[j].interface == w.heap[k].interface
             && w.heap[j].ctx == Some(c) && w.heap[k].ctx == Some(c)
             && ScopeOf(w, w.heap[j].interface) == Request && (c, w.heap[j].interface) !in w.put
    ensures j == k
  {
    RunIsSound(rank, p, steps);
    var w := Run(rank, p, steps).world;
    assert ObjectOk(w, j) && ObjectOk(w, k);
  }

  /** Objects of one request that depend on the same request-scoped interface hold the same object. */
  lemma RequestObjectsAreShared(
      rank: Interface -> nat, p: Process, steps: seq<Step>, c: nat, i: Interface, j: nat, q: nat, k: nat, r: nat)
    requires Fresh(rank, p) && forall s :: s in steps ==> StepOk(rank, s)
    requires var w := Run(rank, p, steps).world;
             && DependsOn(w, j, q, i) && DependsOn(w, k, r, i)
             && w.heap[j].ctx == Some(c) && w.heap[k].ctx == Some(c)
             && ScopeOf(w, i) == Request && (c, i) !in w.put
    ensures var w := Run(rank, p, steps).world;
            w.heap[j].args[q] == w.heap[k].args[r]
  {
    RunIsSound(rank, p, steps);
    var w := Run(rank, p, steps).world;
    assert ObjectOk(w, j) && ObjectOk(w, k);
    assert Answer(w, Some(c), i, w.heap[j].args[q]);
    assert Answer(w, Some(c), i, w.heap[k].args[r]);
  }

  // ----- outside any request -----

  function Unscoped(s: Scope): (r: Scope)
    ensures r != Request && (s != Request ==> r == s)
  {
    if s == Request then Transient else s
  }

  /** The same registrations with every request scope read as transient. */
  function Untied(w: World): World {
    w.(bindings := map i | i in w.bindings :: w.bindings[i].(scope := Unscoped(w.bindings[i].scope)),
       classes := map i | i in w.classes ::
         Class(w.classes[i].deps,
               if w.classes[i].declared.Some? then Some(Unscoped(w.classes[i].declared.value)) else None))
  }

  lemma UntiedBinding(w: World, i: Interface)
    ensures BindingOf(Untied(w), i) ==
            (match BindingOf(w, i)
             case None => None
             case Some(b) => Some(b.(scope := Unscoped(b.scope))))
    ensures BindingOf(w, i).Some? ==> Bound(Untied(w), i) == Untied(Bound(w, i))
  {
  }

  /** With no request open, request scope behaves as transient scope. */
  lemma {:induction false} RequestScopeOutsideRequestsIsTransient(rank: Interface -> nat, w: World, i: Interface)
    requires Acyclic(rank, w)
    ensures Acyclic(rank, Untied(w))
    ensures var (w', r) := Resolve(rank, w, None, i);
            Resolve(rank, Untied(w), None, i) == (Untied(w'), r)
    decreases rank(i), 2, 0
  {
    UntiedBinding(w, i);
    var b := BindingOf(w, i);
    if b.Some? {
      var memory := Remembered(w, None, i, b.value.scope);
      UntiedProvide(rank, Bound(w, i), i, memory.GetOr(b.value.provider));
      var (w', r) := Provide(rank, Bound(w, i), None, i, memory.GetOr(b.value.provider));
      assert Remembered(Untied(w), None, i, Unscoped(b.value.scope)) == memory;
      if r.Some? {
        assert Keep(Untied(w'), None, i, Unscoped(b.value.scope), r.value) ==
          Untied(Keep(w', None, i, b.value.scope, r.value));
      }
    }
  }

  lemma {:induction false} UntiedProvide(rank: Interface -> nat, w: World, i: Interface, p: Provider)
    requires Acyclic(rank, w) && Below(rank, i, p)
    ensures Acyclic(rank, Untied(w))
    ensures var (w', r) := Provide(rank, w, None, i, p);
            Provide(rank, Untied(w), None, i, p) == (Untied(w'), r)
    decreases rank(i), 1, 0
  {
    if p.Build? {
      UntiedResolveAll(rank, w, p.deps, rank(i));
    }
  }

  lemma {:induction false} UntiedResolveAll(rank: Interface -> nat, w: World, deps: seq<Interface>, top: nat)
    requires Acyclic(rank, w) && forall d :: d in deps ==> rank(d) < top
    ensures Acyclic(rank, Untied(w))
    ensures var (w', args) := ResolveAll(rank, w, None, deps, top);
            ResolveAll(rank, Untied(w), None, deps, top) == (Untied(w'), args)
    decreases top, 0, |deps|
  {
    if deps != [] {
      RequestScopeOutsideRequestsIsTransient(rank, w, deps[0]);
      var (w1, first) := Resolve(rank, w, None, deps[0]);
      if first.Some? {
        UntiedResolveAll(rank, w1, deps[1..], top);
      }
    }
  }

  // ----- objects shared between requests -----

  /** From object `j` one comes to object `k` by following dependencies. */
  ghost predicate Reaches(w: World, j: nat, k: nat)
    requires j < |w.heap|
    decreases j
  {
    j == k || exists q :: 0 <= q < |w.heap[j].args| && w.heap[j].args[q].Made? &&
                          w.heap[j].args[q].index < j && Reaches(w, w.heap[j].args[q].index, k)
  }

  /** Neither `i` nor anything it is built from is request-scoped. */
  ghost predicate RequestFree(rank: Interface -> nat, w: World, i: Interface)
    requires Acyclic(rank, w)
    decreases rank(i)
  {
    match BindingOf(w, i)
    case None => true
    case Some(b) =>
      && b.scope != Request
      && (b.provider.Build? ==> forall d :: d in b.provider.deps ==> RequestFree(rank, w, d))
  }

  /**
   In some request, resolving `i` can succeed: nothing it is built from is left without a binding.
   What is request-scoped may also be handed over by the application.
   */
  ghost predicate Obtainable(rank: Interface -> nat, w: World, i: Interface)
    requires Acyclic(rank, w)
    decreases rank(i)
  {
    match BindingOf(w, i)
    case None => false
    case Some(b) =>
      b.scope == Request || b.provider.Instance? || forall d :: d in b.provider.deps ==> Obtainable(rank, w, d)
  }

  ghost predicate Captures(rank: Interface -> nat, w: World, i: Interface)
    requires Acyclic(rank, w)
  {
    ScopeOf(w, i) == Singleton && Obtainable(rank, w, i) && !RequestFree(rank, w, i)
  }

  /** No singleton that can be obtained is built, directly or not, from something request-scoped. */
  ghost predicate NoCapture(rank: Interface -> nat, w: World)
    requires Acyclic(rank, w)
  {
    forall i :: !Captures(rank, w, i)
  }

  /** What a task gets in its request is made of that request's own request-scoped objects. */
  ghost predicate Isolated(rank: Interface -> nat, p: Process)
    requires Ready(rank, p)
  {
    forall t: int, i: Interface, j: nat, k: nat ::
      t in p.current && Yields(rank, p, t, i, j) && Meets(rank, p, t, i, j, k) ==>
        Resolve(rank, p.world, Ctx(p, t), i).0.heap[k].ctx == Ctx(p, t)
  }

  /** Resolving `i` in task `t` now answers with object `j`. */
  ghost predicate Yields(rank: Interface -> nat, p: Process, t: int, i: Interface, j: nat)
    requires Ready(rank, p)
  {
    Resolve(rank, p.world, Ctx(p, t), i).1 == Some(Made(j))
  }

  /** ... and object `j` leads to the request-scoped object `k`. */
  ghost predicate Meets(rank: Interface -> nat, p: Process, t: int, i: Interface, j: nat, k: nat)
    requires Ready(rank, p)
  {
    var w := Resolve(rank, p.world, Ctx(p, t), i).0;
    j < |w.heap| && k < |w.heap| && ScopeOf(w, w.heap[k].interface) == Request && Reaches(w, j, k)
  }

  /** Resolution and run steps leave every effective binding as it was. */
  ghost predicate SameBindings(w: World, w': World) {
    forall i :: BindingOf(w', i) == BindingOf(w, i)
  }

  lemma {:induction false} RunKeepsBindings(rank: Interface -> nat, p: Process, steps: seq<Step>)
    requires Ready(rank, p) && forall s :: s in steps ==> StepOk(rank, s)
    ensures SameBindings(p.world, Run(rank, p, steps).world)
    decreases |steps|
  {
    if steps != [] {
      var p' := After(rank, p, steps[0]);
      if steps[0].Get? {
        ResolveExtends(rank, p.world, Ctx(p, steps[0].task), steps[0].i);
      }
      assert SameBindings(p.world, p'.world);
      RunKeepsBindings(rank, p', steps[1..]);
    }
  }

  lemma {:induction false} CaptureDependsOnBindings(rank: Interface -> nat, w: World, w': World, i: Interface)
    requires Acyclic(rank, w) && Acyclic(rank, w') && SameBindings(w, w')
    ensures RequestFree(rank, w, i) == RequestFree(rank, w', i)
    ensures Obtainable(rank, w, i) == Obtainable(rank, w', i)
    decreases rank(i)
  {
    assert BindingOf(w', i) == BindingOf(w, i);
    match BindingOf(w, i)
    case None =>
    case Some(b) =>
      if b.provider.Build? {
        forall d | d in b.provider.deps
          ensures RequestFree(rank, w, d) == RequestFree(rank, w', d)
          ensures Obtainable(rank, w, d) == Obtainable(rank, w', d)
        {
          CaptureDependsOnBindings(rank, w, w', d);
        }
      }
  }

  /** What was built can be obtained. */
  lemma {:induction false} ObjectsAreObtainable(rank: Interface -> nat, w: World, j: nat)
    requires Acyclic(rank, w) && Sound(w) && j < |w.heap|
    ensures Obtainable(rank, w, w.heap[j].interface)
    decreases j
  {
    assert ObjectOk(w, j);
    var o := w.heap[j];
    forall d | d in o.deps
      ensures Obtainable(rank, w, d)
    {
      var q :| 0 <= q < |o.deps| && o.deps[q] == d;
      assert Answer(w, o.ctx, d, o.args[q]);
      if o.args[q].Made? {
        ObjectsAreObtainable(rank, w, o.args[q].index);
      }
    }
  }

  /** From an object of a request-free interface only objects of such interfaces are reached. */
  lemma {:induction false} FreeReachesFree(rank: Interface -> nat, w: World, j: nat, k: nat)
    requires Acyclic(rank, w) && Sound(w) && j < |w.heap|
    requires RequestFree(rank, w, w.heap[j].interface) && Reaches(w, j, k)
    ensures k < |w.heap| && RequestFree(rank, w, w.heap[k].interface)
    decreases j
  {
    assert ObjectOk(w, j);
    var o := w.heap[j];
    if j != k {
      var q :| 0 <= q < |o.args| && o.args[q].Made? && o.args[q].index < j && Reaches(w, o.args[q].index, k);
      assert Answer(w, o.ctx, o.deps[q], o.args[q]);
      assert o.deps[q] in o.deps;
      FreeReachesFree(rank, w, o.args[q].index, k);
    }
  }

  /**
   When no singleton captures, objects that are request-scoped or built from something that is are only
   reached from their own request.
   */
  lemma {:induction false} ReachStaysInRequest(rank: Interface -> nat, w: World, j: nat, k: nat)
    requires Acyclic(rank, w) && Sound(w) && NoCapture(rank, w) && j < |w.heap|
    requires Reaches(w, j, k) && k < |w.heap| && !RequestFree(rank, w, w.heap[k].interface)
    ensures w.heap[k].ctx == w.heap[j].ctx
    decreases j
  {
    assert ObjectOk(w, j);
    var o := w.heap[j];
    if j != k {
      var q :| 0 <= q < |o.args| && o.args[q].Made? && o.args[q].index < j && Reaches(w, o.args[q].index, k);
      assert Answer(w, o.ctx, o.deps[q], o.args[q]);
      if ScopeOf(w, o.deps[q]) == Singleton {
        ObjectsAreObtainable(rank, w, o.args[q].index);
        assert !Captures(rank, w, o.deps[q]);
        FreeReachesFree(rank, w, o.args[q].index, k);
      } else {
        ReachStaysInRequest(rank, w, o.args[q].index, k);
      }
    }
  }

  /** ... nor are they reached from an answer of another request. */
  lemma AnswerStaysInRequest(rank: Interface -> nat, w: World, ctx: Option<nat>, i: Interface, j: nat, k: nat)
    requires Acyclic(rank, w) && Sound(w) && NoCapture(rank, w) && Answer(w, ctx, i, Made(j))
    requires Reaches(w, j, k) && k < |w.heap| && !RequestFree(rank, w, w.heap[k].interface)
    ensures w.heap[k].ctx == ctx
  {
    if ScopeOf(w, i) == Singleton {
      ObjectsAreObtainable(rank, w, j);
      assert !Captures(rank, w, i);
      FreeReachesFree(rank, w, j, k);
    } else {
      ReachStaysInRequest(rank, w, j, k);
    }
  }

  lemma NoCaptureStays(rank: Interface -> nat, w: World, w': World)
    requires Acyclic(rank, w) && Acyclic(rank, w') && SameBindings(w, w') && NoCapture(rank, w)
    ensures NoCapture(rank, w')
  {
    forall d
      ensures !Captures(rank, w', d)
    {
      assert BindingOf(w', d) == BindingOf(w, d);
      assert !Captures(rank, w, d);
      CaptureDependsOnBindings(rank, w, w', d);
    }
  }

  /** When no singleton captures, every run keeps requests apart. */
  lemma RunsAreIsolated(rank: Interface -> nat, p: Process, steps: seq<Step>)
    requires Fresh(rank, p) && NoCapture(rank, p.world)
    requires forall s :: s in steps ==> StepOk(rank, s)
    ensures Isolated(rank, Run(rank, p, steps))
  {
    RunIsSound(rank, p, steps);
    RunKeepsBindings(rank, p, steps);
    var p' := Run(rank, p, steps);
    forall t: int, i: Interface, j: nat, k: nat |
      t in p'.current && Yields(rank, p', t, i, j) && Meets(rank, p', t, i, j, k)
      ensures Resolve(rank, p'.world, Ctx(p', t), i).0.heap[k].ctx == Ctx(p', t)
    {
      ResolveIsSound(rank, p'.world, Ctx(p', t), i);
      ResolveExtends(rank, p'.world, Ctx(p', t), i);
      var w := Resolve(rank, p'.world, Ctx(p', t), i).0;
      assert forall d :: BindingOf(w, d) == BindingOf(p'.world, d) == BindingOf(p.world, d);
      NoCaptureStays(rank, p.world, w);
      AnswerStaysInRequest(rank, w, Ctx(p', t), i, j, k);
    }
  }

  // ----- and otherwise some run mixes them -----

  /** The request-scoped interfaces that `i` is built from, looking no further than these. */
  ghost function RequestDeps(rank: Interface -> nat, w: World, i: Interface): seq<Interface>
    requires Acyclic(rank, w)
    decreases rank(i), 1, 0
  {
    match BindingOf(w, i)
    case None => []
    case Some(b) =>
      if b.scope == Request then [i]
      else if b.provider.Instance? then []
      else AllRequestDeps(rank, w, b.provider.deps, rank(i))
  }

  ghost function AllRequestDeps(rank: Interface -> nat, w: World, deps: seq<Interface>, top: nat): seq<Interface>
    requires Acyclic(rank, w) && forall d :: d in deps ==> rank(d) < top
    decreases top, 0, |deps|
  {
    if deps == [] then [] else RequestDeps(rank, w, deps[0]) + AllRequestDeps(rank, w, deps[1..], top)
  }

  /** The application has handed request `c` a provider of `i` that needs nothing. */
  predicate Supplied(w: World, c: nat, i: Interface) {
    c < |w.contexts| && i in w.contexts[c] && w.contexts[c][i] == Build([])
  }

  ghost predicate AllSupplied(w: World, c: nat, needed: seq<Interface>) {
    forall r :: r in needed ==> Supplied(w, c, r)
  }

  /** From object `j` one comes to `k`, a request-scoped object of request `c`. */
  ghost predicate LeadsTo(w0: World, w: World, c: nat, j: nat, k: nat)
    requires j < |w.heap|
  {
    k < |w.heap| && ScopeOf(w0, w.heap[k].interface) == Request && w.heap[k].ctx == Some(c) && Reaches(w, j, k)
  }

  ghost predicate Leaks(w0: World, w: World, c: nat, r: Ref) {
    r.Made? && r.index < |w.heap| && exists k: nat :: LeadsTo(w0, w, c, r.index, k)
  }

  /** Every singleton kept so far that is not request-free holds an object of request `c`. */
  ghost predicate Leaky(rank: Interface -> nat, w0: World, w: World, c: nat)
    requires Acyclic(rank, w0)
  {
    forall i :: i in w.singletons && !RequestFree(rank, w0, i) ==> Leaks(w0, w, c, w.singletons[i])
  }

  lemma {:induction false} PrefixSameReach(w: World, w': World, j: nat, k: nat)
    requires w.heap <= w'.heap && j < |w.heap| && Reaches(w, j, k)
    ensures Reaches(w', j, k)
    decreases j
  {
    if j != k {
      var o := w.heap[j];
      assert w'.heap[j] == o;
      var q :| 0 <= q < |o.args| && o.args[q].Made? && o.args[q].index < j && Reaches(w, o.args[q].index, k);
      PrefixSameReach(w, w', o.args[q].index, k);
    }
  }

  lemma LeaksStays(w0: World, w: World, w': World, c: nat, r: Ref)
    requires w.heap <= w'.heap && Leaks(w0, w, c, r)
    ensures Leaks(w0, w', c, r)
  {
    var k: nat :| LeadsTo(w0, w, c, r.index, k);
    PrefixSameReach(w, w', r.index, k);
    assert LeadsTo(w0, w', c, r.index, k);
  }

  lemma LeakyStays(rank: Interface -> nat, w0: World, w: World, w': World, c: nat)
    requires Acyclic(rank, w0) && Leaky(rank, w0, w, c)
    requires w.heap <= w'.heap && w'.singletons == w.singletons
    ensures Leaky(rank, w0, w', c)
  {
    forall i | i in w'.singletons && !RequestFree(rank, w0, i)
      ensures Leaks(w0, w', c, w'.singletons[i])
    {
      LeaksStays(w0, w, w', c, w.singletons[i]);
    }
  }

  /** A new request-scoped object leads to itself. */
  lemma RequestObjectLeaks(w0: World, w: World, c: nat, j: nat)
    requires j < |w.heap| && ScopeOf(w0, w.heap[j].interface) == Request && w.heap[j].ctx == Some(c)
    ensures Leaks(w0, w, c, Made(j))
  {
    assert LeadsTo(w0, w, c, j, j);
  }

  /** An object that holds one that leaks does so too. */
  lemma HolderLeaks(w0: World, w: World, c: nat, j: nat, q: nat)
    requires j < |w.heap| && q < |w.heap[j].args| && Leaks(w0, w, c, w.heap[j].args[q])
    requires w.heap[j].args[q].index < j
    ensures Leaks(w0, w, c, Made(j))
  {
    var k: nat :| LeadsTo(w0, w, c, w.heap[j].args[q].index, k);
    assert LeadsTo(w0, w, c, j, k);
  }

  lemma AllSuppliedStays(rank: Interface -> nat, w: World, w': World, c: nat, needed: seq<Interface>, top: nat)
    requires AllSupplied(w, c, needed) && Extends(rank, w, w', Some(c), top)
    ensures AllSupplied(w', c, needed)
  {
  }

  /** Resolving `i` has succeeded, with an object that leaks if `i` captures, and kept if `i` is a singleton. */
  ghost predicate Delivers(rank: Interface -> nat, w0: World, w: World, c: nat, i: Interface, r: Option<Ref>)
    requires Acyclic(rank, w0)
  {
    && r.Some? && Leaky(rank, w0, w, c)
    && (!RequestFree(rank, w0, i) ==> Leaks(w0, w, c, r.value))
    && (ScopeOf(w0, i) == Singleton ==> i in w.singletons && w.singletons[i] == r.value)
  }

  /** With what it needs supplied in request `c`, an obtainable interface resolves there, and what captures leaks. */
  lemma {:induction false} ObtainableResolves(rank: Interface -> nat, w0: World, w: World, c: nat, i: Interface)
    requires Acyclic(rank, w0) && Acyclic(rank, w) && c < |w.contexts| && SameBindings(w0, w)
    requires Obtainable(rank, w0, i) && AllSupplied(w, c, RequestDeps(rank, w0, i)) && Leaky(rank, w0, w, c)
    ensures var (w', r) := Resolve(rank, w, Some(c), i); Delivers(rank, w0, w', c, i, r)
    decreases rank(i), 2, 0
  {
    assert BindingOf(w, i) == BindingOf(w0, i);
    var b, w1 := BindingOf(w, i).value, Bound(w, i);
    if b.scope == Request {
      assert Supplied(w, c, i);
      SuppliedIsBuilt(rank, w0, w, c, i);
    } else if b.scope == Singleton && i in w.singletons {
      RecalledDelivers(rank, w0, w, c, i);
    } else if b.provider.Instance? {
      InstanceDelivers(rank, w0, w, c, i);
    } else {
      LeakyStays(rank, w0, w, w1, c);
      BoundExtends(rank, w, i, Some(c));
      assert SameBindings(w0, w1);
      BuildingDelivers(rank, w0, w1, c, i);
      ResolveAfterBinding(rank, w, Some(c), i);
    }
  }

  lemma RecalledDelivers(rank: Interface -> nat, w0: World, w: World, c: nat, i: Interface)
    requires Acyclic(rank, w0) && Acyclic(rank, w) && c < |w.contexts| && BindingOf(w, i) == BindingOf(w0, i)
    requires ScopeOf(w0, i) == Singleton && i in w.singletons && Leaky(rank, w0, w, c)
    ensures var (w', r) := Resolve(rank, w, Some(c), i); Delivers(rank, w0, w', c, i, r)
  {
    assert BindingOf(w, i).Some? && BindingOf(w, i).value.scope == Singleton;
    assert Remembered(w, Some(c), i, Singleton) == Some(Instance(w.singletons[i]));
    assert Resolve(rank, w, Some(c), i) == (Bound(w, i), Some(w.singletons[i]));
    LeakyStays(rank, w0, w, Bound(w, i), c);
  }

  lemma InstanceDelivers(rank: Interface -> nat, w0: World, w: World, c: nat, i: Interface)
    requires Acyclic(rank, w0) && Acyclic(rank, w) && c < |w.contexts| && BindingOf(w, i) == BindingOf(w0, i)
    requires ScopeOf(w0, i) != Request && Leaky(rank, w0, w, c)
    requires BindingOf(w, i).Some? && BindingOf(w, i).value.provider.Instance?
    requires ScopeOf(w0, i) == Singleton ==> i !in w.singletons
    ensures var (w', r) := Resolve(rank, w, Some(c), i); Delivers(rank, w0, w', c, i, r)
  {
    var b := BindingOf(w, i).value;
    var w' := Keep(Bound(w, i), Some(c), i, b.scope, b.provider.obj);
    assert Resolve(rank, w, Some(c), i) == (w', Some(b.provider.obj));
    forall s | s in w'.singletons && !RequestFree(rank, w0, s)
      ensures Leaks(w0, w', c, w'.singletons[s])
    {
      LeaksStays(w0, w, w', c, w.singletons[s]);
    }
  }

  lemma SuppliedIsBuilt(rank: Interface -> nat, w0: World, w: World, c: nat, i: Interface)
    requires Acyclic(rank, w0) && Acyclic(rank, w) && c < |w.contexts| && BindingOf(w, i) == BindingOf(w0, i)
    requires ScopeOf(w0, i) == Request && Supplied(w, c, i) && Leaky(rank, w0, w, c)
    ensures var (w', r) := Resolve(rank, w, Some(c), i); Delivers(rank, w0, w', c, i, r)
  {
    var w' := Bound(w, i).(heap := w.heap + [Object(i, [], [], Some(c))]);
    assert BindingOf(w, i).Some? && BindingOf(w, i).value.scope == Request;
    assert Remembered(w, Some(c), i, Request) == Some(Build([]));
    assert ResolveAll(rank, Bound(w, i), Some(c), [], rank(i)) == (Bound(w, i), Some([]));
    assert Provide(rank, Bound(w, i), Some(c), i, Build([])) == (w', Some(Made(|w.heap|)));
    assert Resolve(rank, w, Some(c), i) == (w', Some(Made(|w.heap|)));
    LeakyStays(rank, w0, w, w', c);
    RequestObjectLeaks(w0, w', c, |w.heap|);
  }

  /** The case of an object that is built from its dependencies. */
  lemma {:induction false} BuildingDelivers(rank: Interface -> nat, w0: World, w: World, c: nat, i: Interface)
    requires Acyclic(rank, w0) && Acyclic(rank, w) && c < |w.contexts| && SameBindings(w0, w)
    requires Obtainable(rank, w0, i) && AllSupplied(w, c, RequestDeps(rank, w0, i)) && Leaky(rank, w0, w, c)
    requires i in w.bindings && w.bindings[i].scope != Request && w.bindings[i].provider.Build?
    requires Remembered(w, Some(c), i, w.bindings[i].scope).None?
    ensures var (w', r) := Resolve(rank, w, Some(c), i); Delivers(rank, w0, w', c, i, r)
    decreases rank(i), 1, 0
  {
    assert BindingOf(w, i) == BindingOf(w0, i) == Some(w.bindings[i]);
    assert w.bindings[i := w.bindings[i]] == w.bindings;
    var deps := w.bindings[i].provider.deps;
    AllObtainableResolve(rank, w0, w, c, deps, rank(i));
    var (w1, args) := ResolveAll(rank, w, Some(c), deps, rank(i));
    BuiltLeaks(rank, w0, w1, c, i, deps, args.value);
  }

  /** A new object leaks when one of its dependencies is not request-free. */
  lemma NewObjectLeaks(rank: Interface -> nat, w0: World, w: World, w': World, c: nat, o: Object)
    requires Acyclic(rank, w0) && w'.heap == w.heap + [o] && |o.args| == |o.deps|
    requires BindingOf(w0, o.interface).Some? && BindingOf(w0, o.interface).value.provider == Build(o.deps)
    requires BindingOf(w0, o.interface).value.scope != Request && !RequestFree(rank, w0, o.interface)
    requires forall q :: 0 <= q < |o.deps| && !RequestFree(rank, w0, o.deps[q]) ==> Leaks(w0, w, c, o.args[q])
    ensures Leaks(w0, w', c, Made(|w.heap|))
  {
    var d :| d in o.deps && !RequestFree(rank, w0, d);
    var q :| 0 <= q < |o.deps| && o.deps[q] == d;
    LeaksStays(w0, w, w', c, o.args[q]);
    HolderLeaks(w0, w', c, |w.heap|, q);
  }

  /** One more singleton that leaks if it captures. */
  lemma KeepStaysLeaky(rank: Interface -> nat, w0: World, w: World, w': World, c: nat, i: Interface, r: Ref)
    requires Acyclic(rank, w0) && Leaky(rank, w0, w, c) && w.heap <= w'.heap
    requires w'.singletons == w.singletons || w'.singletons == w.singletons[i := r]
    requires !RequestFree(rank, w0, i) ==> Leaks(w0, w', c, r)
    ensures Leaky(rank, w0, w', c)
  {
    forall s | s in w'.singletons && !RequestFree(rank, w0, s)
      ensures Leaks(w0, w', c, w'.singletons[s])
    {
      if s in w.singletons && w'.singletons[s] == w.singletons[s] {
        LeaksStays(w0, w, w', c, w.singletons[s]);
      }
    }
  }

  lemma BuiltLeaks(
      rank: Interface -> nat, w0: World, w: World, c: nat, i: Interface, deps: seq<Interface>, args: seq<Ref>)
    requires Acyclic(rank, w0) && c < |w.contexts| && Leaky(rank, w0, w, c) && |args| == |deps|
    requires BindingOf(w0, i).Some? && BindingOf(w0, i).value.provider == Build(deps)
    requires BindingOf(w0, i).value.scope != Request
    requires forall q :: 0 <= q < |deps| && !RequestFree(rank, w0, deps[q]) ==> Leaks(w0, w, c, args[q])
    ensures var w' := w.(heap := w.heap + [Object(i, deps, args, Some(c))]);
            var kept := Keep(w', Some(c), i, BindingOf(w0, i).value.scope, Made(|w.heap|));
            && Leaky(rank, w0, kept, c)
            && (!RequestFree(rank, w0, i) ==> Leaks(w0, kept, c, Made(|w.heap|)))
  {
    var w' := w.(heap := w.heap + [Object(i, deps, args, Some(c))]);
    var kept := Keep(w', Some(c), i, BindingOf(w0, i).value.scope, Made(|w.heap|));
    if !RequestFree(rank, w0, i) {
      NewObjectLeaks(rank, w0, w, kept, c, Object(i, deps, args, Some(c)));
    }
    KeepStaysLeaky(rank, w0, w, kept, c, i, Made(|w.heap|));
  }

  lemma {:induction false} AllObtainableResolve(
    rank: Interface -> nat, w0: World, w: World, c: nat, deps: seq<Interface>, top: nat)
    requires Acyclic(rank, w0) && Acyclic(rank, w) && c < |w.contexts| && SameBindings(w0, w)
    requires forall d :: d in deps ==> rank(d) < top && Obtainable(rank, w0, d)
    requires AllSupplied(w, c, AllRequestDeps(rank, w0, deps, top)) && Leaky(rank, w0, w, c)
    ensures var (w', args) := ResolveAll(rank, w, Some(c), deps, top);
            && args.Some? && Leaky(rank, w0, w', c)
            && forall q :: 0 <= q < |deps| && !RequestFree(rank, w0, deps[q]) ==> Leaks(w0, w', c, args.value[q])
    decreases top, 0, |deps|
  {
    if deps != [] {
      ObtainableResolves(rank, w0, w, c, deps[0]);
      var (w1, first) := Resolve(rank, w, Some(c), deps[0]);
      ResolveExtends(rank, w, Some(c), deps[0]);
      AllSuppliedStays(rank, w, w1, c, AllRequestDeps(rank, w0, deps[1..], top), rank(deps[0]) + 1);
      assert forall k :: BindingOf(w1, k) == BindingOf(w, k) == BindingOf(w0, k);
      AllObtainableResolve(rank, w0, w1, c, deps[1..], top);
      ResolveAllExtends(rank, w1, Some(c), deps[1..], top);
      var (w2, rest) := ResolveAll(rank, w1, Some(c), deps[1..], top);
      LeaksJoin(rank, w0, w1, w2, c, deps, first.value, rest.value);
    }
  }

  lemma LeaksJoin(
      rank: Interface -> nat, w0: World, w1: World, w2: World, c: nat, deps: seq<Interface>, first: Ref, rest: seq<Ref>)
    requires Acyclic(rank, w0) && w1.heap <= w2.heap && |deps| == |rest| + 1
    requires !RequestFree(rank, w0, deps[0]) ==> Leaks(w0, w1, c, first)
    requires forall q :: 0 <= q < |rest| && !RequestFree(rank, w0, deps[1..][q]) ==> Leaks(w0, w2, c, rest[q])
    ensures forall q :: 0 <= q < |deps| && !RequestFree(rank, w0, deps[q]) ==> Leaks(w0, w2, c, ([first] + rest)[q])
  {
    forall q | 0 <= q < |deps| && !RequestFree(rank, w0, deps[q])
      ensures Leaks(w0, w2, c, ([first] + rest)[q])
    {
      if q == 0 {
        LeaksStays(w0, w1, w2, c, first);
      } else {
        assert deps[q] == deps[1..][q - 1];
      }
    }
  }

  // ----- the run that mixes them -----

  function Hands(needed: seq<Interface>): (steps: seq<Step>)
    ensures |steps| == |needed| && forall k :: 0 <= k < |needed| ==> steps[k] == Hand(0, needed[k], Factory([]))
  {
    seq(|needed|, k requires 0 <= k < |needed| => Hand(0, needed[k], Factory([])))
  }

  /** A first request with all it needs resolves the capturing singleton `i`; a second one follows. */
  function TwoRequests(needed: seq<Interface>, i: Interface): (steps: seq<Step>)
    ensures forall rank: Interface -> nat, s :: s in steps ==> StepOk(rank, s)
  {
    [Open(0)] + (Hands(needed) + [Get(0, i), Close(0), Open(0)])
  }

  /** Request 0 is open in task 0 and nothing has been resolved in it. */
  ghost predicate Opened(w0: World, p: Process) {
    && p.current == map[0 := 0] && |p.world.contexts| == 1
    && p.world.singletons == map[] && SameBindings(w0, p.world)
  }

  lemma {:induction false} HandsSupply(rank: Interface -> nat, w0: World, p: Process, needed: seq<Interface>)
    requires Ready(rank, p) && Opened(w0, p)
    ensures var p' := Run(rank, p, Hands(needed));
            && Opened(w0, p') && AllSupplied(p'.world, 0, needed)
            && forall r :: Supplied(p.world, 0, r) ==> Supplied(p'.world, 0, r)
    decreases |needed|
  {
    if needed != [] {
      var p1 := After(rank, p, Hand(0, needed[0], Factory([])));
      assert forall k :: BindingOf(p1.world, k) == BindingOf(p.world, k);
      assert Supplied(p1.world, 0, needed[0]);
      assert Hands(needed)[0] == Hand(0, needed[0], Factory([])) && Hands(needed)[1..] == Hands(needed[1..]);
      HandsSupply(rank, w0, p1, needed[1..]);
    }
  }

  lemma {:induction false} RunAppend(rank: Interface -> nat, p: Process, a: seq<Step>, b: seq<Step>)
    requires Ready(rank, p) && (forall s :: s in a ==> StepOk(rank, s)) && forall s :: s in b ==> StepOk(rank, s)
    ensures Run(rank, p, a + b) == Run(rank, Run(rank, p, a), b)
    decreases |a|
  {
    if a == [] {
      assert a + b == b;
    } else {
      assert (a + b)[1..] == a[1..] + b;
      RunAppend(rank, After(rank, p, a[0]), a[1..], b);
    }
  }

  lemma RunLast(rank: Interface -> nat, p: Process, i: Interface)
    requires Ready(rank, p)
    ensures Run(rank, p, [Get(0, i), Close(0), Open(0)]) ==
            After(rank, After(rank, After(rank, p, Get(0, i)), Close(0)), Open(0))
  {
    var p1 := After(rank, p, Get(0, i));
    assert [Get(0, i), Close(0), Open(0)][1..] == [Close(0), Open(0)];
    assert [Close(0), Open(0)][1..] == [Open(0)] && [Open(0)][1..] == [];
    assert Run(rank, p, [Get(0, i), Close(0), Open(0)]) == Run(rank, p1, [Close(0), Open(0)]);
    assert Run(rank, p1, [Close(0), Open(0)]) == Run(rank, After(rank, p1, Close(0)), [Open(0)]);
  }

  /** A singleton that captures carries the first request's object into the second. */
  lemma CapturedObjectsLeak(rank: Interface -> nat, p: Process, i: Interface)
    requires Fresh(rank, p) && Captures(rank, p.world, i)
    ensures !Isolated(rank, Run(rank, p, TwoRequests(RequestDeps(rank, p.world, i), i)))
  {
    var needed := RequestDeps(rank, p.world, i);
    var p1 := After(rank, p, Open(0));
    assert forall k :: BindingOf(p1.world, k) == BindingOf(p.world, k);
    HandsSupply(rank, p.world, p1, needed);
    var p2 := Run(rank, p1, Hands(needed));
    RunAppend(rank, p, [Open(0)], Hands(needed) + [Get(0, i), Close(0), Open(0)]);
    assert [Open(0)][1..] == [] && Run(rank, p, [Open(0)]) == p1;
    RunAppend(rank, p1, Hands(needed), [Get(0, i), Close(0), Open(0)]);
    RunLast(rank, p2, i);
    ObtainableResolves(rank, p.world, p2.world, 0, i);
    var (w3, r) := Resolve(rank, p2.world, Some(0), i);
    ThenAnother(rank, p.world, p2, i, w3);
    SecondRequestSeesIt(rank, p.world, Process(w3.(contexts := w3.contexts + [map[]]), map[0 := 1]), w3, i, r.value);
  }

  lemma ThenAnother(rank: Interface -> nat, w0: World, p: Process, i: Interface, w: World)
    requires Ready(rank, p) && Opened(w0, p) && w == Resolve(rank, p.world, Some(0), i).0
    ensures After(rank, After(rank, After(rank, p, Get(0, i)), Close(0)), Open(0)) ==
            Process(w.(contexts := w.contexts + [map[]]), map[0 := 1])
    ensures SameBindings(w0, w)
  {
    ResolveExtends(rank, p.world, Some(0), i);
    assert forall k :: BindingOf(w, k) == BindingOf(p.world, k) == BindingOf(w0, k);
    assert Ctx(p, 0) == Some(0);
    var p1 := After(rank, p, Get(0, i));
    assert p1 == Process(w, map[0 := 0]);
    var p2 := After(rank, p1, Close(0));
    assert p2 == Process(w, map[]);
  }

  /** After the first request has resolved `i`, the second meets an object of its making. */
  lemma SecondRequestSeesIt(rank: Interface -> nat, w0: World, p: Process, w: World, i: Interface, r: Ref)
    requires Ready(rank, p) && p == Process(w.(contexts := w.contexts + [map[]]), map[0 := 1]) && SameBindings(w0, w)
    requires ScopeOf(w0, i) == Singleton && Leaks(w0, w, 0, r) && i in w.singletons && w.singletons[i] == r
    ensures !Isolated(rank, p)
  {
    var k: nat :| LeadsTo(w0, w, 0, r.index, k);
    assert BindingOf(w, i) == BindingOf(w0, i);
    assert BindingOf(w, w.heap[k].interface) == BindingOf(w0, w.heap[k].interface);
    LaterRequestMeetsIt(rank, p, w, i, r.index, k);
  }

  /** In request 1, resolving `i` answers with an object of request 0's making. */
  lemma LaterRequestMeetsIt(rank: Interface -> nat, p: Process, w2: World, i: Interface, j: nat, k: nat)
    requires Ready(rank, p) && p.current == map[0 := 1] && p.world == w2.(contexts := w2.contexts + [map[]])
    requires BindingOf(w2, i).Some? && ScopeOf(w2, i) == Singleton && i in w2.singletons && w2.singletons[i] == Made(j)
    requires j < |w2.heap| && k < |w2.heap| && Reaches(w2, j, k)
    requires ScopeOf(w2, w2.heap[k].interface) == Request && w2.heap[k].ctx == Some(0)
    ensures !Isolated(rank, p)
  {
    assert forall d :: BindingOf(p.world, d) == BindingOf(w2, d);
    SingletonAnswers(rank, p, i, j);
    var w := Resolve(rank, p.world, Ctx(p, 0), i).0;
    PrefixSameReach(w2, w, j, k);
    assert Yields(rank, p, 0, i, j) && Meets(rank, p, 0, i, j, k);
  }

  /** A singleton already built is answered from memory, whoever asks. */
  lemma SingletonAnswers(rank: Interface -> nat, p: Process, i: Interface, j: nat)
    requires Ready(rank, p) && 0 in p.current
    requires BindingOf(p.world, i).Some? && ScopeOf(p.world, i) == Singleton
    requires i in p.world.singletons && p.world.singletons[i] == Made(j)
    ensures Resolve(rank, p.world, Ctx(p, 0), i) == (Bound(p.world, i), Some(Made(j)))
    ensures forall k :: BindingOf(Bound(p.world, i), k) == BindingOf(p.world, k)
  {
  }

  /**
   Requests are kept apart in every run exactly when no singleton that can be obtained is
   built from something request-scoped.
   */
  lemma RequestsAreIsolatedIffNoSingletonCaptures(rank: Interface -> nat, p: Process)
    requires Fresh(rank, p)
    ensures NoCapture(rank, p.world) <==>
            forall steps :: (forall s :: s in steps ==> StepOk(rank, s)) ==> Isolated(rank, Run(rank, p, steps))
  {
    if NoCapture(rank, p.world) {
      forall steps | forall s :: s in steps ==> StepOk(rank, s)
        ensures Isolated(rank, Run(rank, p, steps))
      {
        RunsAreIsolated(rank, p, steps);
      }
    } else {
      var i :| Captures(rank, p.world, i);
      CapturedObjectsLeak(rank, p, i);
    }
  }
}
