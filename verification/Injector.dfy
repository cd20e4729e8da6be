/**
 How `EllarInjector` turns an interface into an object: find or create its
 binding, then ask the binding's scope, then build from resolved dependencies.
 */
module Injector {
  import opened Prelude

  type Interface = int

  datatype Scope = Singleton | Request | Transient

  /** An object the injector made, or one the application handed over. */
  datatype Ref = Made(index: nat) | Given(id: int)

  /** Class, module and callable providers build from dependencies; instance providers just answer. */
  datatype Provider = Build(deps: seq<Interface>) | Instance(obj: Ref)

  datatype Binding = Binding(provider: Provider, scope: Scope)

  /** What auto-binding reads off a class: constructor dependencies and its declared scope, if decorated. */
  datatype Class = Class(deps: seq<Interface>, declared: Option<Scope>)

  /** A built object: for which interface, from what, inside which request. */
  datatype Object = Object(interface: Interface, deps: seq<Interface>, args: seq<Ref>, ctx: Option<nat>)

  /** `put` records which context entries the application set itself; history only. */
  datatype World = World(
    classes: map<Interface, Class>, autoBind: bool,
    bindings: map<Interface, Binding>,
    singletons: map<Interface, Ref>,
    contexts: seq<map<Interface, Provider>>,
    heap: seq<Object>,
    put: set<(nat, Interface)>)

  // ----- bindings -----

  /** `get_binding`: what is registered, or what auto-binding makes of the class. */
  function BindingOf(w: World, i: Interface): Option<Binding> {
    if i in w.bindings then Some(w.bindings[i])
    else if i in w.classes && (w.autoBind || w.classes[i].declared.Some?) then
      Some(Binding(Build(w.classes[i].deps), w.classes[i].declared.GetOr(Transient)))
    else None
  }

  ghost predicate Below(rank: Interface -> nat, i: Interface, p: Provider) {
    p.Build? ==> forall d :: d in p.deps ==> rank(d) < rank(i)
  }

  /** Dependencies go down in rank, so no interface depends on itself. */
  ghost predicate Acyclic(rank: Interface -> nat, w: World) {
    && (forall i :: i in w.bindings ==> Below(rank, i, w.bindings[i].provider))
    && (forall i :: i in w.classes ==> Below(rank, i, Build(w.classes[i].deps)))
    && (forall c, i :: 0 <= c < |w.contexts| && i in w.contexts[c] ==> Below(rank, i, w.contexts[c][i]))
  }

  ghost predicate ValidContext(w: World, ctx: Option<nat>) {
    ctx.Some? ==> ctx.value < |w.contexts|
  }

  // ----- resolution -----

  /** The provider a scope already holds for `i`: one memo per process, one per request, none. */
  function Remembered(w: World, ctx: Option<nat>, i: Interface, scope: Scope): Option<Provider>
    requires ValidContext(w, ctx)
  {
    match scope
    case Singleton => if i in w.singletons then Some(Instance(w.singletons[i])) else None
    case Request => if ctx.Some? && i in w.contexts[ctx.value] then Some(w.contexts[ctx.value][i]) else None
    case Transient => None
  }

  /** What a scope does with an object it has just had built. */
  function Keep(w: World, ctx: Option<nat>, i: Interface, scope: Scope, r: Ref): World
    requires ValidContext(w, ctx)
  {
    match scope
    case Singleton => w.(singletons := w.singletons[i := r])
    case Request => if ctx.Some? then PutIn(w, ctx.value, i, Instance(r)) else w
    case Transient => w
  }

  function PutIn(w: World, c: nat, i: Interface, p: Provider): World
    requires c < |w.contexts|
  {
    w.(contexts := w.contexts[c := w.contexts[c][i := p]])
  }

  function Bound(w: World, i: Interface): World
    requires BindingOf(w, i).Some?
  {
    w.(bindings := w.bindings[i := BindingOf(w, i).value])
  }

  /** `EllarInjector.get` while `ctx` is the current request; None is an unsatisfied requirement. */
  function Resolve(rank: Interface -> nat, w: World, ctx: Option<nat>, i: Interface): (res: (World, Option<Ref>))
    requires Acyclic(rank, w) && ValidContext(w, ctx)
    ensures Acyclic(rank, res.0) && |res.0.contexts| == |w.contexts|
    decreases rank(i), 2, 0
  {
    match BindingOf(w, i)
    case None => (w, None)
    case Some(b) =>
      match Remembered(w, ctx, i, b.scope)
      case Some(p) => Provide(rank, Bound(w, i), ctx, i, p)
      case None =>
        var (w', r) := Provide(rank, Bound(w, i), ctx, i, b.provider);
        (if r.Some? then Keep(w', ctx, i, b.scope, r.value) else w', r)
  }

  /** `provider.get(injector)`: dependencies first, then the object itself. */
  function Provide(
      rank: Interface -> nat, w: World, ctx: Option<nat>, i: Interface, p: Provider): (res: (World, Option<Ref>))
    requires Acyclic(rank, w) && ValidContext(w, ctx) && Below(rank, i, p)
    ensures Acyclic(rank, res.0) && |res.0.contexts| == |w.contexts|
    decreases rank(i), 1, 0
  {
    match p
    case Instance(o) => (w, Some(o))
    case Build(deps) =>
      var (w1, args) := ResolveAll(rank, w, ctx, deps, rank(i));
      if args.None? then (w1, None)
      else (w1.(heap := w1.heap + [Object(i, deps, args.value, ctx)]), Some(Made(|w1.heap|)))
  }

  function ResolveAll(rank: Interface -> nat, w: World, ctx: Option<nat>, deps: seq<Interface>, top: nat)
    : (res: (World, Option<seq<Ref>>))
    requires Acyclic(rank, w) && ValidContext(w, ctx)
    requires forall d :: d in deps ==> rank(d) < top
    ensures Acyclic(rank, res.0) && |res.0.contexts| == |w.contexts|
    ensures res.1.Some? ==> |res.1.value| == |deps|
    decreases top, 0, |deps|
  {
    if deps == [] then (w, Some([]))
    else
      var (w1, first) := Resolve(rank, w, ctx, deps[0]);
      if first.None? then (w1, None)
      else
        var (w2, rest) := ResolveAll(rank, w1, ctx, deps[1..], top);
        (w2, if rest.None? then None else Some([first.value] + rest.value))
  }

  // ----- what resolution may change -----

  /**
   `w'` extends `w` by work done in `ctx` for interfaces of rank below `top`:
   nothing is forgotten, nothing else is touched.
   */
  ghost predicate Extends(rank: Interface -> nat, w: World, w': World, ctx: Option<nat>, top: nat) {
    && w'.classes == w.classes && w'.autoBind == w.autoBind && w'.put == w.put
    && (forall i :: BindingOf(w', i) == BindingOf(w, i))
    && (forall i :: i in w.bindings ==> i in w'.bindings)
    && w.heap <= w'.heap
    && (forall j :: |w.heap| <= j < |w'.heap| ==> w'.heap[j].ctx == ctx && rank(w'.heap[j].interface) < top)
    && (forall i :: i in w.singletons ==> i in w'.singletons && w'.singletons[i] == w.singletons[i])
    && (forall i :: i in w'.singletons && i !in w.singletons ==> rank(i) < top)
    && |w'.contexts| == |w.contexts|
    && (forall c :: 0 <= c < |w.contexts| && ctx != Some(c) ==> w'.contexts[c] == w.contexts[c])
    && (forall c, i :: 0 <= c < |w.contexts| && i in w.contexts[c] ==>
          i in w'.contexts[c] && w'.contexts[c][i] == w.contexts[c][i])
    && (forall c, i :: 0 <= c < |w.contexts| && i in w'.contexts[c] && i !in w.contexts[c] ==> rank(i) < top)
  }

  lemma ExtendsTransitive(rank: Interface -> nat, a: World, b: World, c: World, ctx: Option<nat>, top: nat)
    requires Extends(rank, a, b, ctx, top) && Extends(rank, b, c, ctx, top)
    ensures Extends(rank, a, c, ctx, top)
  {
  }

  lemma ExtendsWider(rank: Interface -> nat, a: World, b: World, ctx: Option<nat>, top: nat, top': nat)
    requires Extends(rank, a, b, ctx, top) && top <= top'
    ensures Extends(rank, a, b, ctx, top')
  {
  }

  lemma BoundExtends(rank: Interface -> nat, w: World, i: Interface, ctx: Option<nat>)
    requires BindingOf(w, i).Some?
    ensures Extends(rank, w, Bound(w, i), ctx, rank(i) + 1)
  {
    assert forall k :: BindingOf(Bound(w, i), k) == BindingOf(w, k);
  }

  /** Keeping a new object in its scope's memory is work done for `i` as well. */
  lemma KeepExtends(rank: Interface -> nat, w: World, w': World, ctx: Option<nat>, i: Interface, scope: Scope, r: Ref)
    requires Extends(rank, w, w', ctx, rank(i) + 1) && ValidContext(w, ctx)
    requires Remembered(w, ctx, i, scope).None?
    ensures Extends(rank, w, Keep(w', ctx, i, scope, r), ctx, rank(i) + 1)
  {
    assert forall k :: BindingOf(Keep(w', ctx, i, scope, r), k) == BindingOf(w', k);
  }

  lemma {:induction false} ResolveExtends(rank: Interface -> nat, w: World, ctx: Option<nat>, i: Interface)
    requires Acyclic(rank, w) && ValidContext(w, ctx)
    ensures Extends(rank, w, Resolve(rank, w, ctx, i).0, ctx, rank(i) + 1)
    decreases rank(i), 2, 0
  {
    match BindingOf(w, i)
    case None =>
    case Some(b) =>
      var memory := Remembered(w, ctx, i, b.scope);
      var p := memory.GetOr(b.provider);
      ProvideExtends(rank, Bound(w, i), ctx, i, p);
      var (w', r) := Provide(rank, Bound(w, i), ctx, i, p);
      BoundExtends(rank, w, i, ctx);
      ExtendsTransitive(rank, w, Bound(w, i), w', ctx, rank(i) + 1);
      if memory.None? && r.Some? {
        KeepExtends(rank, w, w', ctx, i, b.scope, r.value);
      }
  }

  lemma {:induction false} ProvideExtends(rank: Interface -> nat, w: World, ctx: Option<nat>, i: Interface, p: Provider)
    requires Acyclic(rank, w) && ValidContext(w, ctx) && Below(rank, i, p)
    ensures Extends(rank, w, Provide(rank, w, ctx, i, p).0, ctx, rank(i) + 1)
    decreases rank(i), 1, 0
  {
    match p
    case Instance(o) =>
    case Build(deps) =>
      ResolveAllExtends(rank, w, ctx, deps, rank(i));
  }

  lemma {:induction false} ResolveAllExtends(
      rank: Interface -> nat, w: World, ctx: Option<nat>, deps: seq<Interface>, top: nat)
    requires Acyclic(rank, w) && ValidContext(w, ctx)
    requires forall d :: d in deps ==> rank(d) < top
    ensures Extends(rank, w, ResolveAll(rank, w, ctx, deps, top).0, ctx, top)
    decreases top, 0, |deps|
  {
    if deps != [] {
      ResolveExtends(rank, w, ctx, deps[0]);
      var (w1, first) := Resolve(rank, w, ctx, deps[0]);
      ExtendsWider(rank, w, w1, ctx, rank(deps[0]) + 1, top);
      if first.Some? {
        ResolveAllExtends(rank, w1, ctx, deps[1..], top);
        ExtendsTransitive(rank, w, w1, ResolveAll(rank, w1, ctx, deps[1..], top).0, ctx, top);
      }
    }
  }
}
