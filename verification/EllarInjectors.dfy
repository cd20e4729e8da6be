/** The injector object: bindings, the scopes' memories and the request context variable. */
module EllarInjectors {
  import opened Prelude
  import opened Injector
  import opened InjectorRuns

  /** Arguments resolved so far in front of those still to come. */
  ghost function Prefixed(args: seq<Ref>, res: (World, Option<seq<Ref>>)): (World, Option<seq<Ref>>) {
    (res.0, if res.1.None? then None else Some(args + res.1.value))
  }

  lemma PrefixedStart(rank: Interface -> nat, w: World, ctx: Option<nat>, deps: seq<Interface>, top: nat)
    requires Acyclic(rank, w) && ValidContext(w, ctx)
    requires forall d :: d in deps ==> rank(d) < top
    ensures ResolveAll(rank, w, ctx, deps, top) == Prefixed([], ResolveAll(rank, w, ctx, deps[0..], top))
  {
    assert deps[0..] == deps;
    var args := ResolveAll(rank, w, ctx, deps, top).1;
    assert args.Some? ==> [] + args.value == args.value;
  }

  lemma PrefixedStep(
      rank: Interface -> nat, w: World, ctx: Option<nat>, deps: seq<Interface>, n: nat, top: nat, done: seq<Ref>)
    requires Acyclic(rank, w) && ValidContext(w, ctx) && n < |deps|
    requires forall d :: d in deps ==> rank(d) < top
    ensures var (w', arg) := Resolve(rank, w, ctx, deps[n]);
            Prefixed(done, ResolveAll(rank, w, ctx, deps[n..], top)) ==
            if arg.None? then (w', None)
            else Prefixed(done + [arg.value], ResolveAll(rank, w', ctx, deps[n + 1..], top))
  {
    assert deps[n..][0] == deps[n] && deps[n..][1..] == deps[n + 1..];
    var (w', arg) := Resolve(rank, w, ctx, deps[n]);
    if arg.Some? {
      var rest := ResolveAll(rank, w', ctx, deps[n + 1..], top).1;
      if rest.Some? {
        assert done + ([arg.value] + rest.value) == done + [arg.value] + rest.value;
      }
    }
  }

  /** A scope's `get` and the `get` of the provider it returns: recall, or build and keep. */
  ghost function Asked(
      rank: Interface -> nat, w: World, ctx: Option<nat>, i: Interface, b: Binding): (World, Option<Ref>)
    requires Acyclic(rank, w) && ValidContext(w, ctx) && Below(rank, i, b.provider)
  {
    match Remembered(w, ctx, i, b.scope)
    case Some(p) => Provide(rank, w, ctx, i, p)
    case None =>
      var (w', r) := Provide(rank, w, ctx, i, b.provider);
      (if r.Some? then Keep(w', ctx, i, b.scope, r.value) else w', r)
  }

  lemma ResolveAsks(rank: Interface -> nat, w: World, ctx: Option<nat>, i: Interface)
    requires Acyclic(rank, w) && ValidContext(w, ctx) && BindingOf(w, i).Some?
    ensures Acyclic(rank, Bound(w, i))
    ensures Resolve(rank, w, ctx, i) == Asked(rank, Bound(w, i), ctx, i, BindingOf(w, i).value)
  {
  }

  /** What an interface is registered with: its own class, another class, or an object. */
  datatype Concrete = Itself | ClassOf(concrete: Interface) | ValueOf(obj: Ref)

  function DeclaredScope(classes: map<Interface, Class>, c: Interface): Scope {
    if c in classes then classes[c].declared.GetOr(Transient) else Transient
  }

  /** The binding that registering makes: a scope given explicitly goes before the one the class declares. */
  function RegistrationOf(classes: map<Interface, Class>, base: Interface, concrete: Concrete, scope: Option<Scope>)
    : Option<Binding>
  {
    match concrete
    case ValueOf(o) => Some(Binding(Instance(o), scope.GetOr(DeclaredScope(classes, base))))
    case Itself =>
      if base !in classes then None
      else Some(Binding(Build(classes[base].deps), scope.GetOr(DeclaredScope(classes, base))))
    case ClassOf(c) =>
      if c !in classes then None
      else Some(Binding(Build(classes[c].deps), scope.GetOr(DeclaredScope(classes, c))))
  }

  class EllarInjector {
    const classes: map<Interface, Class>
    const autoBind: bool
    var bindings: map<Interface, Binding>
    var singletons: map<Interface, Ref>
    var contexts: seq<map<Interface, Provider>>
    var heap: seq<Object>
    var current: map<int, nat>
    ghost var put: set<(nat, Interface)>

    ghost function World(): World
      reads this
    {
      Injector.World(classes, autoBind, bindings, singletons, contexts, heap, put)
    }

    ghost function Process(): Process
      reads this
    {
      InjectorRuns.Process(World(), current)
    }

    constructor (classes: map<Interface, Class>, autoBind: bool)
      ensures this.classes == classes && this.autoBind == autoBind
      ensures World() == Injector.World(classes, autoBind, map[], map[], [], [], {}) && current == map[]
    {
      this.classes := classes;
      this.autoBind := autoBind;
      bindings, singletons, contexts, heap, current := map[], map[], [], [], map[];
      put := {};
    }

    /**
     `Container.register`: the last registration wins, whatever was bound before; false when there is nothing
     to build.
     */
    method Register(base: Interface, concrete: Concrete, scope: Option<Scope>) returns (ok: bool)
      modifies this`bindings
      ensures var made := RegistrationOf(classes, base, concrete, scope);
              ok == made.Some? && bindings == if ok then old(bindings)[base := made.value] else old(bindings)
      ensures ok ==> BindingOf(World(), base) == RegistrationOf(classes, base, concrete, scope)
      ensures forall i :: i != base ==> BindingOf(World(), i) == BindingOf(old(World()), i)
    {
      var source := if concrete.ClassOf? then concrete.concrete else base;
      var declared: Option<Scope> := None;
      if source in classes {
        declared := classes[source].declared;
      }
      var provider := Build([]);
      if concrete.ValueOf? {
        provider := Instance(concrete.obj);
      } else if source in classes {
        provider := Build(classes[source].deps);
      } else {
        return false;
      }
      var s := declared.GetOr(Transient);
      if scope.Some? {
        s := scope.value;
      }
      bindings := bindings[base := Binding(provider, s)];
      return true;
    }

    /** `Container.get_binding`: an automatic binding is made once and stored. */
    method GetBinding(i: Interface) returns (b: Option<Binding>)
      modifies this`bindings
      ensures b == BindingOf(old(World()), i)
      ensures World() == if b.Some? then Bound(old(World()), i) else old(World())
    {
      if i in bindings {
        assert bindings[i := bindings[i]] == bindings;
        return Some(bindings[i]);
      }
      if i in classes && (autoBind || classes[i].declared.Some?) {
        var made := Binding(Build(classes[i].deps), classes[i].declared.GetOr(Transient));
        bindings := bindings[i := made];
        return Some(made);
      }
      return None;
    }

    /** `EllarInjector.get` in the request of the calling task. */
    method Get(ghost rank: Interface -> nat, task: int, i: Interface) returns (r: Option<Ref>)
      requires Ready(rank, Process())
      modifies this`bindings, this`singletons, this`contexts, this`heap
      ensures Ready(rank, Process())
      ensures Process() == After(rank, old(Process()), InjectorRuns.Get(task, i))
      ensures r == Resolve(rank, old(World()), Ctx(old(Process()), task), i).1
    {
      var ctx: Option<nat> := None;
      if task in current {
        ctx := Some(current[task]);
      }
      r := GetIn(rank, ctx, i);
    }

    method GetIn(ghost rank: Interface -> nat, ctx: Option<nat>, i: Interface) returns (r: Option<Ref>)
      requires Acyclic(rank, World()) && ValidContext(World(), ctx)
      modifies this`bindings, this`singletons, this`contexts, this`heap
      ensures Acyclic(rank, World()) && |contexts| == |old(contexts)|
      ensures (World(), r) == Resolve(rank, old(World()), ctx, i)
      decreases rank(i), 3, 0
    {
      var binding := GetBinding(i);
      if binding.None? {
        return None;
      }
      ResolveAsks(rank, old(World()), ctx, i);
      match binding.value.scope {
        case Transient => r := GetFrom(rank, ctx, i, binding.value.provider);
        case Singleton => r := SingletonGet(rank, ctx, i, binding.value.provider);
        case Request => r := RequestGet(rank, ctx, i, binding.value.provider);
      }
    }

    /** `SingletonScope.get`. */
    method SingletonGet(ghost rank: Interface -> nat, ctx: Option<nat>, i: Interface, p: Provider)
      returns (r: Option<Ref>)
      requires Acyclic(rank, World()) && ValidContext(World(), ctx) && Below(rank, i, p)
      modifies this`bindings, this`singletons, this`contexts, this`heap
      ensures (World(), r) == Asked(rank, old(World()), ctx, i, Binding(p, Singleton))
      decreases rank(i), 2, 0
    {
      if i in singletons {
        return Some(singletons[i]);
      }
      r := GetFrom(rank, ctx, i, p);
      if r.Some? {
        singletons := singletons[i := r.value];
      }
    }

    /** `RequestScope.get`: without a request it is no scope at all. */
    method RequestGet(ghost rank: Interface -> nat, ctx: Option<nat>, i: Interface, p: Provider)
      returns (r: Option<Ref>)
      requires Acyclic(rank, World()) && ValidContext(World(), ctx) && Below(rank, i, p)
      modifies this`bindings, this`singletons, this`contexts, this`heap
      ensures (World(), r) == Asked(rank, old(World()), ctx, i, Binding(p, Request))
      decreases rank(i), 2, 0
    {
      if ctx.None? {
        r := GetFrom(rank, ctx, i, p);
      } else if i in contexts[ctx.value] {
        r := GetFrom(rank, ctx, i, contexts[ctx.value][i]);
      } else {
        r := GetFrom(rank, ctx, i, p);
        if r.Some? {
          contexts := contexts[ctx.value := contexts[ctx.value][i := Instance(r.value)]];
        }
      }
    }

    /** `provider.get(injector)`. */
    method GetFrom(ghost rank: Interface -> nat, ctx: Option<nat>, i: Interface, p: Provider) returns (r: Option<Ref>)
      requires Acyclic(rank, World()) && ValidContext(World(), ctx) && Below(rank, i, p)
      modifies this`bindings, this`singletons, this`contexts, this`heap
      ensures Acyclic(rank, World()) && |contexts| == |old(contexts)|
      ensures (World(), r) == Provide(rank, old(World()), ctx, i, p)
      decreases rank(i), 1, 0
    {
      match p {
        case Instance(o) =>
          return Some(o);
        case Build(deps) =>
          var args := GetAll(rank, ctx, deps, rank(i));
          if args.None? {
            return None;
          }
          heap := heap + [Object(i, deps, args.value, ctx)];
          return Some(Made(|heap| - 1));
      }
    }

    /** The constructor's dependencies, one after the other; the first failure ends it. */
    method GetAll(ghost rank: Interface -> nat, ctx: Option<nat>, deps: seq<Interface>, ghost top: nat)
      returns (args: Option<seq<Ref>>)
      requires Acyclic(rank, World()) && ValidContext(World(), ctx)
      requires forall d :: d in deps ==> rank(d) < top
      modifies this`bindings, this`singletons, this`contexts, this`heap
      ensures Acyclic(rank, World()) && |contexts| == |old(contexts)|
      ensures (World(), args) == ResolveAll(rank, old(World()), ctx, deps, top)
      decreases top, 0, |deps|
    {
      var done: seq<Ref> := [];
      ghost var target := ResolveAll(rank, World(), ctx, deps, top);
      PrefixedStart(rank, World(), ctx, deps, top);
      for n := 0 to |deps|
        invariant Acyclic(rank, World()) && |contexts| == |old(contexts)|
        invariant target == Prefixed(done, ResolveAll(rank, World(), ctx, deps[n..], top))
      {
        PrefixedStep(rank, World(), ctx, deps, n, top, done);
        var arg := GetIn(rank, ctx, deps[n]);
        if arg.None? {
          return None;
        }
        done := done + [arg.value];
      }
      assert deps[|deps|..] == [] && done + [] == done;
      return Some(done);
    }

    /** `update_scoped_context`: without a request nothing happens. */
    method UpdateScopedContext(ghost rank: Interface -> nat, task: int, i: Interface, what: Handed)
      requires Ready(rank, Process()) && StepOk(rank, Hand(task, i, what))
      modifies this`contexts, this`put
      ensures Process() == After(rank, old(Process()), Hand(task, i, what))
    {
      if task !in current {
        return;
      }
      var c := current[task];
      contexts := contexts[c := contexts[c][i := ProviderOf(what)]];
      put := put + {(c, i)};
    }

    /** Entering `create_asgi_args`. */
    method OpenRequest(ghost rank: Interface -> nat, task: int)
      requires Ready(rank, Process())
      modifies this`contexts, this`current
      ensures Process() == After(rank, old(Process()), Open(task))
    {
      current := current[task := |contexts|];
      contexts := contexts + [map[]];
    }

    /** Its `finally`: the variable is set to None, not to what it was before. */
    method CloseRequest(ghost rank: Interface -> nat, task: int)
      requires Ready(rank, Process())
      modifies this`current
      ensures Process() == After(rank, old(Process()), Close(task))
    {
      current := current - {task};
    }
  }

  /** Re-registering a singleton that was already resolved has no effect on what is answered. */
  lemma SingletonOutlivesRegistration(rank: Interface -> nat, w: World, ctx: Option<nat>, i: Interface, p: Provider)
    requires Acyclic(rank, w) && ValidContext(w, ctx) && Below(rank, i, p) && i in w.singletons
    ensures var w' := w.(bindings := w.bindings[i := Binding(p, Singleton)]);
            Acyclic(rank, w') && Resolve(rank, w', ctx, i).1 == Some(w.singletons[i])
  {
    assert Bound(w.(bindings := w.bindings[i := Binding(p, Singleton)]), i).singletons == w.singletons;
  }

  /**
   Registered anew outside the singleton scope, a ready instance is answered from then on, whatever was built
   before.
   */
  lemma OtherScopesAnswerAnew(rank: Interface -> nat, w: World, i: Interface, obj: Ref, scope: Scope)
    requires Acyclic(rank, w) && scope != Singleton
    ensures var w' := w.(bindings := w.bindings[i := Binding(Instance(obj), scope)]);
            Acyclic(rank, w') && Resolve(rank, w', None, i).1 == Some(obj)
  {
    var w' := w.(bindings := w.bindings[i := Binding(Instance(obj), scope)]);
    assert Remembered(w', None, i, scope) == None;
  }
}
