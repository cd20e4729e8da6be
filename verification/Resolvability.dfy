/**
 Which interfaces resolve at all, outside any request: read off the bindings and
 the singletons already built, without running the injector.
 */
module Resolvability {
  import opened Prelude
  import opened Injector

  /** A singleton already built, a ready instance, or something all of whose dependencies are answered in turn. */
  ghost predicate Answerable(rank: Interface -> nat, w: World, i: Interface)
    requires Acyclic(rank, w)
    decreases rank(i)
  {
    match BindingOf(w, i)
    case None => false
    case Some(b) =>
      || (b.scope == Singleton && i in w.singletons)
      || b.provider.Instance?
      || forall d :: d in b.provider.deps ==> Answerable(rank, w, d)
  }

  /** `w` has the bindings of `v`, and only remembers more of what `v` answers. */
  ghost predicate SameAnswers(rank: Interface -> nat, v: World, w: World)
    requires Acyclic(rank, v)
  {
    && (forall i :: BindingOf(w, i) == BindingOf(v, i))
    && (forall i :: i in v.singletons ==> i in w.singletons)
    && (forall i :: i in w.singletons && i !in v.singletons ==> Answerable(rank, v, i))
  }

  lemma {:induction false} SameAnswersAnswer(rank: Interface -> nat, v: World, w: World, i: Interface)
    requires Acyclic(rank, v) && Acyclic(rank, w) && SameAnswers(rank, v, w)
    ensures Answerable(rank, w, i) == Answerable(rank, v, i)
    decreases rank(i)
  {
    assert BindingOf(w, i) == BindingOf(v, i);
    var b := BindingOf(v, i);
    if b.Some? && b.value.provider.Build? {
      forall d | d in b.value.provider.deps
        ensures Answerable(rank, w, d) == Answerable(rank, v, d)
      {
        SameAnswersAnswer(rank, v, w, d);
      }
    }
  }

  ghost predicate AllAnswerable(rank: Interface -> nat, w: World, services: seq<Interface>)
    requires Acyclic(rank, w)
  {
    forall i :: i in services ==> Answerable(rank, w, i)
  }

  lemma AllAnswerableCons(rank: Interface -> nat, w: World, services: seq<Interface>)
    requires Acyclic(rank, w) && services != []
    ensures AllAnswerable(rank, w, services) <==>
            Answerable(rank, w, services[0]) && AllAnswerable(rank, w, services[1..])
  {
    assert forall i :: i in services <==> i == services[0] || i in services[1..];
  }

  lemma SameAnswersAllAnswer(rank: Interface -> nat, v: World, w: World, services: seq<Interface>)
    requires Acyclic(rank, v) && Acyclic(rank, w) && SameAnswers(rank, v, w)
    ensures AllAnswerable(rank, w, services) == AllAnswerable(rank, v, services)
  {
    forall i | i in services
      ensures Answerable(rank, w, i) == Answerable(rank, v, i)
    {
      SameAnswersAnswer(rank, v, w, i);
    }
  }

  lemma SameAnswersTransitive(rank: Interface -> nat, u: World, v: World, w: World)
    requires Acyclic(rank, u) && Acyclic(rank, v) && SameAnswers(rank, u, v) && SameAnswers(rank, v, w)
    ensures SameAnswers(rank, u, w)
  {
    assert forall i :: BindingOf(w, i) == BindingOf(v, i) == BindingOf(u, i);
    forall i | i in w.singletons && i !in u.singletons
      ensures Answerable(rank, u, i)
    {
      if i !in v.singletons {
        SameAnswersAnswer(rank, u, v, i);
      }
    }
  }

  lemma BoundSameAnswers(rank: Interface -> nat, w: World, i: Interface)
    requires Acyclic(rank, w) && BindingOf(w, i).Some?
    ensures Acyclic(rank, Bound(w, i)) && SameAnswers(rank, w, Bound(w, i))
  {
  }

  /** Keeping an object of an interface that was answered changes no answer. */
  lemma KeepSameAnswers(rank: Interface -> nat, v: World, w: World, i: Interface, scope: Scope, r: Ref)
    requires Acyclic(rank, v) && SameAnswers(rank, v, w) && Answerable(rank, v, i)
    ensures SameAnswers(rank, v, Keep(w, None, i, scope, r))
  {
    assert forall k :: BindingOf(Keep(w, None, i, scope, r), k) == BindingOf(w, k);
  }

  lemma GrownSameAnswers(rank: Interface -> nat, v: World, w: World, o: Object)
    requires Acyclic(rank, v) && SameAnswers(rank, v, w)
    ensures SameAnswers(rank, v, w.(heap := w.heap + [o]))
  {
    assert forall k :: BindingOf(w.(heap := w.heap + [o]), k) == BindingOf(w, k);
  }

  /** Outside any request the injector answers exactly for what is answerable, and answering changes no other answer. */
  lemma {:induction false} ResolvesIffAnswerable(rank: Interface -> nat, w: World, i: Interface)
    requires Acyclic(rank, w)
    ensures var (w', r) := Resolve(rank, w, None, i);
            (r.Some? <==> Answerable(rank, w, i)) && SameAnswers(rank, w, w')
    decreases rank(i), 2, 0
  {
    var b := BindingOf(w, i);
    if b.Some? {
      var w1, memory := Bound(w, i), Remembered(w, None, i, b.value.scope);
      BoundSameAnswers(rank, w, i);
      if memory.None? {
        BuildsIffAnswerable(rank, w1, i, b.value);
        SameAnswersAnswer(rank, w, w1, i);
        var (w2, r) := Provide(rank, w1, None, i, b.value.provider);
        SameAnswersTransitive(rank, w, w1, w2);
        if r.Some? {
          KeepSameAnswers(rank, w, w2, i, b.value.scope, r.value);
        }
      }
    }
  }

  lemma {:induction false} BuildsIffAnswerable(rank: Interface -> nat, w: World, i: Interface, b: Binding)
    requires Acyclic(rank, w) && BindingOf(w, i) == Some(b) && Below(rank, i, b.provider)
    requires b.scope == Singleton ==> i !in w.singletons
    ensures var (w', r) := Provide(rank, w, None, i, b.provider);
            (r.Some? <==> Answerable(rank, w, i)) && SameAnswers(rank, w, w')
    decreases rank(i), 1, 0
  {
    if b.provider.Build? {
      var deps := b.provider.deps;
      AllResolveIffAnswerable(rank, w, deps, rank(i));
      var (w1, args) := ResolveAll(rank, w, None, deps, rank(i));
      if args.Some? {
        GrownSameAnswers(rank, w, w1, Object(i, deps, args.value, None));
      }
    }
  }

  lemma {:induction false} AllResolveIffAnswerable(rank: Interface -> nat, w: World, deps: seq<Interface>, top: nat)
    requires Acyclic(rank, w) && forall d :: d in deps ==> rank(d) < top
    ensures var (w', args) := ResolveAll(rank, w, None, deps, top);
            && (args.Some? <==> AllAnswerable(rank, w, deps))
            && SameAnswers(rank, w, w')
    decreases top, 0, |deps|
  {
    if deps != [] {
      ResolvesIffAnswerable(rank, w, deps[0]);
      var (w1, first) := Resolve(rank, w, None, deps[0]);
      if first.Some? {
        AllResolveIffAnswerable(rank, w1, deps[1..], top);
        SameAnswersTransitive(rank, w, w1, ResolveAll(rank, w1, None, deps[1..], top).0);
        SameAnswersAllAnswer(rank, w, w1, deps[1..]);
      }
      AllAnswerableCons(rank, w, deps);
    }
  }

  // ----- more registrations -----

  function Register(w: World, more: map<Interface, Binding>): World {
    w.(bindings := w.bindings + more)
  }

  ghost predicate AllBelow(rank: Interface -> nat, more: map<Interface, Binding>) {
    forall i :: i in more ==> Below(rank, i, more[i].provider)
  }

  lemma RegisteredBinding(w: World, more: map<Interface, Binding>, i: Interface)
    ensures BindingOf(Register(w, more), i) == if i in more then Some(more[i]) else BindingOf(w, i)
  {
  }

  /** Nothing that had a binding gets another one. */
  ghost predicate RebindsNothing(w: World, more: map<Interface, Binding>) {
    forall i :: i in more && BindingOf(w, i).Some? ==> BindingOf(w, i) == Some(more[i])
  }

  /** What is answered stays answered when nothing is bound anew. */
  lemma {:induction false} RegisteringKeepsAnswers(
    rank: Interface -> nat, w: World, more: map<Interface, Binding>, i: Interface)
    requires Acyclic(rank, w) && AllBelow(rank, more) && RebindsNothing(w, more) && Answerable(rank, w, i)
    ensures Acyclic(rank, Register(w, more)) && Answerable(rank, Register(w, more), i)
    decreases rank(i)
  {
    var w' := Register(w, more);
    RegisteredBinding(w, more, i);
    var b := BindingOf(w, i).value;
    if b.provider.Build? && !(b.scope == Singleton && i in w.singletons) {
      forall d | d in b.provider.deps
        ensures Acyclic(rank, w') && Answerable(rank, w', d)
      {
        RegisteringKeepsAnswers(rank, w, more, d);
      }
    }
  }

  lemma RegisteringSameBindings(v: World, w: World, more: map<Interface, Binding>)
    requires forall i :: BindingOf(w, i) == BindingOf(v, i)
    ensures forall i :: BindingOf(Register(w, more), i) == BindingOf(Register(v, more), i)
  {
    forall i
      ensures BindingOf(Register(w, more), i) == BindingOf(Register(v, more), i)
    {
      RegisteredBinding(v, more, i);
      RegisteredBinding(w, more, i);
      assert BindingOf(w, i) == BindingOf(v, i);
    }
  }

  /** What was built before a registration that binds nothing anew makes no difference after it. */
  lemma RegisteringSameAnswers(rank: Interface -> nat, v: World, w: World, more: map<Interface, Binding>)
    requires Acyclic(rank, v) && Acyclic(rank, w) && AllBelow(rank, more) && RebindsNothing(v, more)
    requires SameAnswers(rank, v, w)
    ensures Acyclic(rank, Register(v, more)) && Acyclic(rank, Register(w, more))
    ensures SameAnswers(rank, Register(v, more), Register(w, more))
  {
    RegisteringSameBindings(v, w, more);
    forall i | i in w.singletons && i !in v.singletons
      ensures Answerable(rank, Register(v, more), i)
    {
      RegisteringKeepsAnswers(rank, v, more, i);
    }
  }

  // ----- several in a row -----

  /** `get` for each of the services in turn, up to the first that fails. */
  function Serve(rank: Interface -> nat, w: World, services: seq<Interface>): (res: (World, bool))
    requires Acyclic(rank, w)
    ensures Acyclic(rank, res.0)
    decreases |services|
  {
    if services == [] then (w, true)
    else
      var (w1, r) := Resolve(rank, w, None, services[0]);
      if r.None? then (w1, false) else Serve(rank, w1, services[1..])
  }

  lemma {:induction false} ServesIffAnswerable(rank: Interface -> nat, w: World, services: seq<Interface>)
    requires Acyclic(rank, w)
    ensures var (w', ok) := Serve(rank, w, services);
            && (ok <==> AllAnswerable(rank, w, services))
            && SameAnswers(rank, w, w')
    decreases |services|
  {
    if services != [] {
      ResolvesIffAnswerable(rank, w, services[0]);
      var (w1, r) := Resolve(rank, w, None, services[0]);
      if r.Some? {
        ServesIffAnswerable(rank, w1, services[1..]);
        SameAnswersTransitive(rank, w, w1, Serve(rank, w1, services[1..]).0);
        SameAnswersAllAnswer(rank, w, w1, services[1..]);
      }
      AllAnswerableCons(rank, w, services);
    }
  }
}
