/** Objects that the application hands to a request stay in that request. */
module InjectorHanding {
  import opened Prelude
  import opened Injector
  import opened InjectorSharing
  import opened InjectorRuns

  // ----- what was handed to whom -----

  datatype Handing = Handing(context: nat, i: Interface, id: int)

  function HandedBy(p: Process, step: Step): set<Handing> {
    if step.Hand? && step.task in p.current && step.what.Value? then
      {Handing(p.current[step.task], step.i, step.what.id)}
    else {}
  }

  /** Every object that `update_scoped_context` put into some request during the run. */
  function HandedIn(rank: Interface -> nat, p: Process, steps: seq<Step>): set<Handing>
    requires Ready(rank, p) && forall s :: s in steps ==> StepOk(rank, s)
    decreases |steps|
  {
    if steps == [] then {} else HandedBy(p, steps[0]) + HandedIn(rank, After(rank, p, steps[0]), steps[1..])
  }

  /** The object was handed to this very request for this interface, or is the instance registered for it. */
  predicate FromHere(w: World, handed: set<Handing>, ctx: Option<nat>, i: Interface, id: int) {
    || (ctx.Some? && Handing(ctx.value, i, id) in handed)
    || (BindingOf(w, i).Some? && BindingOf(w, i).value.provider == Instance(Given(id)))
  }

  predicate AnswerFromHere(w: World, handed: set<Handing>, ctx: Option<nat>, i: Interface, r: Ref) {
    r.Given? && ScopeOf(w, i) == Request ==> FromHere(w, handed, ctx, i, r.id)
  }

  ghost predicate ArgumentsFromHere(w: World, handed: set<Handing>, o: Object) {
    forall q :: 0 <= q < |o.args| && q < |o.deps| ==> AnswerFromHere(w, handed, o.ctx, o.deps[q], o.args[q])
  }

  ghost predicate EntriesFromHere(w: World, handed: set<Handing>) {
    forall c, i :: 0 <= c < |w.contexts| && i in w.contexts[c] && w.contexts[c][i].Instance? ==>
      AnswerFromHere(w, handed, Some(c), i, w.contexts[c][i].obj)
  }

  /** All entries of requests, and all that built objects hold, are from the request they are in. */
  ghost predicate AllFromHere(w: World, handed: set<Handing>) {
    EntriesFromHere(w, handed) && forall j :: 0 <= j < |w.heap| ==> ArgumentsFromHere(w, handed, w.heap[j])
  }

  // ----- resolution keeps it so -----

  lemma SameBindingsFromHere(w: World, w': World, handed: set<Handing>, ctx: Option<nat>, i: Interface, r: Ref)
    requires BindingOf(w', i) == BindingOf(w, i) && AnswerFromHere(w, handed, ctx, i, r)
    ensures AnswerFromHere(w', handed, ctx, i, r)
  {
  }

  lemma BoundFromHere(w: World, handed: set<Handing>, i: Interface)
    requires AllFromHere(w, handed) && BindingOf(w, i).Some?
    ensures AllFromHere(Bound(w, i), handed)
  {
    assert forall k :: BindingOf(Bound(w, i), k) == BindingOf(w, k);
  }

  lemma KeepFromHere(w: World, handed: set<Handing>, ctx: Option<nat>, i: Interface, scope: Scope, r: Ref)
    requires AllFromHere(w, handed) && ValidContext(w, ctx) && AnswerFromHere(w, handed, ctx, i, r)
    ensures AllFromHere(Keep(w, ctx, i, scope, r), handed)
  {
    var w' := Keep(w, ctx, i, scope, r);
    assert forall k :: BindingOf(w', k) == BindingOf(w, k);
    forall j | 0 <= j < |w'.heap|
      ensures ArgumentsFromHere(w', handed, w'.heap[j])
    {
      assert ArgumentsFromHere(w, handed, w.heap[j]);
    }
  }

  lemma AddFromHere(w: World, handed: set<Handing>, o: Object)
    requires AllFromHere(w, handed) && ArgumentsFromHere(w, handed, o)
    ensures AllFromHere(w.(heap := w.heap + [o]), handed)
  {
    var w' := w.(heap := w.heap + [o]);
    assert forall k :: BindingOf(w', k) == BindingOf(w, k);
    forall j | 0 <= j < |w'.heap|
      ensures ArgumentsFromHere(w', handed, w'.heap[j])
    {
      assert ArgumentsFromHere(w, handed, w'.heap[j]);
    }
  }

  lemma {:induction false} ResolveFromHere(
    rank: Interface -> nat, w: World, handed: set<Handing>, ctx: Option<nat>, i: Interface)
    requires Acyclic(rank, w) && ValidContext(w, ctx) && AllFromHere(w, handed)
    ensures var (w', r) := Resolve(rank, w, ctx, i);
            AllFromHere(w', handed) && (r.Some? ==> AnswerFromHere(w', handed, ctx, i, r.value))
    decreases rank(i), 2, 0
  {
    var b := BindingOf(w, i);
    if b.Some? {
      var w1, memory := Bound(w, i), Remembered(w, ctx, i, b.value.scope);
      BoundFromHere(w, handed, i);
      BoundKeepsBindings(w, i, i);
      var p := memory.GetOr(b.value.provider);
      ProvideFromHere(rank, w1, handed, ctx, i, p);
      ProvideExtends(rank, w1, ctx, i, p);
      var (w2, r) := Provide(rank, w1, ctx, i, p);
      assert BindingOf(w2, i) == BindingOf(w1, i) == BindingOf(w, i);
      if memory.None? && r.Some? {
        KeepFromHere(w2, handed, ctx, i, b.value.scope, r.value);
        assert BindingOf(Keep(w2, ctx, i, b.value.scope, r.value), i) == BindingOf(w2, i);
      }
    }
  }

  /** The provider is the registered one, or what the scope remembers. */
  lemma {:induction false} ProvideFromHere(
    rank: Interface -> nat, w: World, handed: set<Handing>, ctx: Option<nat>, i: Interface, p: Provider)
    requires Acyclic(rank, w) && ValidContext(w, ctx) && AllFromHere(w, handed) && Below(rank, i, p)
    requires BindingOf(w, i).Some? && p == Remembered(w, ctx, i, ScopeOf(w, i)).GetOr(BindingOf(w, i).value.provider)
    ensures var (w', r) := Provide(rank, w, ctx, i, p);
            AllFromHere(w', handed) && (r.Some? ==> AnswerFromHere(w', handed, ctx, i, r.value))
    decreases rank(i), 1, 0
  {
    if p.Build? {
      ResolveAllFromHere(rank, w, handed, ctx, p.deps, rank(i));
      var (w1, args) := ResolveAll(rank, w, ctx, p.deps, rank(i));
      if args.Some? {
        AddFromHere(w1, handed, Object(i, p.deps, args.value, ctx));
      }
    }
  }

  lemma {:induction false} ResolveAllFromHere(
    rank: Interface -> nat, w: World, handed: set<Handing>, ctx: Option<nat>, deps: seq<Interface>, top: nat)
    requires Acyclic(rank, w) && ValidContext(w, ctx) && AllFromHere(w, handed)
    requires forall d :: d in deps ==> rank(d) < top
    ensures var (w', args) := ResolveAll(rank, w, ctx, deps, top);
            && AllFromHere(w', handed)
            && (args.Some? ==> ArgumentsFromHere(w', handed, Object(0, deps, args.value, ctx)))
    decreases top, 0, |deps|
  {
    if deps != [] {
      ResolveFromHere(rank, w, handed, ctx, deps[0]);
      var (w1, first) := Resolve(rank, w, ctx, deps[0]);
      if first.Some? {
        ResolveAllFromHere(rank, w1, handed, ctx, deps[1..], top);
        ResolveAllExtends(rank, w1, ctx, deps[1..], top);
        var (w2, rest) := ResolveAll(rank, w1, ctx, deps[1..], top);
        SameBindingsFromHere(w1, w2, handed, ctx, deps[0], first.value);
        if rest.Some? {
          ArgumentsJoin(w2, handed, ctx, deps, first.value, rest.value);
        }
      }
    }
  }

  lemma ArgumentsJoin(w: World, handed: set<Handing>, ctx: Option<nat>, deps: seq<Interface>, first: Ref,
      rest: seq<Ref>)
    requires |deps| == |rest| + 1 && AnswerFromHere(w, handed, ctx, deps[0], first)
    requires ArgumentsFromHere(w, handed, Object(0, deps[1..], rest, ctx))
    ensures ArgumentsFromHere(w, handed, Object(0, deps, [first] + rest, ctx))
  {
    var o := Object(0, deps[1..], rest, ctx);
    forall q | 0 <= q < |deps|
      ensures AnswerFromHere(w, handed, ctx, deps[q], ([first] + rest)[q])
    {
      if q > 0 {
        assert AnswerFromHere(w, handed, ctx, o.deps[q - 1], o.args[q - 1]);
      }
    }
  }

  // ----- runs keep it so -----

  lemma MoreHanded(w: World, handed: set<Handing>, more: set<Handing>)
    requires AllFromHere(w, handed) && handed <= more
    ensures AllFromHere(w, more)
  {
    forall j | 0 <= j < |w.heap|
      ensures ArgumentsFromHere(w, more, w.heap[j])
    {
      assert ArgumentsFromHere(w, handed, w.heap[j]);
    }
  }

  lemma OpenFromHere(w: World, handed: set<Handing>)
    requires AllFromHere(w, handed)
    ensures AllFromHere(w.(contexts := w.contexts + [map[]]), handed)
  {
    var w' := w.(contexts := w.contexts + [map[]]);
    assert forall k :: BindingOf(w', k) == BindingOf(w, k);
    forall j | 0 <= j < |w'.heap|
      ensures ArgumentsFromHere(w', handed, w'.heap[j])
    {
      assert ArgumentsFromHere(w, handed, w.heap[j]);
    }
  }

  lemma HandFromHere(w: World, handed: set<Handing>, c: nat, i: Interface, what: Handed)
    requires AllFromHere(w, handed) && c < |w.contexts|
    requires what.Value? ==> Handing(c, i, what.id) in handed
    ensures AllFromHere(PutIn(w, c, i, ProviderOf(what)).(put := w.put + {(c, i)}), handed)
  {
    var w' := PutIn(w, c, i, ProviderOf(what)).(put := w.put + {(c, i)});
    assert forall k :: BindingOf(w', k) == BindingOf(w, k);
    forall j | 0 <= j < |w'.heap|
      ensures ArgumentsFromHere(w', handed, w'.heap[j])
    {
      assert ArgumentsFromHere(w, handed, w.heap[j]);
    }
  }

  lemma StepFromHere(rank: Interface -> nat, p: Process, step: Step, handed: set<Handing>)
    requires Ready(rank, p) && StepOk(rank, step) && AllFromHere(p.world, handed) && HandedBy(p, step) <= handed
    ensures AllFromHere(After(rank, p, step).world, handed)
  {
    match step {
      case Open(_) => OpenFromHere(p.world, handed);
      case Get(t, i) => ResolveFromHere(rank, p.world, handed, Ctx(p, t), i);
      case Hand(t, i, what) =>
        if t in p.current {
          HandFromHere(p.world, handed, p.current[t], i, what);
        }
      case _ =>
    }
  }

  lemma {:induction false} RunFromHere(rank: Interface -> nat, p: Process, steps: seq<Step>, handed: set<Handing>)
    requires Ready(rank, p) && (forall s :: s in steps ==> StepOk(rank, s)) && AllFromHere(p.world, handed)
    ensures AllFromHere(Run(rank, p, steps).world, handed + HandedIn(rank, p, steps))
    decreases |steps|
  {
    if steps == [] {
      assert handed + {} == handed;
    } else {
      var now := handed + HandedBy(p, steps[0]);
      MoreHanded(p.world, handed, now);
      StepFromHere(rank, p, steps[0], now);
      var p' := After(rank, p, steps[0]);
      RunFromHere(rank, p', steps[1..], now);
      assert now + HandedIn(rank, p', steps[1..]) == handed + HandedIn(rank, p, steps);
    }
  }

  // ----- what a task gets -----

  /**
   In what `i` resolves to in task `t` now, every object under a request-scoped interface was handed to this
   request.
   */
  ghost predicate HandedApart(rank: Interface -> nat, p: Process, handed: set<Handing>)
    requires Ready(rank, p)
  {
    forall t: int, i: Interface :: GetsFromHere(rank, p, handed, t, i)
  }

  ghost predicate GetsFromHere(rank: Interface -> nat, p: Process, handed: set<Handing>, t: int, i: Interface)
    requires Ready(rank, p)
  {
    var (w, r) := Resolve(rank, p.world, Ctx(p, t), i);
    && (r.Some? ==> AnswerFromHere(w, handed, Ctx(p, t), i, r.value))
    && forall j: nat, k: nat, q: nat :: r == Some(Made(j)) && HoldsBelow(w, j, k, q) ==>
         AnswerFromHere(w, handed, Ctx(p, t), w.heap[k].deps[q], w.heap[k].args[q])
  }

  /** Object `j` leads to object `k`, which has a `q`-th dependency. */
  ghost predicate HoldsBelow(w: World, j: nat, k: nat, q: nat) {
    j < |w.heap| && k < |w.heap| && Reaches(w, j, k) && q < |w.heap[k].args| && q < |w.heap[k].deps|
  }

  lemma BuiltFromRequest(rank: Interface -> nat, w: World, k: nat, q: nat)
    requires Acyclic(rank, w) && k < |w.heap| && ObjectOk(w, k) && q < |w.heap[k].deps|
    requires ScopeOf(w, w.heap[k].deps[q]) == Request
    ensures !RequestFree(rank, w, w.heap[k].interface)
  {
    var o := w.heap[k];
    assert o.deps[q] in o.deps && !RequestFree(rank, w, o.deps[q]);
  }

  lemma ReachedIsFromHere(
      rank: Interface -> nat, w: World, handed: set<Handing>, ctx: Option<nat>, i: Interface, j: nat, k: nat, q: nat)
    requires Acyclic(rank, w) && Sound(w) && NoCapture(rank, w) && AllFromHere(w, handed)
    requires Answer(w, ctx, i, Made(j)) && HoldsBelow(w, j, k, q)
    ensures AnswerFromHere(w, handed, ctx, w.heap[k].deps[q], w.heap[k].args[q])
  {
    assert ObjectOk(w, k) && ArgumentsFromHere(w, handed, w.heap[k]);
    if ScopeOf(w, w.heap[k].deps[q]) == Request {
      BuiltFromRequest(rank, w, k, q);
      AnswerStaysInRequest(rank, w, ctx, i, j, k);
    }
  }

  /** When no singleton captures, every run keeps handed objects in the requests they were handed to. */
  lemma HandedObjectsStay(rank: Interface -> nat, p: Process, steps: seq<Step>)
    requires Fresh(rank, p) && NoCapture(rank, p.world)
    requires forall s :: s in steps ==> StepOk(rank, s)
    ensures HandedApart(rank, Run(rank, p, steps), HandedIn(rank, p, steps))
  {
    var p', handed := Run(rank, p, steps), HandedIn(rank, p, steps);
    RunIsSound(rank, p, steps);
    RunKeepsBindings(rank, p, steps);
    RunFromHere(rank, p, steps, {});
    assert {} + handed == handed;
    forall t: int, i: Interface
      ensures GetsFromHere(rank, p', handed, t, i)
    {
      TaskGetsFromHere(rank, p, p', handed, t, i);
    }
  }

  lemma TaskGetsFromHere(
    rank: Interface -> nat, p: Process, p': Process, handed: set<Handing>, t: int, i: Interface)
    requires Ready(rank, p) && Ready(rank, p') && Sound(p'.world) && AllFromHere(p'.world, handed)
    requires NoCapture(rank, p.world) && SameBindings(p.world, p'.world)
    ensures GetsFromHere(rank, p', handed, t, i)
  {
    var (w, r) := Resolve(rank, p'.world, Ctx(p', t), i);
    ResolveFromHere(rank, p'.world, handed, Ctx(p', t), i);
    ResolveIsSound(rank, p'.world, Ctx(p', t), i);
    ResolveExtends(rank, p'.world, Ctx(p', t), i);
    assert forall d :: BindingOf(w, d) == BindingOf(p'.world, d) == BindingOf(p.world, d);
    NoCaptureStays(rank, p.world, w);
    forall j: nat, k: nat, q: nat | r == Some(Made(j)) && HoldsBelow(w, j, k, q)
      ensures AnswerFromHere(w, handed, Ctx(p', t), w.heap[k].deps[q], w.heap[k].args[q])
    {
      ReachedIsFromHere(rank, w, handed, Ctx(p', t), i, j, k, q);
    }
  }

  /** Requests are kept apart in every run, built and handed objects alike, exactly when no singleton captures. */
  lemma RequestsAreKeptApartIffNoSingletonCaptures(rank: Interface -> nat, p: Process)
    requires Fresh(rank, p)
    ensures NoCapture(rank, p.world) <==>
            forall steps :: (forall s :: s in steps ==> StepOk(rank, s)) ==>
              Isolated(rank, Run(rank, p, steps)) && HandedApart(rank, Run(rank, p, steps), HandedIn(rank, p, steps))
  {
    RequestsAreIsolatedIffNoSingletonCaptures(rank, p);
    if NoCapture(rank, p.world) {
      forall steps | forall s :: s in steps ==> StepOk(rank, s)
        ensures HandedApart(rank, Run(rank, p, steps), HandedIn(rank, p, steps))
      {
        HandedObjectsStay(rank, p, steps);
      }
    }
  }
}
