/** Which request a task is in after a run, and what a request answers once an object was handed to it. */
module InjectorRequests {
  import opened Prelude
  import opened Injector
  import opened InjectorRuns

  /** How many requests were opened. */
  function Opens(steps: seq<Step>): nat {
    if steps == [] then 0
    else Opens(steps[..|steps| - 1]) + (if steps[|steps| - 1].Open? then 1 else 0)
  }

  /**
   The request of task `t`, read off the steps backwards: the one it opened last, unless it has closed it since;
   a spawned task starts in whatever request its creator was in.
   */
  function RequestOf(steps: seq<Step>, t: int): Option<nat> {
    if steps == [] then None
    else
      var before := steps[..|steps| - 1];
      match steps[|steps| - 1]
      case Open(u) => if u == t then Some(Opens(before)) else RequestOf(before, t)
      case Close(u) => if u == t then None else RequestOf(before, t)
      case Spawn(u, child) => if child == t then RequestOf(before, u) else RequestOf(before, t)
      case Get(_, _) => RequestOf(before, t)
      case Hand(_, _, _) => RequestOf(before, t)
  }

  lemma RunSnoc(rank: Interface -> nat, p: Process, steps: seq<Step>, step: Step)
    requires Ready(rank, p) && (forall s :: s in steps ==> StepOk(rank, s)) && StepOk(rank, step)
    ensures Run(rank, p, steps + [step]) == After(rank, Run(rank, p, steps), step)
  {
    RunAppend(rank, p, steps, [step]);
    var p' := Run(rank, p, steps);
    assert [step][1..] == [];
    assert Run(rank, p', [step]) == Run(rank, After(rank, p', step), []);
  }

  /** In every run each task is in the request that the steps put it in, and in none if they left it outside. */
  lemma {:induction false} TasksAreInTheirRequests(rank: Interface -> nat, p: Process, steps: seq<Step>, t: int)
    requires Fresh(rank, p) && forall s :: s in steps ==> StepOk(rank, s)
    ensures var p' := Run(rank, p, steps);
            Ctx(p', t) == RequestOf(steps, t) && |p'.world.contexts| == Opens(steps)
  {
    if steps != [] {
      var before, last := steps[..|steps| - 1], steps[|steps| - 1];
      assert steps == before + [last];
      TasksAreInTheirRequests(rank, p, before, t);
      RunSnoc(rank, p, before, last);
      if last.Spawn? {
        TasksAreInTheirRequests(rank, p, before, last.task);
      }
    }
  }

  // ----- handed objects are answered -----

  ghost predicate Has(w: World, c: nat, i: Interface, id: int) {
    && c < |w.contexts| && i in w.contexts[c] && w.contexts[c][i] == Instance(Given(id))
    && BindingOf(w, i).Some? && BindingOf(w, i).value.scope == Request
  }

  lemma StepKeepsEntry(rank: Interface -> nat, p: Process, step: Step, c: nat, i: Interface, id: int)
    requires Ready(rank, p) && StepOk(rank, step) && Has(p.world, c, i, id)
    requires !(step.Hand? && step.i == i)
    ensures Has(After(rank, p, step).world, c, i, id)
  {
    assert step.Open? ==> BindingOf(After(rank, p, step).world, i) == BindingOf(p.world, i);
    if step.Get? {
      ResolveExtends(rank, p.world, Ctx(p, step.task), step.i);
    }
  }

  lemma {:induction false} RunKeepsEntry(
      rank: Interface -> nat, p: Process, steps: seq<Step>, c: nat, i: Interface, id: int)
    requires Ready(rank, p) && (forall s :: s in steps ==> StepOk(rank, s)) && Has(p.world, c, i, id)
    requires forall s :: s in steps ==> !(s.Hand? && s.i == i)
    ensures Has(Run(rank, p, steps).world, c, i, id)
    decreases |steps|
  {
    if steps != [] {
      StepKeepsEntry(rank, p, steps[0], c, i, id);
      RunKeepsEntry(rank, After(rank, p, steps[0]), steps[1..], c, i, id);
    }
  }

  /**
   An object handed to a request for a request-scoped interface is what every task in that request gets for it
   from then on, whatever was resolved before and whatever else happens, until something else is handed over for it.
   */
  lemma HandedObjectIsAnswered(
      rank: Interface -> nat, p: Process, t: int, i: Interface, id: int, more: seq<Step>, u: int)
    requires Ready(rank, p) && t in p.current
    requires BindingOf(p.world, i).Some? && BindingOf(p.world, i).value.scope == Request
    requires forall s :: s in more ==> StepOk(rank, s) && !(s.Hand? && s.i == i)
    requires var p' := Run(rank, After(rank, p, Hand(t, i, Value(id))), more);
             u in p'.current && p'.current[u] == p.current[t]
    ensures var p' := Run(rank, After(rank, p, Hand(t, i, Value(id))), more);
            Resolve(rank, p'.world, Ctx(p', u), i).1 == Some(Given(id))
  {
    var p1 := After(rank, p, Hand(t, i, Value(id)));
    assert BindingOf(p1.world, i) == BindingOf(p.world, i);
    RunKeepsEntry(rank, p1, more, p.current[t], i, id);
  }

  /**
   A provider handed to a request is asked every time: each answer is a new object, built from the dependencies
   that the provider names.
   */
  lemma HandedProviderBuildsAnew(
      rank: Interface -> nat, p: Process, t: int, i: Interface, deps: seq<Interface>)
    requires Ready(rank, p) && t in p.current && StepOk(rank, Hand(t, i, Factory(deps)))
    requires BindingOf(p.world, i).Some? && BindingOf(p.world, i).value.scope == Request
    ensures var p1 := After(rank, p, Hand(t, i, Factory(deps)));
            var (w2, one) := Resolve(rank, p1.world, Ctx(p1, t), i);
            var (w3, two) := Resolve(rank, w2, Ctx(p1, t), i);
            && (one.Some? ==> IsNewFor(p1.world, w2, one.value, i, deps))
            && (two.Some? ==> IsNewFor(w2, w3, two.value, i, deps))
            && (one.Some? && two.Some? ==> one != two)
  {
    var p1 := After(rank, p, Hand(t, i, Factory(deps)));
    var c := p.current[t];
    assert BindingOf(p1.world, i) == BindingOf(p.world, i);
    AsksProvider(rank, p1.world, c, i, deps);
    AsksProvider(rank, Resolve(rank, p1.world, Some(c), i).0, c, i, deps);
  }

  ghost predicate IsNewFor(w: World, w': World, r: Ref, i: Interface, deps: seq<Interface>) {
    && r.Made? && |w.heap| <= r.index < |w'.heap|
    && w'.heap[r.index].interface == i && w'.heap[r.index].deps == deps
  }

  lemma AsksProvider(rank: Interface -> nat, w: World, c: nat, i: Interface, deps: seq<Interface>)
    requires Acyclic(rank, w) && c < |w.contexts| && i in w.contexts[c] && w.contexts[c][i] == Build(deps)
    requires BindingOf(w, i).Some? && BindingOf(w, i).value.scope == Request
    ensures var (w', r) := Resolve(rank, w, Some(c), i);
            && (r.Some? ==> IsNewFor(w, w', r.value, i, deps))
            && i in w'.contexts[c] && w'.contexts[c][i] == Build(deps) && BindingOf(w', i) == BindingOf(w, i)
  {
    ResolveExtends(rank, w, Some(c), i);
    assert Remembered(w, Some(c), i, Request) == Some(Build(deps));
    ResolveAllExtends(rank, Bound(w, i), Some(c), deps, rank(i));
  }
}
