/**
 What runs around an endpoint: guards, then interceptors, then the response.
 Everything called may depend on all that has happened before it.
 */
module Pipeline {
  import opened Prelude

  datatype Outcome = Returns(value: int) | Throws(exc: int)

  /** The handler counts as the interceptor after the last. */
  datatype Event =
    | ResolveGuard(index: nat)
    | Activate(index: nat)
    | ResolveInterceptor(index: nat)
    | Enter(index: nat)
    | Leave(index: nat)
    | Respond(value: int)

  type Trace = seq<Event>

  datatype Verdict = Allows | Refuses(exc: int) | Breaks(exc: int)

  datatype Guard = Guard(resolveFails: Trace -> Option<int>, canActivate: Trace -> Verdict)

  /** An interceptor's next step, given what its calls of `next` have come to so far. */
  datatype Move = Finish(outcome: Outcome) | CallNext

  /** An interceptor calls `next` any number of times up to its bound. */
  datatype Interceptor = Interceptor(
    resolveFails: Trace -> Option<int>,
    maxCalls: nat,
    move: (Trace, seq<Outcome>) -> Move)

  datatype Route = Route(
    guards: seq<Guard>,
    interceptors: seq<Interceptor>,
    handle: Trace -> Outcome,
    responseStarted: Trace -> bool,
    respond: (Trace, int) -> Option<int>)

  ghost predicate Terminates(i: Interceptor) {
    forall trace, results :: |results| >= i.maxCalls ==> i.move(trace, results).Finish?
  }

  ghost predicate AllTerminate(interceptors: seq<Interceptor>) {
    forall i :: 0 <= i < |interceptors| ==> Terminates(interceptors[i])
  }

  datatype Ran = Ran(outcome: Outcome, trace: Trace)

  // ----- guards -----

  /** `run_route_guards`: each guard is made just before it is asked. */
  function RunGuards(guards: seq<Guard>, k: nat, trace: Trace): (Option<int>, Trace)
    requires k <= |guards|
    decreases |guards| - k
  {
    if k == |guards| then (None, trace)
    else
      var trace1 := trace + [ResolveGuard(k)];
      var failed := guards[k].resolveFails(trace1);
      if failed.Some? then (failed, trace1)
      else
        var trace2 := trace1 + [Activate(k)];
        match guards[k].canActivate(trace2)
        case Allows => RunGuards(guards, k + 1, trace2)
        case Refuses(exc) => (Some(exc), trace2)
        case Breaks(exc) => (Some(exc), trace2)
  }

  function GuardPair(k: nat): Trace {
    [ResolveGuard(k), Activate(k)]
  }

  function GuardPairs(k: nat): Trace {
    if k == 0 then [] else GuardPairs(k - 1) + GuardPair(k - 1)
  }

  /** The guard at `k` lets the request through, after those before it did. */
  ghost predicate Passes(guards: seq<Guard>, trace: Trace, k: nat)
    requires k < |guards|
  {
    && guards[k].resolveFails(trace + GuardPairs(k) + [ResolveGuard(k)]).None?
    && guards[k].canActivate(trace + GuardPairs(k + 1)) == Allows
  }

  ghost predicate AllPass(guards: seq<Guard>, trace: Trace) {
    forall i :: 0 <= i < |guards| ==> Passes(guards, trace, i)
  }

  lemma PairStep(trace: Trace, k: nat)
    ensures trace + GuardPairs(k) + [ResolveGuard(k)] + [Activate(k)] == trace + GuardPairs(k + 1)
  {
  }

  lemma {:induction false} GuardsFrom(guards: seq<Guard>, k: nat, trace: Trace)
    requires k <= |guards| && forall i :: 0 <= i < k ==> Passes(guards, trace, i)
    ensures var (failed, after) := RunGuards(guards, k, trace + GuardPairs(k));
            && (failed.None? <==> AllPass(guards, trace))
            && if failed.None? then after == trace + GuardPairs(|guards|)
               else StopsAt(guards, trace, after, failed.value)
    decreases |guards| - k
  {
    if k < |guards| {
      PairStep(trace, k);
      if Passes(guards, trace, k) {
        GuardsFrom(guards, k + 1, trace);
      } else {
        var (failed, after) := RunGuards(guards, k, trace + GuardPairs(k));
        assert StopsAtGuard(guards, trace, after, failed.value, k);
      }
    }
  }

  /** The guard at `k` fails to be made, or is asked and refuses or breaks; its exception ends the request there. */
  ghost predicate Fails(guards: seq<Guard>, trace: Trace, after: Trace, exc: int, k: nat)
    requires k < |guards|
  {
    var made := trace + GuardPairs(k) + [ResolveGuard(k)];
    var broken := guards[k].resolveFails(made);
    if broken.Some? then after == made && exc == broken.value
    else
      && after == trace + GuardPairs(k + 1)
      && (guards[k].canActivate(after) == Refuses(exc) || guards[k].canActivate(after) == Breaks(exc))
  }

  /** The guard at `k` is the first that does not let the request through, and the last that is touched. */
  ghost predicate StopsAtGuard(guards: seq<Guard>, trace: Trace, after: Trace, exc: int, k: nat) {
    && k < |guards| && Fails(guards, trace, after, exc, k)
    && (forall i :: 0 <= i < k ==> Passes(guards, trace, i))
  }

  ghost predicate StopsAt(guards: seq<Guard>, trace: Trace, after: Trace, exc: int) {
    exists k: nat :: StopsAtGuard(guards, trace, after, exc, k)
  }

  /** Guards run in order; all pass, or the first that does not ends the request with its exception. */
  lemma GuardsRunInOrder(guards: seq<Guard>, trace: Trace)
    ensures var (failed, after) := RunGuards(guards, 0, trace);
            && (failed.None? <==> AllPass(guards, trace))
            && if failed.None? then after == trace + GuardPairs(|guards|)
               else StopsAt(guards, trace, after, failed.value)
  {
    assert trace + GuardPairs(0) == trace;
    GuardsFrom(guards, 0, trace);
  }

  // ----- interceptors -----

  /** `handler(idx)`: the interceptor at the index around the next call, or the endpoint past the last. */
  ghost function Handler(r: Route, idx: nat, trace: Trace): Ran
    requires AllTerminate(r.interceptors) && idx <= |r.interceptors|
    decreases |r.interceptors| - idx, 1, 0
  {
    if idx == |r.interceptors| then
      var outcome := r.handle(trace + [Enter(idx)]);
      Ran(outcome, trace + [Enter(idx)] + [Leave(idx)])
    else Intercept(r, idx, trace + [Enter(idx)], [])
  }

  ghost function Intercept(r: Route, idx: nat, trace: Trace, results: seq<Outcome>): Ran
    requires AllTerminate(r.interceptors) && idx < |r.interceptors|
    decreases |r.interceptors| - idx, 0, r.interceptors[idx].maxCalls - |results|
  {
    match r.interceptors[idx].move(trace, results)
    case Finish(outcome) => Ran(outcome, trace + [Leave(idx)])
    case CallNext =>
      assert |results| < r.interceptors[idx].maxCalls;
      var next := Handler(r, idx + 1, trace);
      Intercept(r, idx, next.trace, results + [next.outcome])
  }

  // ----- nesting -----

  /** Reading one event of a trace of calls: an entry must be one deeper than the last, a leave must match. */
  function ReadEvent(depth: nat, e: Event): Option<nat> {
    match e
    case Enter(i) => if i == depth then Some(i + 1) else None
    case Leave(i) => if i + 1 == depth then Some(i) else None
    case ResolveGuard(i) => None
    case Activate(i) => None
    case ResolveInterceptor(i) => None
    case Respond(v) => None
  }

  function Read(depth: Option<nat>, events: Trace): Option<nat>
    decreases |events|
  {
    if events == [] || depth.None? then depth else Read(ReadEvent(depth.value, events[0]), events[1..])
  }

  lemma {:induction false} ReadAppend(depth: Option<nat>, a: Trace, b: Trace)
    ensures Read(depth, a + b) == Read(Read(depth, a), b)
    decreases |a|
  {
    if a == [] {
      assert a + b == b;
    } else if depth.Some? {
      assert (a + b)[1..] == a[1..] + b && (a + b)[0] == a[0];
      ReadAppend(ReadEvent(depth.value, a[0]), a[1..], b);
    }
  }

  /** The calls are properly nested: `events` begins and ends at the depth, staying at or below it. */
  ghost predicate NestedAt(depth: nat, events: Trace) {
    Read(Some(depth), events) == Some(depth) && forall k :: 0 <= k < |events| ==> Within(depth, events[k])
  }

  predicate Within(depth: nat, e: Event) {
    (e.Enter? || e.Leave?) && e.index >= depth
  }

  lemma ReadOne(depth: nat)
    ensures Read(Some(depth), [Enter(depth)]) == Some(depth + 1) && Read(Some(depth + 1), [Leave(depth)]) == Some(depth)
  {
    assert [Enter(depth)][1..] == [] && [Leave(depth)][1..] == [];
  }

  /** What a call adds to the trace. */
  ghost predicate Adds(before: Trace, after: Trace, events: Trace) {
    after == before + events
  }

  lemma {:induction false} HandlerIsNested(r: Route, idx: nat, trace: Trace) returns (events: Trace)
    requires AllTerminate(r.interceptors) && idx <= |r.interceptors|
    ensures Adds(trace, Handler(r, idx, trace).trace, events) && NestedAt(idx, events)
    ensures events != [] && events[0] == Enter(idx)
    decreases |r.interceptors| - idx, 1, 0
  {
    ReadOne(idx);
    if idx == |r.interceptors| {
      events := [Enter(idx)] + [Leave(idx)];
      ReadAppend(Some(idx), [Enter(idx)], [Leave(idx)]);
      assert trace + [Enter(idx)] + [Leave(idx)] == trace + events;
    } else {
      var inner := InterceptIsNested(r, idx, trace + [Enter(idx)], []);
      events := [Enter(idx)] + inner;
      ReadAppend(Some(idx), [Enter(idx)], inner);
      assert trace + [Enter(idx)] + inner == trace + events;
    }
  }

  /** The events from inside an interceptor: nested calls of the next, and its own end. */
  lemma {:induction false} InterceptIsNested(r: Route, idx: nat, trace: Trace, results: seq<Outcome>)
    returns (events: Trace)
    requires AllTerminate(r.interceptors) && idx < |r.interceptors|
    ensures Adds(trace, Intercept(r, idx, trace, results).trace, events)
    ensures Read(Some(idx + 1), events) == Some(idx) && forall k :: 0 <= k < |events| ==> Within(idx, events[k])
    decreases |r.interceptors| - idx, 0, r.interceptors[idx].maxCalls - |results|
  {
    ReadOne(idx);
    match r.interceptors[idx].move(trace, results)
    case Finish(outcome) => events := [Leave(idx)];
    case CallNext =>
      assert |results| < r.interceptors[idx].maxCalls;
      var called := HandlerIsNested(r, idx + 1, trace);
      var next := Handler(r, idx + 1, trace);
      var rest := InterceptIsNested(r, idx, next.trace, results + [next.outcome]);
      events := called + rest;
      ReadAppend(Some(idx + 1), called, rest);
      assert trace + called + rest == trace + events;
  }

  /** An interceptor that never calls `next` is all that runs: no later interceptor and not the handler. */
  lemma NotCallingNextSuppressesTheRest(r: Route, idx: nat, trace: Trace)
    requires AllTerminate(r.interceptors) && idx < |r.interceptors|
    requires r.interceptors[idx].move(trace + [Enter(idx)], []).Finish?
    ensures Handler(r, idx, trace) ==
            Ran(r.interceptors[idx].move(trace + [Enter(idx)], []).outcome, trace + [Enter(idx), Leave(idx)])
  {
    assert trace + [Enter(idx)] + [Leave(idx)] == trace + [Enter(idx), Leave(idx)];
  }

  /** An interceptor that calls `next` once and returns what it comes to. */
  ghost predicate PassesOn(i: Interceptor) {
    && (forall trace :: i.move(trace, []) == CallNext)
    && forall trace, outcome :: i.move(trace, [outcome]) == Finish(outcome)
  }

  /** The events of entering everything from `idx` to `n`, and of leaving it again from the inside out. */
  function Entering(idx: nat, n: nat): Trace
    decreases n - idx
  {
    if idx > n then [] else [Enter(idx)] + Entering(idx + 1, n)
  }

  function Leaving(idx: nat, n: nat): Trace
    decreases n - idx
  {
    if idx > n then [] else Leaving(idx + 1, n) + [Leave(idx)]
  }

  /** Interceptors that all pass on are each entered and left once, and the outcome is the endpoint's. */
  lemma {:induction false} PassingOnChangesNothing(r: Route, idx: nat, trace: Trace)
    requires AllTerminate(r.interceptors) && idx <= |r.interceptors|
    requires forall i :: 0 <= i < |r.interceptors| ==> PassesOn(r.interceptors[i])
    ensures var entered, n := trace + Entering(idx, |r.interceptors|), |r.interceptors|;
            Handler(r, idx, trace) == Ran(r.handle(entered), entered + Leaving(idx, n))
    decreases |r.interceptors| - idx
  {
    var n := |r.interceptors|;
    if idx < n {
      PassingOnChangesNothing(r, idx + 1, trace + [Enter(idx)]);
      PassedOnce(r, idx, trace + [Enter(idx)]);
      assert trace + [Enter(idx)] + Entering(idx + 1, n) == trace + Entering(idx, n);
      var entered := trace + Entering(idx, n);
      assert entered + Leaving(idx + 1, n) + [Leave(idx)] == entered + Leaving(idx, n);
    } else {
      assert Entering(n + 1, n) == [] && Leaving(n + 1, n) == [];
      assert Entering(n, n) == [Enter(n)] && Leaving(n, n) == [Leave(n)];
    }
  }

  lemma PassedOnce(r: Route, idx: nat, trace: Trace)
    requires AllTerminate(r.interceptors) && idx < |r.interceptors| && PassesOn(r.interceptors[idx])
    ensures var next := Handler(r, idx + 1, trace);
            Intercept(r, idx, trace, []) == Ran(next.outcome, next.trace + [Leave(idx)])
  {
    var next := Handler(r, idx + 1, trace);
    assert r.interceptors[idx].move(trace, []) == CallNext;
    assert Intercept(r, idx, trace, []) == Intercept(r, idx, next.trace, [] + [next.outcome]);
    assert [] + [next.outcome] == [next.outcome];
  }

  // ----- the fold -----

  /** An interceptor wrapped around any continuation. */
  ghost function Wrap(i: Interceptor, idx: nat, next: Trace -> Ran, trace: Trace, results: seq<Outcome>): Ran
    requires Terminates(i)
    decreases i.maxCalls - |results|
  {
    match i.move(trace, results)
    case Finish(outcome) => Ran(outcome, trace + [Leave(idx)])
    case CallNext =>
      assert |results| < i.maxCalls;
      Wrap(i, idx, next, next(trace).trace, results + [next(trace).outcome])
  }

  ghost function Around(i: Interceptor, idx: nat, next: Trace -> Ran): Trace -> Ran
    requires Terminates(i)
  {
    trace => Wrap(i, idx, next, trace + [Enter(idx)], [])
  }

  ghost function Endpoint(r: Route): Trace -> Ran {
    var n := |r.interceptors|;
    trace => Ran(r.handle(trace + [Enter(n)]), trace + [Enter(n)] + [Leave(n)])
  }

  /** The interceptors folded from the right over the endpoint. */
  ghost function Fold(r: Route, idx: nat): Trace -> Ran
    requires AllTerminate(r.interceptors) && idx <= |r.interceptors|
    decreases |r.interceptors| - idx
  {
    if idx == |r.interceptors| then Endpoint(r) else Around(r.interceptors[idx], idx, Fold(r, idx + 1))
  }

  lemma {:induction false} HandlerIsFold(r: Route, idx: nat, trace: Trace)
    requires AllTerminate(r.interceptors) && idx <= |r.interceptors|
    ensures Handler(r, idx, trace) == Fold(r, idx)(trace)
    decreases |r.interceptors| - idx, 1, 0
  {
    if idx < |r.interceptors| {
      InterceptIsWrap(r, idx, trace + [Enter(idx)], []);
    }
  }

  lemma {:induction false} InterceptIsWrap(r: Route, idx: nat, trace: Trace, results: seq<Outcome>)
    requires AllTerminate(r.interceptors) && idx < |r.interceptors|
    ensures Intercept(r, idx, trace, results) == Wrap(r.interceptors[idx], idx, Fold(r, idx + 1), trace, results)
    decreases |r.interceptors| - idx, 0, r.interceptors[idx].maxCalls - |results|
  {
    if r.interceptors[idx].move(trace, results).CallNext? {
      assert |results| < r.interceptors[idx].maxCalls;
      HandlerIsFold(r, idx + 1, trace);
      var next := Handler(r, idx + 1, trace);
      InterceptIsWrap(r, idx, next.trace, results + [next.outcome]);
    }
  }

  // ----- the whole request -----

  /** All interceptors are made before any runs. */
  function ResolveInterceptors(interceptors: seq<Interceptor>, k: nat, trace: Trace): (Option<int>, Trace)
    requires k <= |interceptors|
    decreases |interceptors| - k
  {
    if k == |interceptors| then (None, trace)
    else
      var trace1 := trace + [ResolveInterceptor(k)];
      var failed := interceptors[k].resolveFails(trace1);
      if failed.Some? then (failed, trace1) else ResolveInterceptors(interceptors, k + 1, trace1)
  }

  /** `execute` of the interceptor consumer; without interceptors the endpoint is called directly. */
  ghost function Execute(r: Route, trace: Trace): Ran
    requires AllTerminate(r.interceptors)
  {
    var (failed, trace1) := ResolveInterceptors(r.interceptors, 0, trace);
    if failed.Some? then Ran(Throws(failed.value), trace1)
    else
      var ran := if r.interceptors != [] then Handler(r, 0, trace1) else Endpoint(r)(trace1);
      match ran.outcome
      case Throws(exc) => ran
      case Returns(value) => if r.responseStarted(ran.trace) then ran else HandleResponse(r, value, ran.trace)
  }

  /** `handle_response`, which may raise in its turn. */
  function HandleResponse(r: Route, value: int, trace: Trace): Ran {
    var failed := r.respond(trace, value);
    Ran(if failed.Some? then Throws(failed.value) else Returns(value), trace + [Respond(value)])
  }

  /** `RouteOperationBase.app`: guards, then interceptors. */
  ghost function App(r: Route, trace: Trace): Ran
    requires AllTerminate(r.interceptors)
  {
    var (refused, trace1) := RunGuards(r.guards, 0, trace);
    if refused.Some? then Ran(Throws(refused.value), trace1) else Execute(r, trace1)
  }

  /** With no interceptors the direct call is what the recursion comes to. */
  lemma EmptyListAgrees(r: Route, trace: Trace)
    requires AllTerminate(r.interceptors) && r.interceptors == []
    ensures Handler(r, 0, trace) == Endpoint(r)(trace)
  {
  }

  /** The first interceptors, each made in its turn. */
  ghost predicate MadeInOrder(made: Trace) {
    forall i :: 0 <= i < |made| ==> made[i] == ResolveInterceptor(i)
  }

  /** Interceptor `i` is made after those before it, if nothing fails. */
  ghost predicate IsMade(interceptors: seq<Interceptor>, trace: Trace, made: Trace, i: nat)
    requires i < |interceptors| && i < |made|
  {
    interceptors[i].resolveFails(trace + made[..i + 1]).None?
  }

  /** All are made, or those up to the first that fails, with its exception. */
  ghost predicate Makes(interceptors: seq<Interceptor>, trace: Trace, made: Trace, failed: Option<int>) {
    && MadeInOrder(made) && |made| <= |interceptors|
    && match failed
       case None => |made| == |interceptors| && forall i :: 0 <= i < |made| ==> IsMade(interceptors, trace, made, i)
       case Some(exc) =>
         && made != [] && interceptors[|made| - 1].resolveFails(trace + made) == Some(exc)
         && forall i :: 0 <= i < |made| - 1 ==> IsMade(interceptors, trace, made, i)
  }

  lemma {:induction false} ResolvingMakes(interceptors: seq<Interceptor>, done: Trace, trace: Trace)
    returns (made: Trace)
    requires |done| <= |interceptors| && MadeInOrder(done)
    requires forall i :: 0 <= i < |done| ==> IsMade(interceptors, trace, done, i)
    ensures var (failed, after) := ResolveInterceptors(interceptors, |done|, trace + done);
            Adds(trace, after, made) && Makes(interceptors, trace, made, failed)
    decreases |interceptors| - |done|
  {
    made := done;
    var k := |done|;
    if k < |interceptors| {
      var more := done + [ResolveInterceptor(k)];
      assert trace + done + [ResolveInterceptor(k)] == trace + more;
      assert more[..k + 1] == more;
      forall i | 0 <= i < k
        ensures IsMade(interceptors, trace, more, i)
      {
        assert more[..i + 1] == done[..i + 1];
        assert IsMade(interceptors, trace, done, i);
      }
      if interceptors[k].resolveFails(trace + more).Some? {
        made := more;
      } else {
        made := ResolvingMakes(interceptors, more, trace);
      }
    }
  }

  predicate IsGuardEvent(e: Event) {
    e.ResolveGuard? || e.Activate?
  }

  lemma {:induction false} PairsAreGuardEvents(k: nat)
    ensures forall e :: e in GuardPairs(k) ==> IsGuardEvent(e)
  {
    if k > 0 {
      PairsAreGuardEvents(k - 1);
    }
  }

  /** When a guard does not let the request through, nothing but guards ever runs, and its exception comes out. */
  lemma RefusalPreventsEverythingElse(r: Route)
    requires AllTerminate(r.interceptors) && !AllPass(r.guards, [])
    ensures App(r, []).outcome.Throws? && forall e :: e in App(r, []).trace ==> IsGuardEvent(e)
    ensures StopsAt(r.guards, [], App(r, []).trace, App(r, []).outcome.exc)
  {
    GuardsRunInOrder(r.guards, []);
    var (refused, after) := RunGuards(r.guards, 0, []);
    assert App(r, []) == Ran(Throws(refused.value), after);
    var k: nat :| StopsAtGuard(r.guards, [], after, refused.value, k);
    PairsAreGuardEvents(k);
    PairsAreGuardEvents(k + 1);
  }

  /**
   When all guards pass, the trace is the guards, the making of the interceptors, one
   properly nested block of calls, and at most one response: one exactly when the calls
   return and nothing was sent before.  What comes out is what the response comes to, or
   else what the calls come to.  If an interceptor cannot be made nothing is called.
   */
  lemma AppTraceIsNested(r: Route)
    returns (made: Trace, failed: Option<int>, calls: Trace, called: Outcome, response: Trace)
    requires AllTerminate(r.interceptors) && AllPass(r.guards, [])
    ensures App(r, []).trace == GuardPairs(|r.guards|) + made + calls + response
    ensures Makes(r.interceptors, GuardPairs(|r.guards|), made, failed)
    ensures failed.Some? ==> calls == [] && response == [] && App(r, []).outcome == Throws(failed.value)
    ensures failed.None? ==>
              var before := GuardPairs(|r.guards|) + made;
              && calls != [] && NestedAt(0, calls) && calls[0] == Enter(0)
              && Handler(r, 0, before) == Ran(called, before + calls)
              && response == (if called.Returns? && !r.responseStarted(before + calls)
                              then [Respond(called.value)] else [])
              && App(r, []).outcome ==
                 if response != [] && r.respond(before + calls, called.value).Some? then
                   Throws(r.respond(before + calls, called.value).value)
                 else called
  {
    GuardsRunInOrder(r.guards, []);
    var pairs := GuardPairs(|r.guards|);
    assert [] + pairs == pairs && pairs + [] == pairs;
    made := ResolvingMakes(r.interceptors, [], pairs);
    calls, response := [], [];
    called := App(r, []).outcome;
    var (broken, trace1) := ResolveInterceptors(r.interceptors, 0, pairs);
    failed := broken;
    if failed.None? {
      calls := HandlerIsNested(r, 0, trace1);
      if r.interceptors == [] {
        EmptyListAgrees(r, trace1);
      }
      var ran := Handler(r, 0, trace1);
      called := ran.outcome;
      if called.Returns? && !r.responseStarted(ran.trace) {
        response := [Respond(called.value)];
      }
    }
  }
}
