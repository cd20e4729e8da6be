/**
 The route caching interceptor over the timed map.  Requests interleave freely:
 each asks the cache, maybe runs its handler, stores what the handler gave and
 replies.  Other clients may read and delete the entries the interceptor
 writes, and do anything to entries it does not.
 */
module CacheInterceptor {
  import opened Prelude
  import opened CacheKeys
  import opened CacheSpec

  /** The options of one route, with the key its callback made for this request. */
  datatype RouteOptions = RouteOptions(key: string, version: Option<string>, ttl: real)

  datatype Phase =
    | Asking                                      // before the cache is read
    | Handling                                    // missed; the handler runs
    | Storing(response: Value)                    // the handler returned
    | Replied(response: Value, fromCache: bool, at: Instant)

  datatype Request = Request(options: RouteOptions, phase: Phase)

  /** The response request `author` wrote to the cache at `at`; history only. */
  datatype Written = Written(author: int, key: Key, response: Value, at: Instant, ttl: real)

  datatype World = World(cache: Timed, clock: Instant, requests: map<int, Request>, written: seq<Written>)

  datatype Step =
    | Arrive(id: int, options: RouteOptions)
    | Ask(id: int)
    | HandlerReturns(id: int, response: Value)
    | Write(id: int)
    | Foreign(key: Key, op: Op)
    | Tick(elapsed: Instant)

  function FullKey(cfg: Config, o: RouteOptions): Key {
    MakeKey(cfg, o.key, o.version)
  }

  /** What other clients may do: on a key of the interceptor they only read and delete. */
  predicate Permitted(owned: set<Key>, key: Key, op: Op) {
    key in owned ==> op.Get? || op.HasKey? || op.Delete?
  }

  function Enter(w: World, id: int, phase: Phase): World
    requires id in w.requests
  {
    w.(requests := w.requests[id := w.requests[id].(phase := phase)])
  }

  function After(cfg: Config, owned: set<Key>, w: World, step: Step): World {
    match step
    case Arrive(id, o) =>
      if id in w.requests || FullKey(cfg, o) !in owned then w
      else w.(requests := w.requests[id := Request(o, Asking)])
    case Ask(id) =>
      if id !in w.requests || !w.requests[id].phase.Asking? then w
      else
        var (cache', reply) := Apply(cfg, w.cache, FullKey(cfg, w.requests[id].options), Get, w.clock, w.clock);
        if reply.Found? && Truthy(reply.value) then
          Enter(w, id, Replied(reply.value, true, w.clock)).(cache := cache')
        else Enter(w, id, Handling).(cache := cache')
    case HandlerReturns(id, response) =>
      if id !in w.requests || !w.requests[id].phase.Handling? then w
      else Enter(w, id, Storing(response))
    case Write(id) =>
      if id !in w.requests || !w.requests[id].phase.Storing? then w
      else
        var Request(o, Storing(response)) := w.requests[id];
        var op := Set(response, Some(o.ttl));
        Enter(w, id, Replied(response, false, w.clock)).(
          cache := Apply(cfg, w.cache, FullKey(cfg, o), op, w.clock, w.clock).0,
          written := w.written + [Written(id, FullKey(cfg, o), response, w.clock, o.ttl)])
    case Foreign(key, op) =>
      if Permitted(owned, key, op) then w.(cache := Apply(cfg, w.cache, key, op, w.clock, w.clock).0) else w
    case Tick(d) => w.(clock := w.clock + d)
  }

  /** A run from any cache in which the interceptor has not written yet. */
  function Execution(cfg: Config, owned: set<Key>, initial: Timed, steps: seq<Step>): World {
    if steps == [] then World(initial, 0.0, map[], [])
    else After(cfg, owned, Execution(cfg, owned, initial, steps[..|steps| - 1]), steps[|steps| - 1])
  }

  /** The entry is what the `i`-th write left. */
  ghost predicate WrittenBy(cfg: Config, written: seq<Written>, i: int, key: Key, e: Entry) {
    && 0 <= i < |written|
    && written[i].key == key
    && e == Entry(written[i].response, Deadline(cfg, Some(written[i].ttl), written[i].at))
  }

  /** A response served from the cache at `at` was written for that key, and is younger than its ttl. */
  ghost predicate Served(written: seq<Written>, i: int, key: Key, response: Value, at: Instant) {
    && 0 <= i < |written|
    && written[i].key == key
    && written[i].response == response
    && written[i].at <= at
    && at - written[i].at < written[i].ttl
  }

  ghost predicate Fresh(cfg: Config, w: World, id: int)
    requires id in w.requests
  {
    var Request(o, phase) := w.requests[id];
    phase.Replied? && phase.fromCache ==>
      && Truthy(phase.response)
      && exists i :: Served(w.written, i, FullKey(cfg, o), phase.response, phase.at)
  }

  /** Each write was made by a request whose own handler gave the response. */
  ghost predicate Handled(cfg: Config, w: World, i: int)
    requires 0 <= i < |w.written|
  {
    var e := w.written[i];
    && e.author in w.requests
    && w.requests[e.author].phase == Replied(e.response, false, e.at)
    && FullKey(cfg, w.requests[e.author].options) == e.key
    && e.ttl == w.requests[e.author].options.ttl
    && e.at <= w.clock
  }

  ghost predicate Invariant(cfg: Config, owned: set<Key>, w: World) {
    && (forall id :: id in w.requests ==> FullKey(cfg, w.requests[id].options) in owned)
    && (forall i :: 0 <= i < |w.written| ==> Handled(cfg, w, i))
    && (forall k :: k in w.cache && k in owned ==> exists i :: WrittenBy(cfg, w.written, i, k, w.cache[k]))
    && (forall id :: id in w.requests ==> Fresh(cfg, w, id))
  }

  /** More writes on record take nothing away from what was served before. */
  lemma FreshSurvives(cfg: Config, w: World, w': World, id: int)
    requires id in w.requests && id in w'.requests && w.requests[id] == w'.requests[id]
    requires w.written <= w'.written && Fresh(cfg, w, id)
    ensures Fresh(cfg, w', id)
  {
    var Request(o, phase) := w.requests[id];
    if phase.Replied? && phase.fromCache {
      var i :| Served(w.written, i, FullKey(cfg, o), phase.response, phase.at);
      assert Served(w'.written, i, FullKey(cfg, o), phase.response, phase.at);
    }
  }

  lemma HandledSurvives(cfg: Config, w: World, w': World)
    requires forall i :: 0 <= i < |w.written| ==> Handled(cfg, w, i)
    requires w.written <= w'.written && w.clock <= w'.clock
    requires forall id :: id in w.requests && w.requests[id].phase.Replied? ==>
               id in w'.requests && w'.requests[id] == w.requests[id]
    ensures forall i :: 0 <= i < |w.written| ==> Handled(cfg, w', i)
  {
    forall i | 0 <= i < |w.written|
      ensures Handled(cfg, w', i)
    {
      assert Handled(cfg, w, i);
    }
  }

  lemma AskKeepsInvariant(cfg: Config, owned: set<Key>, w: World, id: int)
    requires Invariant(cfg, owned, w)
    requires id in w.requests && w.requests[id].phase.Asking?
    ensures Invariant(cfg, owned, After(cfg, owned, w, Ask(id)))
  {
    var w' := After(cfg, owned, w, Ask(id));
    var key := FullKey(cfg, w.requests[id].options);
    HandledSurvives(cfg, w, w');
    forall j | j in w'.requests
      ensures Fresh(cfg, w', j)
    {
      if j != id {
        FreshSurvives(cfg, w, w', j);
      } else if w'.requests[id].phase.Replied? {
        var i :| WrittenBy(cfg, w.written, i, key, w.cache[key]);
        assert Handled(cfg, w, i);
        assert Served(w'.written, i, key, w'.requests[id].phase.response, w.clock);
      }
    }
  }

  lemma WriteKeepsInvariant(cfg: Config, owned: set<Key>, w: World, id: int)
    requires Invariant(cfg, owned, w)
    requires id in w.requests && w.requests[id].phase.Storing?
    ensures Invariant(cfg, owned, After(cfg, owned, w, Write(id)))
  {
    var w' := After(cfg, owned, w, Write(id));
    var key := FullKey(cfg, w.requests[id].options);
    HandledSurvives(cfg, w, w');
    forall k | k in w'.cache && k in owned
      ensures exists i :: WrittenBy(cfg, w'.written, i, k, w'.cache[k])
    {
      if k == key {
        assert WrittenBy(cfg, w'.written, |w.written|, k, w'.cache[k]);
      } else {
        var i :| WrittenBy(cfg, w.written, i, k, w.cache[k]);
        assert WrittenBy(cfg, w'.written, i, k, w'.cache[k]);
      }
    }
    forall j | j in w'.requests
      ensures Fresh(cfg, w', j)
    {
      if j != id {
        FreshSurvives(cfg, w, w', j);
      }
    }
  }

  lemma AfterKeepsInvariant(cfg: Config, owned: set<Key>, w: World, step: Step)
    requires Invariant(cfg, owned, w)
    ensures Invariant(cfg, owned, After(cfg, owned, w, step))
  {
    var w' := After(cfg, owned, w, step);
    match step
    case Ask(id) =>
      if id in w.requests && w.requests[id].phase.Asking? {
        AskKeepsInvariant(cfg, owned, w, id);
      }
    case Write(id) =>
      if id in w.requests && w.requests[id].phase.Storing? {
        WriteKeepsInvariant(cfg, owned, w, id);
      }
    case _ =>
      HandledSurvives(cfg, w, w');
      forall j | j in w'.requests && j in w.requests && w'.requests[j] == w.requests[j]
        ensures Fresh(cfg, w', j)
      {
        FreshSurvives(cfg, w, w', j);
      }
      forall k | k in w'.cache && k in owned
        ensures exists i :: WrittenBy(cfg, w'.written, i, k, w'.cache[k])
      {
        assert k in w.cache && w'.cache[k] == w.cache[k];
      }
  }

  lemma {:induction false} EveryExecutionKeepsInvariant(cfg: Config, owned: set<Key>, initial: Timed, steps: seq<Step>)
    requires initial.Keys !! owned
    ensures Invariant(cfg, owned, Execution(cfg, owned, initial, steps))
  {
    if steps != [] {
      EveryExecutionKeepsInvariant(cfg, owned, initial, steps[..|steps| - 1]);
      AfterKeepsInvariant(cfg, owned, Execution(cfg, owned, initial, steps[..|steps| - 1]), steps[|steps| - 1]);
    }
  }

  /**
   In every run where only the interceptor writes a route's entries, a response
   served from the cache is truthy, is what the handler of an earlier request
   for the same key and version gave, and was stored less than its ttl ago.
   (Versions with a colon can make different keys meet: `ColonVersionsCollide`.)
   */
  lemma CachedResponsesAreFresh(cfg: Config, owned: set<Key>, initial: Timed, steps: seq<Step>, id: int)
    requires initial.Keys !! owned
    requires var w := Execution(cfg, owned, initial, steps);
             && id in w.requests && w.requests[id].phase.Replied? && w.requests[id].phase.fromCache
             && forall j :: j in w.requests ==> ColonFree(w.requests[j].options.version)
    ensures var w := Execution(cfg, owned, initial, steps);
            var Request(o, phase) := w.requests[id];
            && Truthy(phase.response)
            && exists j :: j in w.requests &&
                 var Request(o', phase') := w.requests[j];
                 && o'.key == o.key && VersionText(cfg, o'.version) == VersionText(cfg, o.version)
                 && phase'.Replied? && !phase'.fromCache && phase'.response == phase.response
                 && phase'.at <= phase.at && phase.at - phase'.at < o'.ttl
  {
    EveryExecutionKeepsInvariant(cfg, owned, initial, steps);
    var w := Execution(cfg, owned, initial, steps);
    var Request(o, phase) := w.requests[id];
    assert Fresh(cfg, w, id);
    var i :| Served(w.written, i, FullKey(cfg, o), phase.response, phase.at);
    assert Handled(cfg, w, i);
    var j := w.written[i].author;
    MakeKeyInjective(cfg, o.key, o.version, w.requests[j].options.key, w.requests[j].options.version);
    assert j in w.requests;
  }

  /** A falsy response is never served, however often it is stored. */
  lemma FalsyResponsesAreNeverServed(cfg: Config, owned: set<Key>, initial: Timed, steps: seq<Step>, id: int)
    requires initial.Keys !! owned
    requires var w := Execution(cfg, owned, initial, steps);
             id in w.requests && w.requests[id].phase.Replied? && !Truthy(w.requests[id].phase.response)
    ensures !Execution(cfg, owned, initial, steps).requests[id].phase.fromCache
  {
    EveryExecutionKeepsInvariant(cfg, owned, initial, steps);
    assert Fresh(cfg, Execution(cfg, owned, initial, steps), id);
  }

  // ----- where a reply comes from -----

  /** Step `k` of the run is the one in which the running handler of request `id` returned the response. */
  ghost predicate HandlerGave(
      cfg: Config, owned: set<Key>, initial: Timed, steps: seq<Step>, id: int, response: Value, k: nat)
  {
    && k < |steps| && steps[k] == HandlerReturns(id, response)
    && var w := Execution(cfg, owned, initial, steps[..k]);
       id in w.requests && w.requests[id].phase.Handling?
  }

  /** A response waiting to be stored, or sent without having been served, is one that the handler gave. */
  predicate FromHandler(phase: Phase, response: Value) {
    phase == Storing(response) || (phase.Replied? && !phase.fromCache && phase.response == response)
  }

  lemma {:induction false} ResponsesComeFromHandlers(
      cfg: Config, owned: set<Key>, initial: Timed, steps: seq<Step>, id: int, response: Value) returns (k: nat)
    requires var w := Execution(cfg, owned, initial, steps);
             id in w.requests && FromHandler(w.requests[id].phase, response)
    ensures HandlerGave(cfg, owned, initial, steps, id, response, k)
    decreases |steps|
  {
    var n := |steps| - 1;
    var w, w' := Execution(cfg, owned, initial, steps[..n]), Execution(cfg, owned, initial, steps);
    assert w' == After(cfg, owned, w, steps[n]);
    if id in w.requests && FromHandler(w.requests[id].phase, response) {
      k := ResponsesComeFromHandlers(cfg, owned, initial, steps[..n], id, response);
      assert steps[..n][..k] == steps[..k];
    } else {
      k := n;
    }
  }

  /** A reply that was not served from the cache is what the request's own handler returned while it was running. */
  lemma RepliesComeFromOwnHandler(
      cfg: Config, owned: set<Key>, initial: Timed, steps: seq<Step>, id: int, response: Value, at: Instant)
    requires var w := Execution(cfg, owned, initial, steps);
             id in w.requests && w.requests[id].phase == Replied(response, false, at)
    ensures exists k: nat :: HandlerGave(cfg, owned, initial, steps, id, response, k)
  {
    var k := ResponsesComeFromHandlers(cfg, owned, initial, steps, id, response);
  }

  /**
   A response served from the cache was returned by some request's handler, earlier in the run, for the same
   key and version.
   */
  lemma CachedResponsesComeFromHandlers(cfg: Config, owned: set<Key>, initial: Timed, steps: seq<Step>, id: int)
    requires initial.Keys !! owned
    requires var w := Execution(cfg, owned, initial, steps);
             && id in w.requests && w.requests[id].phase.Replied? && w.requests[id].phase.fromCache
             && forall j :: j in w.requests ==> ColonFree(w.requests[j].options.version)
    ensures var w := Execution(cfg, owned, initial, steps);
            var Request(o, phase) := w.requests[id];
            exists j: int, k: nat :: j in w.requests && HandlerGave(cfg, owned, initial, steps, j, phase.response, k) &&
              w.requests[j].options.key == o.key &&
              VersionText(cfg, w.requests[j].options.version) == VersionText(cfg, o.version)
  {
    CachedResponsesAreFresh(cfg, owned, initial, steps, id);
    var w := Execution(cfg, owned, initial, steps);
    var Request(o, phase) := w.requests[id];
    var j :| j in w.requests && w.requests[j].options.key == o.key
      && VersionText(cfg, w.requests[j].options.version) == VersionText(cfg, o.version)
      && FromHandler(w.requests[j].phase, phase.response);
    var k := ResponsesComeFromHandlers(cfg, owned, initial, steps, j, phase.response);
  }

  // ----- when the cache is used -----

  /** One more step at the end of a run. */
  lemma ExecutionSnoc(cfg: Config, owned: set<Key>, initial: Timed, steps: seq<Step>, step: Step)
    ensures Execution(cfg, owned, initial, steps + [step]) ==
            After(cfg, owned, Execution(cfg, owned, initial, steps), step)
  {
    assert (steps + [step])[..|steps|] == steps;
  }

  /** What Python takes for true: not None, not zero, and no object that is empty. */
  predicate IsServed(v: Value) {
    match v
    case Nil => false
    case Int(n) => n < 0 || n > 0
    case Data(id, truthy) => truthy
  }

  /**
   Asking: with a live, truthy entry under its key a request replies with it at once, without its handler;
   otherwise the handler runs.  Either way nothing else changes.
   */
  lemma AskingUsesTheCache(cfg: Config, owned: set<Key>, initial: Timed, steps: seq<Step>, id: int)
    requires var w := Execution(cfg, owned, initial, steps); id in w.requests && w.requests[id].phase.Asking?
    ensures var w := Execution(cfg, owned, initial, steps);
            var w' := Execution(cfg, owned, initial, steps + [Ask(id)]);
            var o := w.requests[id].options;
            var key := cfg.prefix + ":" + VersionText(cfg, o.version) + ":" + o.key;
            && id in w'.requests && w'.requests[id].options == o
            && w'.cache == w.cache && w'.clock == w.clock && w'.written == w.written
            && (if key in w.cache && w.clock < w.cache[key].deadline && IsServed(w.cache[key].value)
                then w'.requests[id].phase == Replied(w.cache[key].value, true, w.clock)
                else w'.requests[id].phase == Handling)
            && forall other :: other in w.requests && other != id ==>
                 other in w'.requests && w'.requests[other] == w.requests[other]
  {
    ExecutionSnoc(cfg, owned, initial, steps, Ask(id));
  }

  /**
   A miss, from arriving to replying: the request asks, its handler runs and gives a response, and this is
   stored and sent.
   */
  lemma MissRunsTheHandler(
      cfg: Config, owned: set<Key>, initial: Timed, steps: seq<Step>, id: int, o: RouteOptions, response: Value)
    requires var w := Execution(cfg, owned, initial, steps);
             && id !in w.requests && FullKey(cfg, o) in owned
             && !(Live(w.cache, FullKey(cfg, o), w.clock) && Truthy(w.cache[FullKey(cfg, o)].value))
    ensures var w := Execution(cfg, owned, initial, steps);
            var w' := Execution(cfg, owned, initial,
                                steps + [Arrive(id, o)] + [Ask(id)] + [HandlerReturns(id, response)] + [Write(id)]);
            && id in w'.requests && w'.requests[id] == Request(o, Replied(response, false, w.clock))
            && FullKey(cfg, o) in w'.cache && w'.cache[FullKey(cfg, o)].value == response
            && (o.ttl != 0.0 ==> w'.cache[FullKey(cfg, o)].deadline == w.clock + o.ttl)
            && w'.clock == w.clock && w'.written == w.written + [Written(id, FullKey(cfg, o), response, w.clock, o.ttl)]
  {
    var arrived := steps + [Arrive(id, o)];
    ExecutionSnoc(cfg, owned, initial, steps, Arrive(id, o));
    AskingUsesTheCache(cfg, owned, initial, arrived, id);
    ExecutionSnoc(cfg, owned, initial, arrived + [Ask(id)], HandlerReturns(id, response));
    ExecutionSnoc(cfg, owned, initial, arrived + [Ask(id)] + [HandlerReturns(id, response)], Write(id));
  }

  /** What other clients do to entries of their own, and reading and deleting anywhere, takes effect at once. */
  lemma OtherClientsAct(cfg: Config, owned: set<Key>, initial: Timed, steps: seq<Step>, key: Key, v: Value)
    ensures var w' := Execution(cfg, owned, initial, steps + [Foreign(key, Delete)]); key !in w'.cache
    ensures var w' := Execution(cfg, owned, initial, steps + [Foreign(key, Set(v, None))]);
            if key in owned then w' == Execution(cfg, owned, initial, steps)
            else key in w'.cache && w'.cache[key].value == v
    ensures forall d: Instant ::
              Execution(cfg, owned, initial, steps + [Tick(d)]).clock == Execution(cfg, owned, initial, steps).clock + d
  {
    ExecutionSnoc(cfg, owned, initial, steps, Foreign(key, Delete));
    ExecutionSnoc(cfg, owned, initial, steps, Foreign(key, Set(v, None)));
    forall d: Instant
      ensures Execution(cfg, owned, initial, steps + [Tick(d)]).clock == Execution(cfg, owned, initial, steps).clock + d
    {
      ExecutionSnoc(cfg, owned, initial, steps, Tick(d));
    }
  }

  /** Steps that leave a stored response alone: no write to its key, and no other client taking it away. */
  ghost predicate Leaves(cfg: Config, w: World, key: Key, step: Step) {
    match step
    case Write(id) => id in w.requests ==> FullKey(cfg, w.requests[id].options) != key
    case Foreign(k, op) => k == key ==> OnlyReads(op)
    case Arrive(id, o) => true
    case Ask(id) => true
    case HandlerReturns(id, response) => true
    case Tick(d) => true
  }

  /** The steps after the first `n` all leave it alone. */
  ghost predicate LeftAlone(cfg: Config, owned: set<Key>, initial: Timed, steps: seq<Step>, n: nat, key: Key) {
    forall k :: n <= k < |steps| ==> Leaves(cfg, Execution(cfg, owned, initial, steps[..k]), key, steps[k])
  }

  lemma {:induction false} EntryStays(cfg: Config, owned: set<Key>, initial: Timed, steps: seq<Step>, n: nat, key: Key)
    requires n <= |steps| && LeftAlone(cfg, owned, initial, steps, n, key)
    requires key in Execution(cfg, owned, initial, steps[..n]).cache
    ensures key in Execution(cfg, owned, initial, steps).cache
    ensures Execution(cfg, owned, initial, steps).cache[key] == Execution(cfg, owned, initial, steps[..n]).cache[key]
    decreases |steps|
  {
    if n == |steps| {
      assert steps[..n] == steps;
    } else {
      var m := |steps| - 1;
      assert steps[..m][..n] == steps[..n];
      forall k | n <= k < m
        ensures Leaves(cfg, Execution(cfg, owned, initial, steps[..m][..k]), key, steps[..m][k])
      {
        assert steps[..m][..k] == steps[..k];
      }
      EntryStays(cfg, owned, initial, steps[..m], n, key);
      assert Leaves(cfg, Execution(cfg, owned, initial, steps[..m]), key, steps[m]);
      EntryStaysOnce(cfg, owned, Execution(cfg, owned, initial, steps[..m]), key, steps[m]);
    }
  }

  lemma EntryStaysOnce(cfg: Config, owned: set<Key>, w: World, key: Key, step: Step)
    requires Leaves(cfg, w, key, step) && key in w.cache
    ensures key in After(cfg, owned, w, step).cache && After(cfg, owned, w, step).cache[key] == w.cache[key]
  {
  }

  /** Writing stores the handler's response under the request's key, for its ttl. */
  lemma WritingStores(cfg: Config, owned: set<Key>, initial: Timed, steps: seq<Step>, id: int)
    requires var w := Execution(cfg, owned, initial, steps); id in w.requests && w.requests[id].phase.Storing?
    ensures var w := Execution(cfg, owned, initial, steps);
            var w' := Execution(cfg, owned, initial, steps + [Write(id)]);
            var Request(o, Storing(response)) := w.requests[id];
            var key := FullKey(cfg, o);
            && id in w'.requests && w'.requests[id].phase == Replied(response, false, w.clock)
            && key in w'.cache && w'.cache[key].value == response
            && (o.ttl != 0.0 ==> w'.cache[key].deadline == w.clock + o.ttl)
  {
    ExecutionSnoc(cfg, owned, initial, steps, Write(id));
  }

  /**
   The cache works: after a truthy response was stored, a request for the same key and version that asks
   within its ttl is served this response, and its handler does not run, unless the entry was written again
   or changed from outside in between.
   */
  lemma WarmCacheServes(
      cfg: Config, owned: set<Key>, initial: Timed, steps: seq<Step>, author: int, more: seq<Step>, id: int)
    requires var w := Execution(cfg, owned, initial, steps);
             && author in w.requests && w.requests[author].phase.Storing?
             && Truthy(w.requests[author].phase.response) && w.requests[author].options.ttl > 0.0
    requires var w := Execution(cfg, owned, initial, steps);
             var later := Execution(cfg, owned, initial, steps + [Write(author)] + more);
             && id in later.requests && later.requests[id].phase.Asking?
             && FullKey(cfg, later.requests[id].options) == FullKey(cfg, w.requests[author].options)
             && later.clock < w.clock + w.requests[author].options.ttl
             && LeftAlone(cfg, owned, initial, steps + [Write(author)] + more, |steps| + 1,
                          FullKey(cfg, w.requests[author].options))
    ensures var w := Execution(cfg, owned, initial, steps);
            var all := steps + [Write(author)] + more;
            var w' := Execution(cfg, owned, initial, all + [Ask(id)]);
            id in w'.requests &&
            w'.requests[id].phase ==
            Replied(w.requests[author].phase.response, true, Execution(cfg, owned, initial, all).clock)
  {
    var key := FullKey(cfg, Execution(cfg, owned, initial, steps).requests[author].options);
    var all := steps + [Write(author)] + more;
    WritingStores(cfg, owned, initial, steps, author);
    assert all[..|steps| + 1] == steps + [Write(author)];
    EntryStays(cfg, owned, initial, all, |steps| + 1, key);
    AskingUsesTheCache(cfg, owned, initial, all, id);
  }
}
