/**
 The cache under concurrent use.  Every dictionary access, every clock reading
 and every lock operation is a step of its own; any number of tasks interleave
 their steps and the clock advances between any two of them.
 */
module CacheConcurrency {
  import opened Prelude
  import opened CacheKeys
  import opened CacheSpec

  /** Where a task stands inside its operation; `t1` is its first clock reading. */
  datatype Pc =
    | Waiting                                        // for the lock
    | Entered                                        // has the lock, nothing done
    | Popping(t1: Instant, reply: Reply)             // about to pop the cache
    | PoppingDeadline(t1: Instant, reply: Reply)     // about to pop the deadline
    | Alive(t1: Instant)                             // the key has not expired
    | Stored                                         // value written, deadline missing
    | Loaded(t1: Instant, value: Value)              // counter read, not yet written
    | Below(t1: Instant, res: int)                   // a negative counter is in the cache
    | Reloaded(t1: Instant, res: int, value: Value)  // and has been read back
    | Leaving(t1: Instant, t2: Instant, reply: Reply)
    | Done(reply: Reply)
    | Cancelled

  datatype Task = Task(key: Key, op: Op, pc: Pc)

  /** `entry` and `log` record history: the store when the lock last changed hands, the finished operations. */
  datatype System = System(
    store: Store, lock: Option<int>, clock: Instant, tasks: map<int, Task>,
    entry: Store, log: seq<Event>)

  datatype Step =
    | Invoke(task: int, key: Key, op: Op)
    | Cancel(task: int)
    | Tick(elapsed: Instant)
    | Proceed(task: int)

  const Initial := System(EmptyStore, None, 0.0, map[], EmptyStore, [])

  predicate Critical(pc: Pc) {
    !pc.Waiting? && !pc.Done? && !pc.Cancelled?
  }

  /** One step inside an operation, on the shared store. */
  function Inside(cfg: Config, store: Store, key: Key, op: Op, pc: Pc, now: Instant): (Store, Pc) {
    match pc
    case Entered => Begin(store, key, op, now)
    case Popping(t1, reply) =>
      if key in store.cache then
        (store.(cache := store.cache - {key}), PoppingDeadline(t1, reply))
      else
        (store, Leaving(t1, now, if op.Delete? then Flag(false) else reply))
    case PoppingDeadline(t1, reply) =>
      if key in store.expire then
        (store.(expire := store.expire - {key}), Leaving(t1, now, reply))
      else
        (store, Leaving(t1, now, if op.Delete? then Flag(false) else reply))
    case Alive(t1) =>
      if op.Touch? then
        (store.(expire := store.expire[key := Deadline(cfg, op.ttl, now)]), Leaving(t1, now, Flag(true)))
      else if key !in store.cache then (store, Leaving(t1, now, MissingEntry))
      else if op.Get? then (store, Leaving(t1, now, Found(store.cache[key])))
      else (store, Loaded(t1, store.cache[key]))
    case Stored =>
      (if op.Set? then store.(expire := store.expire[key := Deadline(cfg, op.ttl, now)]) else store,
       Leaving(now, now, Flag(true)))
    case Loaded(t1, v) =>
      if !v.Int? then (store, Leaving(t1, now, NotANumber))
      else
        var res := v.n + Change(op);
        (store.(cache := store.cache[key := Int(res)]),
         if op.Decr? && res < 0 then Below(t1, res) else Leaving(t1, now, Number(res)))
    case Below(t1, res) =>
      if key in store.cache then (store, Reloaded(t1, res, store.cache[key]))
      else (store, Leaving(t1, now, MissingEntry))
    case Reloaded(t1, res, v) =>
      if !v.Int? then (store, Leaving(t1, now, NotANumber))
      else
        (store.(cache := store.cache[key := Int(v.n + res * -1)]), Leaving(t1, now, Number(v.n + res * -1)))
    case _ => (store, pc)
  }

  function Change(op: Op): int {
    match op
    case Incr(d) => d
    case Decr(d) => d * -1
    case _ => 0
  }

  /** The first step with the lock held. */
  function Begin(store: Store, key: Key, op: Op, now: Instant): (Store, Pc) {
    var expired := HasExpired(store, key, now);
    match op
    case Get => (store, if expired then Popping(now, Found(Nil)) else Alive(now))
    case HasKey => (store, if expired then Popping(now, Flag(false)) else Leaving(now, now, Flag(true)))
    case Delete => (store, Popping(now, Flag(true)))
    case Set(v, _) => (store.(cache := store.cache[key := v]), Stored)
    case Touch(_) => (store, if expired then Leaving(now, now, Flag(false)) else Alive(now))
    case Incr(_) => (store, if expired then Popping(now, KeyNotFound) else Alive(now))
    case Decr(_) => (store, if expired then Popping(now, KeyNotFound) else Alive(now))
  }

  /** One step of task `t`. */
  function Proceeded(cfg: Config, s: System, t: int): System
    requires t in s.tasks
  {
    var Task(key, op, pc) := s.tasks[t];
    match pc
    case Waiting =>
      if s.lock == None then
        s.(tasks := s.tasks[t := Task(key, op, Entered)], lock := Some(t), entry := s.store)
      else s
    case Leaving(t1, t2, reply) =>
      s.(tasks := s.tasks[t := Task(key, op, Done(reply))], lock := None, entry := s.store,
         log := s.log + [Event(t, key, op, t1, t2, reply)])
    case _ =>
      var (store', pc') := Inside(cfg, s.store, key, op, pc, s.clock);
      s.(tasks := s.tasks[t := Task(key, op, pc')], store := store')
  }

  /** Any step; one that is not possible changes nothing. */
  function After(cfg: Config, s: System, step: Step): System {
    match step
    case Invoke(t, key, op) => if t in s.tasks then s else s.(tasks := s.tasks[t := Task(key, op, Waiting)])
    case Cancel(t) => if t in s.tasks && s.tasks[t].pc.Waiting? then
        s.(tasks := s.tasks[t := s.tasks[t].(pc := Cancelled)])
      else s
    case Tick(d) => s.(clock := s.clock + d)
    case Proceed(t) => if t in s.tasks then Proceeded(cfg, s, t) else s
  }

  function Execution(cfg: Config, steps: seq<Step>): System {
    if steps == [] then Initial
    else After(cfg, Execution(cfg, steps[..|steps| - 1]), steps[|steps| - 1])
  }

  // ----- the invariant -----

  /** The store of a task in mid-operation, in terms of the store it found on entry. */
  ghost predicate Midway(cfg: Config, entry: Store, store: Store, key: Key, op: Op, pc: Pc) {
    match pc
    case Entered => store == entry
    case Popping(t1, reply) =>
      && store == entry
      && (op.Delete? ==> reply == Flag(true))
      && (!op.Delete? ==> op.Get? || op.HasKey? || op.Incr? || op.Decr?)
      && (!op.Delete? ==> HasExpired(entry, key, t1) &&
                          Run(cfg, entry, key, op, t1, t1) == (Pop(entry, key).0, reply))
    case PoppingDeadline(t1, reply) =>
      && key in entry.cache
      && store == entry.(cache := entry.cache - {key})
      && Run(cfg, entry, key, op, t1, t1) == (Pop(entry, key).0, reply)
      && !op.Touch?
    case Alive(t1) =>
      store == entry && !HasExpired(entry, key, t1) && (op.Get? || op.Touch? || op.Incr? || op.Decr?)
    case Stored => op.Set? && store == entry.(cache := entry.cache[key := op.value])
    case Loaded(t1, v) =>
      && store == entry && !HasExpired(entry, key, t1) && (op.Incr? || op.Decr?)
      && key in entry.cache && entry.cache[key] == v
    case Below(t1, res) =>
      && op.Decr? && !HasExpired(entry, key, t1)
      && key in entry.cache && entry.cache[key].Int? && res == entry.cache[key].n - op.delta < 0
      && store == entry.(cache := entry.cache[key := Int(res)])
    case Reloaded(t1, res, v) =>
      && op.Decr? && !HasExpired(entry, key, t1)
      && key in entry.cache && entry.cache[key].Int? && res == entry.cache[key].n - op.delta < 0
      && store == entry.(cache := entry.cache[key := Int(res)])
      && v == Int(res)
    case Leaving(t1, t2, reply) =>
      (store, reply) == Run(cfg, entry, key, op, t1, t2)
    case _ => false
  }

  /** The clock readings of a task lie between the end of the log and now. */
  ghost predicate Timely(pc: Pc, last: real, now: real) {
    match pc
    case Popping(t1, _) => last <= t1 <= now
    case PoppingDeadline(t1, _) => last <= t1 <= now
    case Alive(t1) => last <= t1 <= now
    case Loaded(t1, _) => last <= t1 <= now
    case Below(t1, _) => last <= t1 <= now
    case Reloaded(t1, _, _) => last <= t1 <= now
    case Leaving(t1, t2, _) => last <= t1 <= t2 <= now
    case _ => true
  }

  ghost predicate Logged(log: seq<Event>, t: int, task: Task, i: int) {
    && 0 <= i < |log|
    && log[i].task == t && log[i].key == task.key && log[i].op == task.op
    && task.pc == Done(log[i].reply)
  }

  /** Exactly the finished tasks are in the log, each once. */
  ghost predicate LogMatchesTasks(s: System) {
    && (forall i :: 0 <= i < |s.log| ==>
          s.log[i].task in s.tasks && Logged(s.log, s.log[i].task, s.tasks[s.log[i].task], i))
    && (forall i, j :: 0 <= i < j < |s.log| ==> s.log[i].task != s.log[j].task)
    && (forall t :: t in s.tasks && s.tasks[t].pc.Done? ==> exists i :: Logged(s.log, t, s.tasks[t], i))
  }

  /** Mutual exclusion: the lock's owner is the one task inside an operation. */
  ghost predicate Exclusive(s: System) {
    && (forall t :: t in s.tasks && Critical(s.tasks[t].pc) ==> s.lock == Some(t))
    && (s.lock.Some? ==> s.lock.value in s.tasks && Critical(s.tasks[s.lock.value].pc))
  }

  /** What the store holds: the entry store while unlocked, a halfway point while locked. */
  ghost predicate Consistent(cfg: Config, s: System)
    requires Exclusive(s)
  {
    && (s.lock.None? ==> s.store == s.entry)
    && (s.lock.Some? ==>
          var task := s.tasks[s.lock.value];
          && Midway(cfg, s.entry, s.store, task.key, task.op, task.pc)
          && Timely(task.pc, LastTime(s.log), s.clock))
  }

  /** The history is one of the timed map, and the entry store is where it ends. */
  ghost predicate Historical(cfg: Config, s: System) {
    && LastTime(s.log) <= s.clock
    && Legal(cfg, s.log)
    && Represents(s.entry, Replay(cfg, s.log), LastTime(s.log))
  }

  ghost predicate Invariant(cfg: Config, s: System) {
    Exclusive(s) && Consistent(cfg, s) && Historical(cfg, s) && LogMatchesTasks(s)
  }

  // ----- preservation -----

  lemma BeginKeepsMidway(cfg: Config, entry: Store, key: Key, op: Op, now: Instant)
    ensures var (store', pc') := Begin(entry, key, op, now);
            Critical(pc') && Midway(cfg, entry, store', key, op, pc') && Timely(pc', now, now)
  {
  }

  lemma CountingKeepsMidway(cfg: Config, entry: Store, store: Store, key: Key, op: Op, pc: Pc, now: Instant)
    requires pc.Loaded? || pc.Below? || pc.Reloaded?
    requires Midway(cfg, entry, store, key, op, pc)
    ensures var (store', pc') := Inside(cfg, store, key, op, pc, now);
            Critical(pc') && Midway(cfg, entry, store', key, op, pc')
  {
    if pc.Reloaded? {
      var n := entry.cache[key].n;
      DecrStopsAtZero(cfg, entry, key, n, op.delta, pc.t1, now);
      assert entry.cache[key := Int(pc.res)][key := Int(0)] == entry.cache[key := Int(0)];
    } else if pc.Loaded? && pc.value.Int? && op.Decr? && pc.value.n - op.delta >= 0 {
      DecrStopsAtZero(cfg, entry, key, pc.value.n, op.delta, pc.t1, now);
    }
  }

  lemma PoppingKeepsMidway(cfg: Config, entry: Store, store: Store, key: Key, op: Op, pc: Pc, now: Instant)
    requires pc.Popping? || pc.PoppingDeadline?
    requires entry.cache.Keys == entry.expire.Keys
    requires Midway(cfg, entry, store, key, op, pc)
    ensures var (store', pc') := Inside(cfg, store, key, op, pc, now);
            Critical(pc') && Midway(cfg, entry, store', key, op, pc')
  {
  }

  /** A step inside an operation ends where `Run` would be at that point. */
  lemma InsideKeepsMidway(cfg: Config, entry: Store, store: Store, key: Key, op: Op, pc: Pc, last: real, now: Instant)
    requires Critical(pc) && !pc.Leaving? && last <= now
    requires entry.cache.Keys == entry.expire.Keys
    requires Midway(cfg, entry, store, key, op, pc) && Timely(pc, last, now)
    ensures var (store', pc') := Inside(cfg, store, key, op, pc, now);
            Critical(pc') && Midway(cfg, entry, store', key, op, pc') && Timely(pc', last, now)
  {
    if pc.Entered? {
      BeginKeepsMidway(cfg, entry, key, op, now);
    } else if pc.Loaded? || pc.Below? || pc.Reloaded? {
      CountingKeepsMidway(cfg, entry, store, key, op, pc, now);
    } else if pc.Popping? || pc.PoppingDeadline? {
      PoppingKeepsMidway(cfg, entry, store, key, op, pc, now);
    }
  }

  lemma AcquireKeepsInvariant(cfg: Config, s: System, t: int)
    requires Invariant(cfg, s) && t in s.tasks && s.tasks[t].pc.Waiting? && s.lock == None
    ensures Invariant(cfg, Proceeded(cfg, s, t))
  {
    var s' := Proceeded(cfg, s, t);
    LogSurvives(s, s', t);
  }

  lemma InsideKeepsInvariant(cfg: Config, s: System, t: int)
    requires Invariant(cfg, s) && t in s.tasks && Critical(s.tasks[t].pc) && !s.tasks[t].pc.Leaving?
    ensures Invariant(cfg, Proceeded(cfg, s, t))
  {
    var task := s.tasks[t];
    InsideKeepsMidway(cfg, s.entry, s.store, task.key, task.op, task.pc, LastTime(s.log), s.clock);
    LogSurvives(s, Proceeded(cfg, s, t), t);
  }

  /** A task that neither finishes nor had finished keeps the log and all tasks in agreement. */
  lemma LogSurvives(s: System, s': System, t: int)
    requires LogMatchesTasks(s) && s'.log == s.log
    requires t in s'.tasks && s'.tasks == s.tasks[t := s'.tasks[t]]
    requires t in s.tasks ==> !s.tasks[t].pc.Done?
    requires !s'.tasks[t].pc.Done?
    ensures LogMatchesTasks(s')
  {
    forall i | 0 <= i < |s'.log|
      ensures s'.log[i].task in s'.tasks && Logged(s'.log, s'.log[i].task, s'.tasks[s'.log[i].task], i)
    {
      assert Logged(s.log, s.log[i].task, s.tasks[s.log[i].task], i);
    }
    forall u | u in s'.tasks && s'.tasks[u].pc.Done?
      ensures exists i :: Logged(s'.log, u, s'.tasks[u], i)
    {
      var i :| Logged(s.log, u, s.tasks[u], i);
      assert Logged(s'.log, u, s'.tasks[u], i);
    }
  }

  /** Releasing the lock is where the operation joins the history. */
  lemma ReleaseKeepsInvariant(cfg: Config, s: System, t: int)
    requires Invariant(cfg, s) && t in s.tasks && s.tasks[t].pc.Leaving?
    ensures Invariant(cfg, Proceeded(cfg, s, t))
  {
    var s' := Proceeded(cfg, s, t);
    var Task(key, op, Leaving(t1, t2, reply)) := s.tasks[t];
    var e := Event(t, key, op, t1, t2, reply);
    assert s.lock == Some(t);
    HistoryTakesOperation(cfg, s.entry, s.store, s.log, e);
    LogGrows(s, s', t, e);
    assert Exclusive(s');
  }

  /** A completed operation is one more legal event, and its store represents the longer history. */
  lemma HistoryTakesOperation(cfg: Config, entry: Store, store: Store, log: seq<Event>, e: Event)
    requires Legal(cfg, log) && Represents(entry, Replay(cfg, log), LastTime(log))
    requires LastTime(log) <= e.t1 <= e.t2
    requires (store, e.reply) == Run(cfg, entry, e.key, e.op, e.t1, e.t2)
    ensures Legal(cfg, log + [e]) && Represents(store, Replay(cfg, log + [e]), LastTime(log + [e]))
  {
    RunRefinesApply(cfg, entry, Replay(cfg, log), e.key, e.op, LastTime(log), e.t1, e.t2);
    LegalExtends(cfg, log, e);
  }

  lemma LogGrows(s: System, s': System, t: int, e: Event)
    requires LogMatchesTasks(s) && s'.log == s.log + [e]
    requires t in s.tasks && !s.tasks[t].pc.Done?
    requires e.task == t && e.key == s.tasks[t].key && e.op == s.tasks[t].op
    requires s'.tasks == s.tasks[t := s.tasks[t].(pc := Done(e.reply))]
    ensures LogMatchesTasks(s')
  {
    forall i | 0 <= i < |s.log|
      ensures s.log[i].task in s.tasks && s.log[i].task != t
    {
      assert Logged(s.log, s.log[i].task, s.tasks[s.log[i].task], i);
    }
    forall i | 0 <= i < |s'.log|
      ensures s'.log[i].task in s'.tasks && Logged(s'.log, s'.log[i].task, s'.tasks[s'.log[i].task], i)
    {
      if i < |s.log| {
        assert Logged(s.log, s.log[i].task, s.tasks[s.log[i].task], i);
      }
    }
    forall u | u in s'.tasks && s'.tasks[u].pc.Done?
      ensures exists i :: Logged(s'.log, u, s'.tasks[u], i)
    {
      if u == t {
        assert Logged(s'.log, u, s'.tasks[u], |s.log|);
      } else {
        var i :| Logged(s.log, u, s.tasks[u], i);
        assert Logged(s'.log, u, s'.tasks[u], i);
      }
    }
  }

  /** Calling, cancelling while queued and the passing of time touch no operation in progress. */
  lemma OutsideKeepsInvariant(cfg: Config, s: System, step: Step)
    requires Invariant(cfg, s) && !step.Proceed?
    ensures Invariant(cfg, After(cfg, s, step))
  {
    var s' := After(cfg, s, step);
    if step.Tick? {
      TickKeepsInvariant(cfg, s, step.elapsed);
    } else if s' != s {
      LogSurvives(s, s', step.task);
      assert Exclusive(s');
    }
  }

  lemma TickKeepsInvariant(cfg: Config, s: System, elapsed: Instant)
    requires Invariant(cfg, s)
    ensures Invariant(cfg, After(cfg, s, Tick(elapsed)))
  {
    assert LogMatchesTasks(After(cfg, s, Tick(elapsed)));
  }

  /** A finished or cancelled task does nothing, and a queued one waits while the lock is held. */
  lemma IdleStepChangesNothing(cfg: Config, s: System, t: int)
    requires t in s.tasks && !Critical(s.tasks[t].pc)
    requires s.tasks[t].pc.Waiting? ==> s.lock != None
    ensures Proceeded(cfg, s, t) == s
  {
    assert s.tasks[t := s.tasks[t]] == s.tasks;
  }

  lemma ProceedKeepsInvariant(cfg: Config, s: System, t: int)
    requires Invariant(cfg, s) && t in s.tasks
    ensures Invariant(cfg, Proceeded(cfg, s, t))
  {
    var pc := s.tasks[t].pc;
    if pc.Leaving? {
      ReleaseKeepsInvariant(cfg, s, t);
    } else if Critical(pc) {
      InsideKeepsInvariant(cfg, s, t);
    } else if pc.Waiting? && s.lock == None {
      AcquireKeepsInvariant(cfg, s, t);
    } else {
      IdleStepChangesNothing(cfg, s, t);
    }
  }

  lemma AfterKeepsInvariant(cfg: Config, s: System, step: Step)
    requires Invariant(cfg, s)
    ensures Invariant(cfg, After(cfg, s, step))
  {
    match step
    case Proceed(t) =>
      if t in s.tasks {
        ProceedKeepsInvariant(cfg, s, t);
      }
    case _ =>
      OutsideKeepsInvariant(cfg, s, step);
  }

  lemma {:induction false} EveryExecutionKeepsInvariant(cfg: Config, steps: seq<Step>)
    ensures Invariant(cfg, Execution(cfg, steps))
  {
    if steps == [] {
      assert Replay(cfg, []) == map[];
    } else {
      EveryExecutionKeepsInvariant(cfg, steps[..|steps| - 1]);
      AfterKeepsInvariant(cfg, Execution(cfg, steps[..|steps| - 1]), steps[|steps| - 1]);
    }
  }

  // ----- what clients see -----

  /**
   Linearisability.  In every interleaving, at every moment: the finished
   operations, in the order they held the lock, answer as the plain timed map
   does at the instants they read the clock; only `delete` may say True for an
   entry that has just expired.  Each finished task got the answer on record.
   */
  lemma Linearizable(cfg: Config, steps: seq<Step>, t: int)
    requires t in Execution(cfg, steps).tasks && Execution(cfg, steps).tasks[t].pc.Done?
    ensures var s := Execution(cfg, steps);
            && Legal(cfg, s.log)
            && (exists i :: Logged(s.log, t, s.tasks[t], i))
            && (forall i, j :: Logged(s.log, t, s.tasks[t], i) && Logged(s.log, t, s.tasks[t], j) ==> i == j)
  {
    EveryExecutionKeepsInvariant(cfg, steps);
  }

  lemma AnswerIsNeverMissing(cfg: Config, m: Timed, e: Event)
    requires Answers(cfg, m, e)
    ensures e.reply != MissingEntry
  {
  }

  /**
   No task ever reads a dictionary entry that is not there: whoever is about to read or rewrite the cache,
   or to pop the deadline of what it has popped, finds the key; so no operation ends in a KeyError.
   */
  lemma NoReadHitsAMissingKey(cfg: Config, steps: seq<Step>, t: int)
    requires t in Execution(cfg, steps).tasks
    ensures var s := Execution(cfg, steps);
            var Task(key, op, pc) := s.tasks[t];
            && (pc.Alive? || pc.Loaded? || pc.Below? || pc.Reloaded? ==> key in s.store.cache)
            && (pc.PoppingDeadline? ==> key in s.store.expire)
            && pc != Done(MissingEntry)
  {
    EveryExecutionKeepsInvariant(cfg, steps);
    if Execution(cfg, steps).tasks[t].pc.Done? {
      FinishedWithoutError(cfg, Execution(cfg, steps), t);
    }
  }

  lemma FinishedWithoutError(cfg: Config, s: System, t: int)
    requires Invariant(cfg, s) && t in s.tasks && s.tasks[t].pc.Done?
    ensures s.tasks[t].pc.reply != MissingEntry
  {
    var i :| Logged(s.log, t, s.tasks[t], i);
    AnswerIsNeverMissing(cfg, Replay(cfg, s.log[..i]), s.log[i]);
  }

  /** Whenever the lock is free the dictionaries have the same keys and hold what the history says. */
  lemma DictionariesAgreeWhenUnlocked(cfg: Config, steps: seq<Step>)
    requires Execution(cfg, steps).lock == None
    ensures var s := Execution(cfg, steps);
            && s.store.cache.Keys == s.store.expire.Keys
            && Represents(s.store, Replay(cfg, s.log), s.clock)
  {
    EveryExecutionKeepsInvariant(cfg, steps);
  }

  /** At most one task is between acquiring and releasing the lock. */
  lemma MutualExclusion(cfg: Config, steps: seq<Step>, t: int, u: int)
    requires var s := Execution(cfg, steps);
             t in s.tasks && u in s.tasks && Critical(s.tasks[t].pc) && Critical(s.tasks[u].pc)
    ensures t == u
  {
    EveryExecutionKeepsInvariant(cfg, steps);
  }

  /** The history only grows. */
  lemma {:induction false} LogIsPrefix(cfg: Config, steps: seq<Step>, more: seq<Step>)
    ensures Execution(cfg, steps).log <= Execution(cfg, steps + more).log
  {
    if more == [] {
      assert steps + more == steps;
    } else {
      var init := more[..|more| - 1];
      LogIsPrefix(cfg, steps, init);
      assert (steps + more)[..|steps + more| - 1] == steps + init;
    }
  }

  /** Real-time order: an operation invoked after another had finished comes later in the history. */
  lemma RealTimeOrder(cfg: Config, steps: seq<Step>, more: seq<Step>, t: int, u: int, i: int, j: int)
    requires t in Execution(cfg, steps).tasks && Execution(cfg, steps).tasks[t].pc.Done?
    requires u !in Execution(cfg, steps).tasks
    requires var s := Execution(cfg, steps + more);
             && 0 <= i < |s.log| && s.log[i].task == t
             && 0 <= j < |s.log| && s.log[j].task == u
    ensures i < j
  {
    var s, s' := Execution(cfg, steps), Execution(cfg, steps + more);
    EveryExecutionKeepsInvariant(cfg, steps);
    EveryExecutionKeepsInvariant(cfg, steps + more);
    LogIsPrefix(cfg, steps, more);
    var i0 :| Logged(s.log, t, s.tasks[t], i0);
    assert s'.log[i0] == s.log[i0] && s'.log[i0].task == t;
    forall k | 0 <= k < |s.log|
      ensures s'.log[k].task != u
    {
      assert Logged(s.log, s.log[k].task, s.tasks[s.log[k].task], k);
    }
  }

  // ----- the clock of the history is the real one -----

  /** Every clock reading of task `t` so far lies between `start` and now. */
  ghost predicate ReadsSince(s: System, t: int, start: real) {
    && start <= s.clock
    && (t in s.tasks ==> Timely(s.tasks[t].pc, start, s.clock))
    && (forall i :: 0 <= i < |s.log| && s.log[i].task == t ==> start <= s.log[i].t1 <= s.log[i].t2 <= s.clock)
  }

  lemma InsideReadsTheClock(cfg: Config, store: Store, key: Key, op: Op, pc: Pc, start: real, now: Instant)
    requires start <= now && Timely(pc, start, now)
    ensures Timely(Inside(cfg, store, key, op, pc, now).1, start, now)
  {
  }

  lemma StepReadsTheClock(cfg: Config, s: System, step: Step, t: int, start: real)
    requires ReadsSince(s, t, start)
    ensures ReadsSince(After(cfg, s, step), t, start)
  {
    if step.Proceed? && step.task in s.tasks {
      var Task(key, op, pc) := s.tasks[step.task];
      if step.task == t {
        InsideReadsTheClock(cfg, s.store, key, op, pc, start, s.clock);
      }
    }
  }

  lemma {:induction false} RunReadsTheClock(cfg: Config, steps: seq<Step>, more: seq<Step>, t: int)
    requires t !in Execution(cfg, steps).tasks
    ensures ReadsSince(Execution(cfg, steps + more), t, Execution(cfg, steps).clock)
  {
    if more == [] {
      assert steps + more == steps;
      EveryExecutionKeepsInvariant(cfg, steps);
    } else {
      var init := more[..|more| - 1];
      RunReadsTheClock(cfg, steps, init, t);
      assert (steps + more)[..|steps + more| - 1] == steps + init;
      StepReadsTheClock(cfg, Execution(cfg, steps + init), more[|more| - 1], t, Execution(cfg, steps).clock);
    }
  }

  /**
   The instants of the history are real ones: an operation reads the clock after the moment it was invoked
   and before any moment at which it is already finished.
   */
  lemma ReadingsLieWithinTheCall(cfg: Config, steps: seq<Step>, more: seq<Step>, t: int)
    requires t !in Execution(cfg, steps).tasks
    requires t in Execution(cfg, steps + more).tasks && Execution(cfg, steps + more).tasks[t].pc.Done?
    ensures var s := Execution(cfg, steps + more);
            exists i :: Logged(s.log, t, s.tasks[t], i) &&
              Execution(cfg, steps).clock <= s.log[i].t1 <= s.log[i].t2 <= s.clock
  {
    EveryExecutionKeepsInvariant(cfg, steps + more);
    RunReadsTheClock(cfg, steps, more, t);
    var s := Execution(cfg, steps + more);
    var i :| Logged(s.log, t, s.tasks[t], i);
    assert s.log[i].task == t;
  }

  /**
   Nothing is found after its time.  An operation invoked when the deadline in the history has come answers
   as if the entry were not there.
   */
  lemma NothingIsFoundPastItsDeadline(cfg: Config, steps: seq<Step>, more: seq<Step>, t: int, i: int)
    requires t !in Execution(cfg, steps).tasks
    requires var s := Execution(cfg, steps + more);
             && 0 <= i < |s.log| && s.log[i].task == t && s.log[i].op == Get
             && var m := Replay(cfg, s.log[..i]);
                s.log[i].key in m && m[s.log[i].key].deadline <= Execution(cfg, steps).clock
    ensures Execution(cfg, steps + more).log[i].reply == Found(Nil)
  {
    EveryExecutionKeepsInvariant(cfg, steps + more);
    RunReadsTheClock(cfg, steps, more, t);
  }
}
