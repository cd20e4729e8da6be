/**
 What the runs of the concurrent cache amount to from outside: time passes as
 the ticks say, the tasks are the calls made, only a queued task is ever
 cancelled, and no task is stuck at any moment of any run.
 */
module CacheProgress {
  import opened Prelude
  import opened CacheKeys
  import opened CacheSpec
  import opened CacheConcurrency

  lemma ExecutionSnoc(cfg: Config, steps: seq<Step>, step: Step)
    ensures Execution(cfg, steps + [step]) == After(cfg, Execution(cfg, steps), step)
  {
    assert (steps + [step])[..|steps + [step]| - 1] == steps;
  }

  // ----- time, calls and cancellations -----

  function Elapsed(steps: seq<Step>): real {
    if steps == [] then 0.0
    else (if steps[0].Tick? then steps[0].elapsed else 0.0) + Elapsed(steps[1..])
  }

  lemma {:induction false} ElapsedSnoc(steps: seq<Step>, step: Step)
    ensures Elapsed(steps + [step]) == Elapsed(steps) + (if step.Tick? then step.elapsed else 0.0)
  {
    if steps == [] {
      assert [step][1..] == [];
      assert Elapsed([step][1..]) == 0.0;
      assert [] + [step] == [step];
    } else {
      ElapsedSnoc(steps[1..], step);
      assert (steps + [step])[1..] == steps[1..] + [step];
    }
  }

  lemma {:induction false} ClockIsElapsedTime(cfg: Config, steps: seq<Step>)
    ensures Execution(cfg, steps).clock == Elapsed(steps)
  {
    if steps != [] {
      var init, last := steps[..|steps| - 1], steps[|steps| - 1];
      ClockIsElapsedTime(cfg, init);
      ElapsedSnoc(init, last);
      assert steps == init + [last];
    }
  }

  predicate Calls(step: Step, t: int) {
    step.Invoke? && step.task == t
  }

  /** Step `i` is the first that calls task `t`. */
  ghost predicate FirstCall(steps: seq<Step>, t: int, i: int) {
    0 <= i < |steps| && Calls(steps[i], t) && forall j :: 0 <= j < i ==> !Calls(steps[j], t)
  }

  /** The tasks of a run are the calls made in it, each with the key and the operation of its first call. */
  lemma TasksAreTheCalls(cfg: Config, steps: seq<Step>, t: int)
    ensures var s := Execution(cfg, steps);
            && (t in s.tasks <==> exists i :: 0 <= i < |steps| && Calls(steps[i], t))
            && (forall i :: FirstCall(steps, t, i) ==>
                  t in s.tasks && s.tasks[t].key == steps[i].key && s.tasks[t].op == steps[i].op)
  {
    WhoIsThere(cfg, steps, t);
    forall i | FirstCall(steps, t, i)
      ensures var s := Execution(cfg, steps);
              t in s.tasks && s.tasks[t].key == steps[i].key && s.tasks[t].op == steps[i].op
    {
      FirstCallCounts(cfg, steps, t, i);
    }
  }

  lemma {:induction false} WhoIsThere(cfg: Config, steps: seq<Step>, t: int)
    ensures t in Execution(cfg, steps).tasks <==> exists i :: 0 <= i < |steps| && Calls(steps[i], t)
  {
    if steps != [] {
      var init, last := steps[..|steps| - 1], steps[|steps| - 1];
      WhoIsThere(cfg, init, t);
      StepCalls(cfg, Execution(cfg, init), last, t);
      assert forall i :: 0 <= i < |init| ==> init[i] == steps[i];
      assert Calls(last, t) ==> Calls(steps[|init|], t);
    }
  }

  lemma StepCalls(cfg: Config, s: System, step: Step, t: int)
    ensures var s' := After(cfg, s, step);
            && (t in s'.tasks <==> t in s.tasks || Calls(step, t))
            && (t in s.tasks ==> s'.tasks[t].key == s.tasks[t].key && s'.tasks[t].op == s.tasks[t].op)
            && (t !in s.tasks && Calls(step, t) ==> s'.tasks[t] == Task(step.key, step.op, Waiting))
  {
  }

  lemma {:induction false} FirstCallCounts(cfg: Config, steps: seq<Step>, t: int, i: nat)
    requires FirstCall(steps, t, i)
    ensures var s := Execution(cfg, steps);
            t in s.tasks && s.tasks[t].key == steps[i].key && s.tasks[t].op == steps[i].op
  {
    var init, last := steps[..|steps| - 1], steps[|steps| - 1];
    StepCalls(cfg, Execution(cfg, init), last, t);
    if i < |init| {
      assert FirstCall(init, t, i);
      FirstCallCounts(cfg, init, t, i);
    } else {
      WhoIsThere(cfg, init, t);
      assert forall j :: 0 <= j < |init| ==> !Calls(init[j], t);
    }
  }

  /** Step `i` cancels task `t` while it is queued for the lock. */
  ghost predicate CancelsQueued(cfg: Config, steps: seq<Step>, t: int, i: int) {
    && 0 <= i < |steps|
    && steps[i] == Cancel(t)
    && var s := Execution(cfg, steps[..i]);
       t in s.tasks && s.tasks[t].pc.Waiting?
  }

  /** A task is cancelled exactly when some step cancelled it while it was queued; no later step undoes it. */
  lemma {:induction false} CancelledIffWhileQueued(cfg: Config, steps: seq<Step>, t: int)
    requires t in Execution(cfg, steps).tasks
    ensures Execution(cfg, steps).tasks[t].pc.Cancelled? <==> exists i :: CancelsQueued(cfg, steps, t, i)
  {
    if steps != [] {
      var init, last := steps[..|steps| - 1], steps[|steps| - 1];
      assert steps == init + [last];
      forall i | 0 <= i < |init|
        ensures CancelsQueued(cfg, steps, t, i) <==> CancelsQueued(cfg, init, t, i)
      {
        assert steps[..i] == init[..i];
      }
      if t in Execution(cfg, init).tasks {
        CancelledIffWhileQueued(cfg, init, t);
        StepCancelsIff(cfg, Execution(cfg, init), last, t);
        assert CancelsQueued(cfg, steps, t, |init|) <==>
               last == Cancel(t) && Execution(cfg, init).tasks[t].pc.Waiting?;
      } else {
        NobodyCancels(cfg, init, t);
      }
    }
  }

  lemma StepCancelsIff(cfg: Config, s: System, step: Step, t: int)
    requires t in s.tasks
    ensures var s' := After(cfg, s, step);
            && t in s'.tasks
            && (s'.tasks[t].pc.Cancelled? <==>
                s.tasks[t].pc.Cancelled? || (step == Cancel(t) && s.tasks[t].pc.Waiting?))
  {
  }

  /** A task that is not there was not queued before. */
  lemma NobodyCancels(cfg: Config, steps: seq<Step>, t: int)
    requires t !in Execution(cfg, steps).tasks
    ensures forall i :: !CancelsQueued(cfg, steps, t, i)
  {
    forall i | 0 <= i < |steps|
      ensures t in Execution(cfg, steps[..i]).tasks ==> t in Execution(cfg, steps).tasks
    {
      TasksStay(cfg, steps, i, t);
    }
  }

  lemma TasksStay(cfg: Config, steps: seq<Step>, i: nat, t: int)
    requires i <= |steps|
    ensures t in Execution(cfg, steps[..i]).tasks ==> t in Execution(cfg, steps).tasks
  {
    TasksAreTheCalls(cfg, steps, t);
    TasksAreTheCalls(cfg, steps[..i], t);
    assert forall k :: 0 <= k < i ==> steps[..i][k] == steps[k];
  }

  // ----- nobody is stuck -----

  /** How many more steps of its own a task takes at most. */
  function Remaining(pc: Pc): nat {
    match pc
    case Waiting => 7
    case Entered => 6
    case Alive(_) => 5
    case Loaded(_, _) => 4
    case Below(_, _) => 3
    case Popping(_, _) => 3
    case PoppingDeadline(_, _) => 2
    case Reloaded(_, _, _) => 2
    case Stored => 2
    case Leaving(_, _, _) => 1
    case Done(_) => 0
    case Cancelled => 0
  }

  lemma InsideAdvances(cfg: Config, store: Store, key: Key, op: Op, pc: Pc, now: Instant)
    requires Critical(pc) && !pc.Leaving?
    ensures Remaining(Inside(cfg, store, key, op, pc, now).1) < Remaining(pc)
  {
  }

  ghost predicate OwnSteps(steps: seq<Step>, t: int) {
    forall i :: 0 <= i < |steps| ==> steps[i] == Proceed(t)
  }

  /** From `s` to `s'` task `t` has run its operation as `e` says, from store `found`, and nothing else has moved. */
  ghost predicate Completes(cfg: Config, s: System, s': System, t: int, found: Store, e: Event)
    requires t in s.tasks
  {
    && e.task == t && e.key == s.tasks[t].key && e.op == s.tasks[t].op
    && (s'.store, e.reply) == Run(cfg, found, e.key, e.op, e.t1, e.t2)
    && s'.tasks == s.tasks[t := s.tasks[t].(pc := Done(e.reply))]
    && s'.lock == None && s'.clock == s.clock && s'.log == s.log + [e]
  }

  /** A step inside an operation leaves everything but the store and its own place as it was, and is progress. */
  lemma HolderAdvances(cfg: Config, steps: seq<Step>, t: int, start: real)
    requires var s := Execution(cfg, steps);
             && t in s.tasks && Critical(s.tasks[t].pc) && !s.tasks[t].pc.Leaving?
             && start <= s.clock && Timely(s.tasks[t].pc, start, s.clock)
    ensures var s, s' := Execution(cfg, steps), Execution(cfg, steps + [Proceed(t)]);
            && t in s'.tasks && s'.tasks == s.tasks[t := s.tasks[t].(pc := s'.tasks[t].pc)]
            && Critical(s'.tasks[t].pc) && Timely(s'.tasks[t].pc, start, s.clock)
            && Remaining(s'.tasks[t].pc) < Remaining(s.tasks[t].pc)
            && s'.clock == s.clock && s'.entry == s.entry && s'.log == s.log
  {
    var s := Execution(cfg, steps);
    var Task(key, op, pc) := s.tasks[t];
    EveryExecutionKeepsInvariant(cfg, steps);
    ExecutionSnoc(cfg, steps, Proceed(t));
    InsideKeepsMidway(cfg, s.entry, s.store, key, op, pc, LastTime(s.log), s.clock);
    InsideReadsTheClock(cfg, s.store, key, op, pc, start, s.clock);
    InsideAdvances(cfg, s.store, key, op, pc, s.clock);
  }

  /** Whoever holds the lock ends by its own steps. */
  lemma {:induction false} HolderFinishes(cfg: Config, steps: seq<Step>, t: int, start: real)
      returns (more: seq<Step>, e: Event)
    requires var s := Execution(cfg, steps);
             t in s.tasks && Critical(s.tasks[t].pc) && start <= s.clock && Timely(s.tasks[t].pc, start, s.clock)
    ensures var s := Execution(cfg, steps);
            && OwnSteps(more, t) && |more| <= Remaining(s.tasks[t].pc)
            && Completes(cfg, s, Execution(cfg, steps + more), t, s.entry, e)
            && start <= e.t1 <= e.t2 <= s.clock
    decreases var s := Execution(cfg, steps); if t in s.tasks then Remaining(s.tasks[t].pc) else 0
  {
    var s := Execution(cfg, steps);
    var Task(key, op, pc) := s.tasks[t];
    if pc.Leaving? {
      EveryExecutionKeepsInvariant(cfg, steps);
      ExecutionSnoc(cfg, steps, Proceed(t));
      more, e := [Proceed(t)], Event(t, key, op, pc.t1, pc.t2, pc.reply);
    } else {
      HolderAdvances(cfg, steps, t, start);
      var rest;
      rest, e := HolderFinishes(cfg, steps + [Proceed(t)], t, start);
      more := [Proceed(t)] + rest;
      assert steps + more == steps + [Proceed(t)] + rest;
      var s' := Execution(cfg, steps + [Proceed(t)]);
      assert s'.tasks[t := s'.tasks[t].(pc := Done(e.reply))] == s.tasks[t := s.tasks[t].(pc := Done(e.reply))];
    }
  }

  /** A queued task that finds the lock free answers, by its own steps alone, what `Run` gives on the store. */
  lemma LoneTaskAnswers(cfg: Config, steps: seq<Step>, t: int) returns (more: seq<Step>, e: Event)
    requires var s := Execution(cfg, steps);
             t in s.tasks && s.tasks[t].pc.Waiting? && s.lock == None
    ensures var s := Execution(cfg, steps);
            && OwnSteps(more, t) && |more| <= 7
            && Completes(cfg, s, Execution(cfg, steps + more), t, s.store, e)
            && e.t1 == e.t2 == s.clock
  {
    var s := Execution(cfg, steps);
    ExecutionSnoc(cfg, steps, Proceed(t));
    var s' := Execution(cfg, steps + [Proceed(t)]);
    assert s' == Proceeded(cfg, s, t);
    var rest;
    rest, e := HolderFinishes(cfg, steps + [Proceed(t)], t, s.clock);
    more := [Proceed(t)] + rest;
    assert steps + more == steps + [Proceed(t)] + rest;
    assert s'.tasks[t := s'.tasks[t].(pc := Done(e.reply))] == s.tasks[t := s.tasks[t].(pc := Done(e.reply))];
  }

  /** Steps of tasks already there, and no others, lead from `steps` to a moment at which `t` is done. */
  ghost predicate Ends(cfg: Config, steps: seq<Step>, more: seq<Step>, t: int) {
    && (forall i :: 0 <= i < |more| ==> more[i].Proceed?)
    && |more| <= 13
    && var s' := Execution(cfg, steps + more);
       t in s'.tasks && s'.tasks[t].pc.Done? && s'.clock == Execution(cfg, steps).clock
  }

  /**
   No deadlock.  At every moment of every run, whoever holds the lock and however many tasks are queued, thirteen
   steps at most finish any task that has not been cancelled.
   */
  lemma EveryTaskCanFinish(cfg: Config, steps: seq<Step>, t: int)
    requires t in Execution(cfg, steps).tasks && !Execution(cfg, steps).tasks[t].pc.Cancelled?
    ensures exists more :: Ends(cfg, steps, more, t)
  {
    var s := Execution(cfg, steps);
    EveryExecutionKeepsInvariant(cfg, steps);
    if s.tasks[t].pc.Done? {
      assert steps + [] == steps;
      assert Ends(cfg, steps, [], t);
    } else if s.lock == None {
      var more, e := LoneTaskAnswers(cfg, steps, t);
      assert Ends(cfg, steps, more, t);
    } else if s.lock == Some(t) {
      var more, e := HolderFinishes(cfg, steps, t, LastTime(s.log));
      assert Ends(cfg, steps, more, t);
    } else {
      QueuedTaskCanFinish(cfg, steps, t);
    }
  }

  lemma QueuedTaskCanFinish(cfg: Config, steps: seq<Step>, t: int)
    requires var s := Execution(cfg, steps);
             t in s.tasks && s.tasks[t].pc.Waiting? && s.lock.Some?
    ensures exists more :: Ends(cfg, steps, more, t)
  {
    var s := Execution(cfg, steps);
    EveryExecutionKeepsInvariant(cfg, steps);
    var more, e := HolderFinishes(cfg, steps, s.lock.value, LastTime(s.log));
    var rest, e' := LoneTaskAnswers(cfg, steps + more, t);
    assert steps + more + rest == steps + (more + rest);
    assert Ends(cfg, steps, more + rest, t);
  }
}
