/**
 The in-memory cache as functions: `Run` is one locked operation on the two
 dictionaries, `Apply` the same operation on a plain map from key to
 (value, deadline) that is never swept and reads an entry as absent once its
 deadline has passed.  `RunRefinesApply` relates the two.
 */
module CacheSpec {
  import opened Prelude
  import opened CacheKeys
  import opened Text

  type Key = string

  /** A cached object.  A pickle is modelled by the object it loads back to. */
  datatype Value = Nil | Int(n: int) | Data(id: int, truthy: bool)

  predicate Truthy(v: Value) {
    match v
    case Nil => false
    case Int(n) => n != 0
    case Data(_, truthy) => truthy
  }

  datatype Op =
    | Get
    | HasKey
    | Delete
    | Set(value: Value, ttl: Option<real>)
    | Touch(ttl: Option<real>)
    | Incr(delta: int)
    | Decr(delta: int)

  datatype Reply =
    | Found(value: Value)
    | Flag(b: bool)
    | Number(n: int)
    | KeyNotFound       // the ValueError of incr and decr
    | NotANumber        // the TypeError of adding to something else
    | MissingEntry      // a KeyError from a dictionary read

  // ----- the two dictionaries -----

  datatype Store = Store(cache: map<Key, Value>, expire: map<Key, real>)

  const EmptyStore := Store(map[], map[])

  predicate HasExpired(s: Store, key: Key, now: Instant) {
    (if key in s.expire then s.expire[key] else -1.0) <= now
  }

  /** `_delete`: pops from the cache, then from the deadlines; a missing key makes it False. */
  function Pop(s: Store, key: Key): (Store, bool) {
    if key !in s.cache then (s, false)
    else if key !in s.expire then (s.(cache := s.cache - {key}), false)
    else (Store(s.cache - {key}, s.expire - {key}), true)
  }

  /** `_incr_decr_action`. */
  function Add(s: Store, key: Key, delta: int): (Store, Reply) {
    if key !in s.cache then (s, MissingEntry)
    else match s.cache[key]
      case Int(n) => (s.(cache := s.cache[key := Int(n + delta)]), Number(n + delta))
      case _ => (s, NotANumber)
  }

  /** `decr`: a result below zero is topped up again to zero. */
  function Subtract(s: Store, key: Key, delta: int): (Store, Reply) {
    var (s', r) := Add(s, key, -delta);
    if r.Number? && r.n < 0 then Add(s', key, -r.n) else (s', r)
  }

  /** One operation with the lock held; `t1` and `t2` are its first and second clock readings. */
  function Run(cfg: Config, s: Store, key: Key, op: Op, t1: Instant, t2: Instant): (Store, Reply) {
    match op
    case Get =>
      if HasExpired(s, key, t1) then (Pop(s, key).0, Found(Nil))
      else if key in s.cache then (s, Found(s.cache[key]))
      else (s, MissingEntry)
    case HasKey =>
      if HasExpired(s, key, t1) then (Pop(s, key).0, Flag(false)) else (s, Flag(true))
    case Delete =>
      var (s', b) := Pop(s, key);
      (s', Flag(b))
    case Set(v, ttl) =>
      (Store(s.cache[key := v], s.expire[key := Deadline(cfg, ttl, t1)]), Flag(true))
    case Touch(ttl) =>
      if HasExpired(s, key, t1) then (s, Flag(false))
      else (s.(expire := s.expire[key := Deadline(cfg, ttl, t2)]), Flag(true))
    case Incr(d) =>
      if HasExpired(s, key, t1) then (Pop(s, key).0, KeyNotFound) else Add(s, key, d)
    case Decr(d) =>
      if HasExpired(s, key, t1) then (Pop(s, key).0, KeyNotFound) else Subtract(s, key, d)
  }

  /** What is stored with a ttl of zero is never found, by whatever asks for it next, at the same instant or later. */
  lemma ZeroTtlIsNeverFound(cfg: Config, s: Store, key: Key, v: Value, t1: Instant, t2: Instant, later: Instant, d: int,
                            ttl: Option<real>)
    requires t1 <= later && t2 <= later
    ensures var s' := Run(cfg, s, key, Set(v, Some(0.0)), t1, t2).0;
            && Run(cfg, s', key, Get, later, later).1 == Found(Nil)
            && Run(cfg, s', key, HasKey, later, later).1 == Flag(false)
            && Run(cfg, s', key, Incr(d), later, later).1 == KeyNotFound
            && Run(cfg, s', key, Decr(d), later, later).1 == KeyNotFound
            && Run(cfg, s', key, Touch(ttl), later, later) == (s', Flag(false))
  {
    ZeroTtlIsAlreadyPast(cfg, t1);
    ZeroTtlIsAlreadyPast(cfg, t2);
  }

  // ----- how long a value is found -----

  /** How long what is stored lives: the backend's own ttl when none is given, and minus one second for zero. */
  function Life(cfg: Config, ttl: Option<real>): real {
    if ttl.None? then cfg.defaultTtl as real else if ttl == Some(0.0) then -1.0 else ttl.value
  }

  /**
   After a value is stored, every reading of its entry at `t` finds it exactly before the write's instant plus
   the ttl, which is the backend's own when none is given; a ttl of zero counts as minus one second.
   */
  lemma StoredValueLastsItsTtl(
      cfg: Config, s: Store, key: Key, v: Value, ttl: Option<real>, t1: Instant, t2: Instant, t: Instant)
    ensures var s' := Run(cfg, s, key, Set(v, ttl), t1, t2).0;
            var life := Life(cfg, ttl);
            && Run(cfg, s, key, Set(v, ttl), t1, t2).1 == Flag(true)
            && Run(cfg, s', key, Get, t, t).1 == Found(if t < t1 + life then v else Nil)
            && Run(cfg, s', key, HasKey, t, t).1 == Flag(t < t1 + life)
  {
  }

  /** Touching a live entry keeps its value and gives it a new life from the second reading of the clock. */
  lemma TouchedValueLastsItsTtl(
      cfg: Config, s: Store, key: Key, ttl: Option<real>, t1: Instant, t2: Instant, t: Instant)
    requires key in s.cache && !HasExpired(s, key, t1)
    ensures var s' := Run(cfg, s, key, Touch(ttl), t1, t2).0;
            var life := Life(cfg, ttl);
            && Run(cfg, s, key, Touch(ttl), t1, t2).1 == Flag(true)
            && Run(cfg, s', key, Get, t, t).1 == Found(if t < t2 + life then s.cache[key] else Nil)
  {
  }

  /** A backend made without arguments: values last 300 seconds, under keys with an empty prefix and version 1. */
  lemma DefaultBackendKeepsFor300Seconds(s: Store, name: string, v: Value, t1: Instant, t: Instant)
    ensures var cfg, key := MakeConfig(None, None, None), ":1:" + name;
            && MakeKey(cfg, name, None) == key
            && var s' := Run(cfg, s, MakeKey(cfg, name, None), Set(v, None), t1, t1).0;
               Run(cfg, s', key, Get, t, t).1 == Found(if t < t1 + 300.0 then v else Nil)
  {
    var cfg := MakeConfig(None, None, None);
    assert NatToString(1) == "1";
    assert MakeKey(cfg, name, None) == ":1:" + name;
    StoredValueLastsItsTtl(cfg, s, MakeKey(cfg, name, None), v, None, t1, t1, t);
  }

  /** What the constructor is given, unless it is missing or zero, is what keys and lifetimes are made with. */
  lemma GivenDefaultsAreUsed(
      prefix: string, version: int, ttl: int, s: Store, name: string, v: Value, t1: Instant, t: Instant)
    requires version != 0 && ttl != 0
    ensures var cfg := MakeConfig(Some(prefix), Some(version), Some(ttl));
            var key := prefix + ":" + IntToString(version) + ":" + name;
            && MakeKey(cfg, name, None) == key
            && var s' := Run(cfg, s, key, Set(v, None), t1, t1).0;
               Run(cfg, s', key, Get, t, t).1 == Found(if t < t1 + ttl as real then v else Nil)
    ensures MakeConfig(Some(prefix), Some(0), Some(0)) == MakeConfig(Some(prefix), None, None)
  {
  }

  /** A version that is given, and not empty, is part of the key. */
  lemma GivenVersionIsInTheKey(cfg: Config, name: string, version: string)
    requires version != ""
    ensures MakeKey(cfg, name, Some(version)) == cfg.prefix + ":" + version + ":" + name
  {
  }

  /** On a live entry: it is there, deleting takes it away, and a number grows by the increment while it lives. */
  lemma LiveEntries(cfg: Config, s: Store, key: Key, d: int, t1: Instant, t: Instant)
    requires key in s.cache && key in s.expire && t1 < s.expire[key]
    ensures Run(cfg, s, key, Get, t1, t1) == (s, Found(s.cache[key]))
    ensures Run(cfg, s, key, HasKey, t1, t1) == (s, Flag(true))
    ensures var (s', r) := Run(cfg, s, key, Delete, t1, t1);
            r == Flag(true) && Run(cfg, s', key, Get, t, t).1 == Found(Nil) && key !in s'.cache && key !in s'.expire
    ensures s.cache[key].Int? ==>
              var (s', r) := Run(cfg, s, key, Incr(d), t1, t1);
              && r == Number(s.cache[key].n + d)
              && Run(cfg, s', key, Get, t, t).1 == Found(if t < s.expire[key] then Int(s.cache[key].n + d) else Nil)
    ensures !s.cache[key].Int? ==>
              && Run(cfg, s, key, Incr(d), t1, t1) == (s, NotANumber)
              && Run(cfg, s, key, Decr(d), t1, t1) == (s, NotANumber)
  {
  }

  /** An entry that is missing or whose deadline has come is as good as absent, and reading it leaves nothing behind. */
  lemma AbsentEntries(cfg: Config, s: Store, key: Key, d: int, ttl: Option<real>, t: Instant)
    requires s.cache.Keys == s.expire.Keys && (key in s.expire ==> s.expire[key] <= t)
    ensures Run(cfg, s, key, Get, t, t).1 == Found(Nil) && Run(cfg, s, key, HasKey, t, t).1 == Flag(false)
    ensures Run(cfg, s, key, Incr(d), t, t).1 == KeyNotFound && Run(cfg, s, key, Decr(d), t, t).1 == KeyNotFound
    ensures Run(cfg, s, key, Touch(ttl), t, t) == (s, Flag(false))
    ensures Run(cfg, s, key, Delete, t, t).1 == Flag(key in s.cache)
    ensures forall op :: op == Get || op == HasKey || op == Incr(d) || op == Decr(d) || op == Delete ==>
              var s' := Run(cfg, s, key, op, t, t).0; key !in s'.cache && key !in s'.expire
  {
  }

  // ----- the plain timed map -----

  datatype Entry = Entry(value: Value, deadline: real)
  type Timed = map<Key, Entry>

  predicate Live(m: Timed, key: Key, now: Instant) {
    key in m && now < m[key].deadline
  }

  function Max0(n: int): int {
    if n < 0 then 0 else n
  }

  function Apply(cfg: Config, m: Timed, key: Key, op: Op, t1: Instant, t2: Instant): (Timed, Reply) {
    var live := Live(m, key, t1);
    match op
    case Get => (m, Found(if live then m[key].value else Nil))
    case HasKey => (m, Flag(live))
    case Delete => (m - {key}, Flag(live))
    case Set(v, ttl) => (m[key := Entry(v, Deadline(cfg, ttl, t1))], Flag(true))
    case Touch(ttl) =>
      (if live then m[key := Entry(m[key].value, Deadline(cfg, ttl, t2))] else m, Flag(live))
    case Incr(d) => if live then Count(m, key, d) else (m, KeyNotFound)
    case Decr(d) => if live then CountDown(m, key, d) else (m, KeyNotFound)
  }

  /** Adds to a number, keeping its deadline; anything else is a TypeError. */
  function Count(m: Timed, key: Key, delta: int): (Timed, Reply)
    requires key in m
  {
    match m[key].value
    case Int(n) => (m[key := Entry(Int(n + delta), m[key].deadline)], Number(n + delta))
    case _ => (m, NotANumber)
  }

  /** Takes from a number, stopping at zero. */
  function CountDown(m: Timed, key: Key, delta: int): (Timed, Reply)
    requires key in m
  {
    match m[key].value
    case Int(n) => (m[key := Entry(Int(Max0(n - delta)), m[key].deadline)], Number(Max0(n - delta)))
    case _ => (m, NotANumber)
  }

  // ----- refinement -----

  /** The store holds the map, except for entries swept after their deadline. */
  ghost predicate Represents(s: Store, m: Timed, now: real) {
    && s.cache.Keys == s.expire.Keys
    && (forall k :: k in s.cache ==> k in m && m[k] == Entry(s.cache[k], s.expire[k]))
    && (forall k :: k in m && k !in s.cache ==> m[k].deadline <= now)
  }

  /**
   The answers agree, but `delete` also says True for an entry that has expired
   and has not been swept.
   */
  ghost predicate Agree(s: Store, m: Timed, key: Key, op: Op, t1: Instant, r: Reply, spec: Reply) {
    if op.Delete? then r == Flag(key in s.cache) && (spec == Flag(key in s.cache && !HasExpired(s, key, t1)))
    else r == spec
  }

  /** The dictionaries and the map take the same step. */
  ghost predicate Refines(cfg: Config, s: Store, m: Timed, key: Key, op: Op, t1: Instant, t2: Instant) {
    var (s', r) := Run(cfg, s, key, op, t1, t2);
    var (m', r') := Apply(cfg, m, key, op, t1, t2);
    && Represents(s', m', t2)
    && Agree(s, m, key, op, t1, r, r')
    && r != MissingEntry
  }

  lemma ReadsRefine(cfg: Config, s: Store, m: Timed, key: Key, op: Op, t0: real, t1: Instant, t2: Instant)
    requires Represents(s, m, t0) && t0 <= t1 <= t2 && (op.Get? || op.HasKey? || op.Delete?)
    ensures Refines(cfg, s, m, key, op, t1, t2)
  {
    assert HasExpired(s, key, t1) <==> !Live(m, key, t1);
  }

  lemma WritesRefine(cfg: Config, s: Store, m: Timed, key: Key, op: Op, t0: real, t1: Instant, t2: Instant)
    requires Represents(s, m, t0) && t0 <= t1 <= t2 && (op.Set? || op.Touch?)
    ensures Refines(cfg, s, m, key, op, t1, t2)
  {
    assert HasExpired(s, key, t1) <==> !Live(m, key, t1);
  }

  lemma IncrRefines(cfg: Config, s: Store, m: Timed, key: Key, d: int, t0: real, t1: Instant, t2: Instant)
    requires Represents(s, m, t0) && t0 <= t1 <= t2
    ensures Refines(cfg, s, m, key, Incr(d), t1, t2)
  {
    assert HasExpired(s, key, t1) <==> !Live(m, key, t1);
  }

  lemma DecrRefines(cfg: Config, s: Store, m: Timed, key: Key, d: int, t0: real, t1: Instant, t2: Instant)
    requires Represents(s, m, t0) && t0 <= t1 <= t2
    ensures Refines(cfg, s, m, key, Decr(d), t1, t2)
  {
    assert HasExpired(s, key, t1) <==> !Live(m, key, t1);
  }

  /** Every operation on the dictionaries does what it does on the timed map. */
  lemma RunRefinesApply(cfg: Config, s: Store, m: Timed, key: Key, op: Op, t0: real, t1: Instant, t2: Instant)
    requires Represents(s, m, t0) && t0 <= t1 <= t2
    ensures Refines(cfg, s, m, key, op, t1, t2)
  {
    if op.Get? || op.HasKey? || op.Delete? {
      ReadsRefine(cfg, s, m, key, op, t0, t1, t2);
    } else if op.Set? || op.Touch? {
      WritesRefine(cfg, s, m, key, op, t0, t1, t2);
    } else if op.Incr? {
      IncrRefines(cfg, s, m, key, op.delta, t0, t1, t2);
    } else {
      DecrRefines(cfg, s, m, key, op.delta, t0, t1, t2);
    }
  }

  /** An operation on one stored key leaves every other entry as it was. */
  lemma OtherKeysUntouched(cfg: Config, s: Store, key: Key, other: Key, op: Op, t1: Instant, t2: Instant)
    requires other != key
    ensures var s' := Run(cfg, s, key, op, t1, t2).0;
            && (other in s'.cache <==> other in s.cache)
            && (other in s.cache ==> s'.cache[other] == s.cache[other])
            && (other in s'.expire <==> other in s.expire)
            && (other in s.expire ==> s'.expire[other] == s.expire[other])
  {
  }

  /** Operations on one (version, key) pair never change what another pair reads. */
  lemma PairsAreIndependent(cfg: Config, s: Store, k1: string, v1: Option<string>, op1: Op,
                            k2: string, v2: Option<string>, t1: Instant, t2: Instant, t: Instant)
    requires ColonFree(v1) && ColonFree(v2)
    requires VersionText(cfg, v1) != VersionText(cfg, v2) || k1 != k2
    ensures var s' := Run(cfg, s, MakeKey(cfg, k1, v1), op1, t1, t2).0;
            Run(cfg, s', MakeKey(cfg, k2, v2), Get, t, t).1 == Run(cfg, s, MakeKey(cfg, k2, v2), Get, t, t).1
  {
    MakeKeyInjective(cfg, k1, v1, k2, v2);
    OtherKeysUntouched(cfg, s, MakeKey(cfg, k1, v1), MakeKey(cfg, k2, v2), op1, t1, t2);
  }

  // ----- counters -----

  datatype Call = Call(key: Key, op: Op, t1: Instant, t2: Instant)

  function RunAll(cfg: Config, s: Store, calls: seq<Call>): Store
    decreases |calls|
  {
    if calls == [] then s
    else
      var c := calls[0];
      RunAll(cfg, Run(cfg, s, c.key, c.op, c.t1, c.t2).0, calls[1..])
  }

  /** Calls that treat `key` as a counter: no overwriting, no increment by a negative amount. */
  predicate CounterCall(key: Key, c: Call) {
    c.key == key ==> !c.op.Set? && (c.op.Incr? ==> c.op.delta >= 0)
  }

  predicate HoldsCounter(s: Store, key: Key) {
    key in s.cache ==> s.cache[key].Int? && s.cache[key].n >= 0
  }

  /** A live counter: `decr` stores and answers max(0, n - d) and leaves the deadline alone. */
  lemma DecrStopsAtZero(cfg: Config, s: Store, key: Key, n: int, d: int, t1: Instant, t2: Instant)
    requires key in s.cache && s.cache[key] == Int(n) && !HasExpired(s, key, t1)
    ensures Run(cfg, s, key, Decr(d), t1, t2) ==
            (Store(s.cache[key := Int(Max0(n - d))], s.expire), Number(Max0(n - d)))
  {
    if n - d < 0 {
      assert s.cache[key := Int(n - d)][key := Int(0)] == s.cache[key := Int(0)];
    }
  }

  /** Over any run of such calls, mixed with any calls on other keys, a counter never goes below zero. */
  lemma {:induction false} CountersStayNonNegative(cfg: Config, s: Store, key: Key, calls: seq<Call>)
    requires HoldsCounter(s, key)
    requires forall c :: c in calls ==> CounterCall(key, c)
    ensures HoldsCounter(RunAll(cfg, s, calls), key)
    decreases |calls|
  {
    if calls != [] {
      var c := calls[0];
      var s' := Run(cfg, s, c.key, c.op, c.t1, c.t2).0;
      assert CounterCall(key, c);
      if c.key != key {
        OtherKeysUntouched(cfg, s, c.key, key, c.op, c.t1, c.t2);
      }
      assert HoldsCounter(s', key);
      CountersStayNonNegative(cfg, s', key, calls[1..]);
    }
  }

  // ----- whole runs -----

  /** One finished operation: its key, its clock readings and its answer. */
  datatype Event = Event(task: int, key: Key, op: Op, t1: Instant, t2: Instant, reply: Reply)

  function Replay(cfg: Config, log: seq<Event>): Timed {
    if log == [] then map[]
    else
      var e := log[|log| - 1];
      Apply(cfg, Replay(cfg, log[..|log| - 1]), e.key, e.op, e.t1, e.t2).0
  }

  /** The clock reading the log ends on. */
  function LastTime(log: seq<Event>): real {
    if log == [] then 0.0 else log[|log| - 1].t2
  }

  /** The answer allowed to an event whose predecessors left the map `m`. */
  ghost predicate Answers(cfg: Config, m: Timed, e: Event) {
    var spec := Apply(cfg, m, e.key, e.op, e.t1, e.t2).1;
    e.reply == spec || (e.op.Delete? && e.reply == Flag(true) && e.key in m && !Live(m, e.key, e.t1))
  }

  /** Every event answers as the timed map does, at instants that never go back. */
  ghost predicate Legal(cfg: Config, log: seq<Event>) {
    forall i :: 0 <= i < |log| ==>
      && LastTime(log[..i]) <= log[i].t1 <= log[i].t2
      && Answers(cfg, Replay(cfg, log[..i]), log[i])
  }

  lemma LegalExtends(cfg: Config, log: seq<Event>, e: Event)
    requires Legal(cfg, log)
    requires LastTime(log) <= e.t1 <= e.t2 && Answers(cfg, Replay(cfg, log), e)
    ensures Legal(cfg, log + [e])
    ensures Replay(cfg, log + [e]) == Apply(cfg, Replay(cfg, log), e.key, e.op, e.t1, e.t2).0
  {
    var longer := log + [e];
    assert longer[..|log|] == log;
    forall i | 0 <= i < |longer|
      ensures LastTime(longer[..i]) <= longer[i].t1 <= longer[i].t2
      ensures Answers(cfg, Replay(cfg, longer[..i]), longer[i])
    {
      assert longer[..i] == log[..i];
    }
  }

  // ----- what a legal history says -----

  predicate OnlyReads(op: Op) {
    op.Get? || op.HasKey?
  }

  /** Events that only read a key, or concern other keys, leave its entry in the map. */
  lemma {:induction false} ReadsKeepEntry(cfg: Config, log: seq<Event>, key: Key, i: nat, j: nat)
    requires i <= j <= |log| && key in Replay(cfg, log[..i])
    requires forall k :: i <= k < j && log[k].key == key ==> OnlyReads(log[k].op)
    ensures key in Replay(cfg, log[..j]) && Replay(cfg, log[..j])[key] == Replay(cfg, log[..i])[key]
    decreases j
  {
    if i < j {
      ReadsKeepEntry(cfg, log, key, i, j - 1);
      assert log[..j][..j - 1] == log[..j - 1] && log[..j][j - 1] == log[j - 1];
    }
  }

  /** In a legal history, a get answers what the last set of its key stored, for as long as that lasts. */
  lemma LastSetIsFound(cfg: Config, log: seq<Event>, i: nat, j: nat)
    requires Legal(cfg, log) && i < j < |log|
    requires log[i].op.Set? && log[j].op == Get && log[i].key == log[j].key
    requires forall k :: i < k < j && log[k].key == log[i].key ==> OnlyReads(log[k].op)
    ensures var Set(v, ttl) := log[i].op;
            var life := Life(cfg, ttl);
            log[j].reply == Found(if log[j].t1 < log[i].t1 + life then v else Nil)
  {
    assert log[..i + 1][..i] == log[..i];
    ReadsKeepEntry(cfg, log, log[i].key, i + 1, j);
  }

  lemma {:induction false} LaterEventsReadLater(cfg: Config, log: seq<Event>, i: nat, j: nat)
    requires Legal(cfg, log) && i <= j < |log|
    ensures log[i].t1 <= log[j].t1
    decreases j
  {
    if i < j {
      LaterEventsReadLater(cfg, log, i, j - 1);
      assert log[..j][j - 1] == log[j - 1];
      assert log[j - 1].t1 <= log[j - 1].t2 == LastTime(log[..j]) <= log[j].t1;
    }
  }

  predicate OnlyCounts(op: Op) {
    op.Get? || op.HasKey? || op.Incr? || op.Decr?
  }

  /** What a counter at `n` stands at after the events on its key: increments add, decrements stop at zero. */
  function Tally(n: int, log: seq<Event>, key: Key): int {
    if log == [] then n
    else
      Counted(Tally(n, log[..|log| - 1], key), log[|log| - 1], key)
  }

  function Counted(n: int, e: Event, key: Key): int {
    if e.key != key then n
    else match e.op
      case Incr(d) => n + d
      case Decr(d) => if n < d then 0 else n - d
      case _ => n
  }

  lemma CountsOnce(cfg: Config, m: Timed, key: Key, e: Event, n: int)
    requires key in m && m[key].value == Int(n) && e.t1 < m[key].deadline
    requires e.key == key ==> OnlyCounts(e.op)
    ensures var m' := Apply(cfg, m, e.key, e.op, e.t1, e.t2).0;
            key in m' && m'[key] == Entry(Int(Counted(n, e, key)), m[key].deadline)
  {
  }

  lemma ReplaySnoc(cfg: Config, log: seq<Event>, j: nat)
    requires j < |log|
    ensures var e := log[j];
            Replay(cfg, log[..j + 1]) == Apply(cfg, Replay(cfg, log[..j]), e.key, e.op, e.t1, e.t2).0
  {
    assert log[..j + 1][..j] == log[..j];
  }

  lemma TallySnoc(n: int, log: seq<Event>, i: nat, j: nat, key: Key)
    requires i <= j < |log|
    ensures Tally(n, log[i..j + 1], key) == Counted(Tally(n, log[i..j], key), log[j], key)
  {
    assert log[i..j + 1][..j - i] == log[i..j];
  }

  /** The map has a counter at `n` under the key. */
  ghost predicate IsCounter(m: Timed, key: Key, n: int, deadline: real) {
    key in m && m[key] == Entry(Int(n), deadline)
  }

  lemma CounterStep(cfg: Config, log: seq<Event>, key: Key, i: nat, j: nat, n: int, deadline: real)
    requires i <= j < |log| && log[j].t1 < deadline && (log[j].key == key ==> OnlyCounts(log[j].op))
    requires IsCounter(Replay(cfg, log[..j]), key, Tally(n, log[i..j], key), deadline)
    ensures IsCounter(Replay(cfg, log[..j + 1]), key, Tally(n, log[i..j + 1], key), deadline)
  {
    CountsOnce(cfg, Replay(cfg, log[..j]), key, log[j], Tally(n, log[i..j], key));
    ReplaySnoc(cfg, log, j);
    TallySnoc(n, log, i, j, key);
  }

  ghost predicate OnlyCounted(log: seq<Event>, key: Key, i: nat, j: nat)
    requires j <= |log|
  {
    forall k :: i <= k < j && log[k].key == key ==> OnlyCounts(log[k].op)
  }

  ghost predicate AllBefore(log: seq<Event>, i: nat, j: nat, deadline: real)
    requires j <= |log|
  {
    forall k :: i <= k < j ==> log[k].t1 < deadline
  }

  /** The entry of a counter that lives throughout holds the tally, with the deadline it was stored with. */
  lemma {:induction false} CounterHoldsItsTally(
      cfg: Config, log: seq<Event>, key: Key, i: nat, j: nat, n: int, deadline: real)
    requires i <= j <= |log| && OnlyCounted(log, key, i, j) && AllBefore(log, i, j, deadline)
    requires IsCounter(Replay(cfg, log[..i]), key, n, deadline)
    ensures IsCounter(Replay(cfg, log[..j]), key, Tally(n, log[i..j], key), deadline)
    decreases j
  {
    if i < j {
      CounterHoldsItsTally(cfg, log, key, i, j - 1, n, deadline);
      CounterStep(cfg, log, key, i, j - 1, n, deadline);
    } else {
      NothingTallied(log, i, n, key);
    }
  }

  lemma NothingTallied(log: seq<Event>, i: nat, n: int, key: Key)
    requires i <= |log|
    ensures Tally(n, log[i..i], key) == n
  {
    assert log[i..i] == [];
  }

  /** In a legal history, a number that is stored, counted up and down and read while it lives reads as its tally. */
  lemma CounterAnswersItsTally(cfg: Config, log: seq<Event>, i: nat, j: nat)
    requires Legal(cfg, log) && i < j < |log|
    requires log[i].op.Set? && log[i].op.value.Int? && log[j].op == Get && log[j].key == log[i].key
    requires log[j].t1 < log[i].t1 + Life(cfg, log[i].op.ttl)
    requires OnlyCounted(log, log[i].key, i + 1, j)
    ensures log[j].reply == Found(Int(Tally(log[i].op.value.n, log[i + 1..j], log[i].key)))
  {
    ReplaySnoc(cfg, log, i);
    var deadline := Replay(cfg, log[..i + 1])[log[i].key].deadline;
    forall k | i < k < j
      ensures log[k].t1 < deadline
    {
      LaterEventsReadLater(cfg, log, k, j);
    }
    CounterHoldsItsTally(cfg, log, log[i].key, i + 1, j, log[i].op.value.n, deadline);
  }
}
