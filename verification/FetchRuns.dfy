/**
 Fetching through the cache while debuggees stop, run on and are replaced. Every
 endpoint keeps, for the record, all the memory it ever showed and the stop
 generation it showed it under.
 */
module FetchRuns {
  import opened BufferCaching
  import opened Wrappers

  const CAPACITY: nat := 4

  type Contents = seq<int>
  type Memory = map<string, Contents>

  /** What an endpoint showed at some moment. */
  datatype Moment = Moment(generation: nat, memory: Memory)

  /** A debugger endpoint. Tokens are never reused; pids may be. */
  datatype Id = Id(pid: int, token: string)

  datatype Key = Key(id: Id, symbol: string, generation: nat)
  datatype Value = Value(contents: Contents, stopGeneration: nat)

  /** A fetch under way: pinged and looking in the cache, missed, holding what the
      debugger thread read, or holding the whole reply. */
  datatype Progress =
    | Pinged(key: Key)
    | Missed(key: Key)
    | Read(key: Key, contents: Contents)
    | Replied(key: Key, value: Value)

  type Log = seq<Moment>

  datatype State = State(logs: map<Id, Log>, cache: seq<Entry<Key, Value>>, fetches: map<nat, Progress>)

  datatype Step =
    | Start(id: Id, memory: Memory)
    | Change(id: Id, memory: Memory)
    | NotifyStop(id: Id)
    | Ping(fetch: nat, id: Id, symbol: string)
    | Look(fetch: nat)
    | ReadMemory(fetch: nat)
    | Reply(fetch: nat)
    | Fail(fetch: nat)
    | Store(fetch: nat)

  function Last(log: Log): Moment
    requires log != []
  {
    log[|log| - 1]
  }

  function Initial(): State { State(map[], [], map[]) }

  predicate LogsExist(s: State) {
    && (forall id <- s.logs :: s.logs[id] != [])
    && (forall f <- s.fetches :: s.fetches[f].key.id in s.logs)
  }

  predicate Enabled(s: State, step: Step) {
    match step
    case Start(id, _) => id !in s.logs
    case Change(id, _) => id in s.logs
    case NotifyStop(id) => id in s.logs
    case Ping(f, id, _) => f !in s.fetches && id in s.logs
    case Look(f) => f in s.fetches && s.fetches[f].Pinged?
    case ReadMemory(f) =>
      f in s.fetches && s.fetches[f].Missed? && s.fetches[f].key.id in s.logs
      && s.logs[s.fetches[f].key.id] != []
      && s.fetches[f].key.symbol in Last(s.logs[s.fetches[f].key.id]).memory
    case Reply(f) => f in s.fetches && s.fetches[f].Read?
    case Fail(f) => f in s.fetches && !s.fetches[f].Pinged?
    case Store(f) => f in s.fetches && s.fetches[f].Replied?
  }

  /** What a fetch's cache lookup answers. */
  function Answer(s: State, f: nat): Option<Value>
    requires Enabled(s, Look(f))
  {
    Lookup(s.cache, s.fetches[f].key)
  }

  function Logged(s: State, id: Id, m: Moment): State
    requires id in s.logs
  {
    s.(logs := s.logs[id := s.logs[id] + [m]])
  }

  /** The same memory, a generation later. */
  function NextStop(m: Moment): Moment { Moment(m.generation + 1, m.memory) }

  function Take(s: State, step: Step): State
    requires LogsExist(s) && Enabled(s, step)
  {
    match step
    case Start(id, memory) => s.(logs := s.logs[id := [Moment(0, memory)]])
    case Change(id, memory) => Logged(s, id, Moment(Last(s.logs[id]).generation, memory))
    case NotifyStop(id) => Logged(s, id, NextStop(Last(s.logs[id])))
    case Ping(f, id, symbol) =>
      s.(fetches := s.fetches[f := Pinged(Key(id, symbol, Last(s.logs[id]).generation))])
    case Look(f) =>
      var key := s.fetches[f].key;
      s.(cache := Apply(s.cache, Op.Get(key), CAPACITY),
         fetches := if Answer(s, f).Some? then s.fetches - {f} else s.fetches[f := Missed(key)])
    case ReadMemory(f) =>
      var key := s.fetches[f].key;
      s.(fetches := s.fetches[f := Read(key, Last(s.logs[key.id]).memory[key.symbol])])
    case Reply(f) =>
      var key := s.fetches[f].key;
      s.(fetches := s.fetches[f := Replied(key, Value(s.fetches[f].contents, Last(s.logs[key.id]).generation))])
    case Fail(f) => s.(fetches := s.fetches - {f})
    case Store(f) =>
      s.(cache := Apply(s.cache, Op.Put(s.fetches[f].key, s.fetches[f].value), CAPACITY), fetches := s.fetches - {f})
  }

  // ---------------------------------------------------------------------
  // Invariant
  // ---------------------------------------------------------------------

  /** Stop generations never go back. */
  predicate Monotone(log: Log) {
    forall i, j :: 0 <= i <= j < |log| ==> log[i].generation <= log[j].generation
  }

  /** Moment `k` showed these contents, at or after the key's generation. */
  predicate Shown(log: Log, k: nat, key: Key, contents: Contents) {
    && k < |log| && key.symbol in log[k].memory && log[k].memory[key.symbol] == contents
    && log[k].generation >= key.generation
  }

  ghost predicate WasShown(log: Log, key: Key, contents: Contents) {
    exists k: nat :: Shown(log, k, key, contents)
  }

  /** ... and the reply's own generation is no earlier than that moment's. */
  ghost predicate WasReplied(log: Log, key: Key, v: Value) {
    && log != [] && v.stopGeneration <= Last(log).generation
    && exists k: nat :: Shown(log, k, key, v.contents) && log[k].generation <= v.stopGeneration
  }

  ghost predicate FetchSound(s: State, f: nat)
    requires LogsExist(s) && f in s.fetches
  {
    var fetch := s.fetches[f];
    var log := s.logs[fetch.key.id];
    && fetch.key.generation <= Last(log).generation
    && (fetch.Read? ==> WasShown(log, fetch.key, fetch.contents))
    && (fetch.Replied? ==> WasReplied(log, fetch.key, fetch.value))
  }

  ghost predicate EntrySound(s: State, e: Entry<Key, Value>) {
    e.key.id in s.logs && WasReplied(s.logs[e.key.id], e.key, e.value)
  }

  ghost predicate Invariant(s: State) {
    && LogsExist(s) && Sound(s.cache, CAPACITY)
    && (forall id <- s.logs :: Monotone(s.logs[id]))
    && (forall f <- s.fetches :: FetchSound(s, f))
    && (forall e <- s.cache :: EntrySound(s, e))
  }

  lemma GrowKeeps(log: Log, m: Moment, key: Key, v: Value)
    requires log != [] && Monotone(log) && m.generation >= Last(log).generation
    ensures Monotone(log + [m])
    ensures WasShown(log, key, v.contents) ==> WasShown(log + [m], key, v.contents)
    ensures WasReplied(log, key, v) ==> WasReplied(log + [m], key, v)
  {
    var longer := log + [m];
    assert forall k :: 0 <= k < |log| ==> longer[k] == log[k];
    if WasShown(log, key, v.contents) {
      var k: nat :| Shown(log, k, key, v.contents);
      assert Shown(longer, k, key, v.contents);
    }
    if WasReplied(log, key, v) {
      var k: nat :| Shown(log, k, key, v.contents) && log[k].generation <= v.stopGeneration;
      assert Shown(longer, k, key, v.contents);
    }
  }

  lemma LogStepKeeps(s: State, id: Id, m: Moment)
    requires Invariant(s) && id in s.logs && m.generation >= Last(s.logs[id]).generation
    ensures Invariant(Logged(s, id, m))
  {
    var t := Logged(s, id, m);
    var key0, v0 := Key(id, "", 0), Value([], 0);
    GrowKeeps(s.logs[id], m, key0, v0);
    forall f <- t.fetches ensures FetchSound(t, f) {
      assert FetchSound(s, f);
      var fetch := s.fetches[f];
      if fetch.key.id == id {
        if fetch.Read? { GrowKeeps(s.logs[id], m, fetch.key, Value(fetch.contents, 0)); }
        if fetch.Replied? { GrowKeeps(s.logs[id], m, fetch.key, fetch.value); }
      }
    }
    forall e <- t.cache ensures EntrySound(t, e) {
      assert EntrySound(s, e);
      if e.key.id == id { GrowKeeps(s.logs[id], m, e.key, e.value); }
    }
  }

  lemma CacheStepKeeps(s: State, op: Op<Key, Value>)
    requires Invariant(s)
    requires op.Put? ==> EntrySound(s, Entry(op.key, op.value))
    ensures Invariant(s.(cache := Apply(s.cache, op, CAPACITY)))
  {
    ApplySound(s.cache, op, CAPACITY);
    var t := s.(cache := Apply(s.cache, op, CAPACITY));
    forall e <- t.cache ensures EntrySound(t, e) {
      FromCacheOrOp(s.cache, op, e);
      assert EntrySound(s, e);
    }
    forall f <- t.fetches ensures FetchSound(t, f) { assert FetchSound(s, f); }
  }

  lemma FromCacheOrOp(cache: seq<Entry<Key, Value>>, op: Op<Key, Value>, e: Entry<Key, Value>)
    requires e in Apply(cache, op, CAPACITY)
    ensures e in cache || (op.Put? && e == Entry(op.key, op.value))
  {
    if op.Put? {
      var all := Without(cache, op.key) + [Entry(op.key, op.value)];
      assert e in all;
    }
  }

  lemma FetchStepKeeps(s: State, f: nat, fetch: Progress)
    requires Invariant(s) && fetch.key.id in s.logs
    requires FetchSound(s.(fetches := s.fetches[f := fetch]), f)
    ensures Invariant(s.(fetches := s.fetches[f := fetch]))
  {
    var t := s.(fetches := s.fetches[f := fetch]);
    forall g <- t.fetches ensures FetchSound(t, g) {
      if g != f { assert FetchSound(s, g); }
    }
    forall e <- t.cache ensures EntrySound(t, e) { assert EntrySound(s, e); }
  }

  lemma DropKeeps(s: State, f: nat)
    requires Invariant(s)
    ensures Invariant(s.(fetches := s.fetches - {f}))
  {
    var t := s.(fetches := s.fetches - {f});
    forall g <- t.fetches ensures FetchSound(t, g) { assert FetchSound(s, g); }
    forall e <- t.cache ensures EntrySound(t, e) { assert EntrySound(s, e); }
  }

  lemma StartKeeps(s: State, id: Id, memory: Memory)
    requires Invariant(s) && id !in s.logs
    ensures Invariant(Take(s, Start(id, memory)))
  {
    var t := Take(s, Start(id, memory));
    forall g <- t.fetches ensures FetchSound(t, g) { assert FetchSound(s, g); }
    forall e <- t.cache ensures EntrySound(t, e) { assert EntrySound(s, e); }
  }

  lemma ReadKeeps(s: State, f: nat)
    requires Invariant(s) && Enabled(s, ReadMemory(f))
    ensures Invariant(Take(s, ReadMemory(f)))
  {
    assert FetchSound(s, f);
    var key := s.fetches[f].key;
    var log := s.logs[key.id];
    var contents := Last(log).memory[key.symbol];
    assert Shown(log, |log| - 1, key, contents);
    FetchStepKeeps(s, f, Read(key, contents));
  }

  lemma ReplyKeeps(s: State, f: nat)
    requires Invariant(s) && Enabled(s, Reply(f))
    ensures Invariant(Take(s, Reply(f)))
  {
    assert FetchSound(s, f);
    var key := s.fetches[f].key;
    var log := s.logs[key.id];
    var k: nat :| Shown(log, k, key, s.fetches[f].contents);
    assert log[k].generation <= Last(log).generation;
    var value := Value(s.fetches[f].contents, Last(log).generation);
    assert WasReplied(log, key, value);
    FetchStepKeeps(s, f, Replied(key, value));
  }

  lemma LookKeeps(s: State, f: nat)
    requires Invariant(s) && Enabled(s, Look(f))
    ensures Invariant(Take(s, Look(f)))
  {
    assert FetchSound(s, f);
    var key := s.fetches[f].key;
    CacheStepKeeps(s, Op.Get(key));
    var t := s.(cache := Apply(s.cache, Op.Get(key), CAPACITY));
    if Answer(s, f).Some? { DropKeeps(t, f); } else { FetchStepKeeps(t, f, Missed(key)); }
  }

  lemma StoreKeeps(s: State, f: nat)
    requires Invariant(s) && Enabled(s, Store(f))
    ensures Invariant(Take(s, Store(f)))
  {
    assert FetchSound(s, f);
    var put := Op.Put(s.fetches[f].key, s.fetches[f].value);
    CacheStepKeeps(s, put);
    DropKeeps(s.(cache := Apply(s.cache, put, CAPACITY)), f);
  }

  lemma PingKeeps(s: State, f: nat, id: Id, symbol: string)
    requires Invariant(s) && Enabled(s, Ping(f, id, symbol))
    ensures Invariant(Take(s, Ping(f, id, symbol)))
  {
    FetchStepKeeps(s, f, Pinged(Key(id, symbol, Last(s.logs[id]).generation)));
  }

  lemma ChangeKeeps(s: State, id: Id, memory: Memory)
    requires Invariant(s) && id in s.logs
    ensures Invariant(Take(s, Change(id, memory)))
  {
    LogStepKeeps(s, id, Moment(Last(s.logs[id]).generation, memory));
  }

  lemma NotifyKeeps(s: State, id: Id)
    requires Invariant(s) && id in s.logs
    ensures Invariant(Take(s, NotifyStop(id)))
  {
    LogStepKeeps(s, id, NextStop(Last(s.logs[id])));
  }

  lemma FailKeeps(s: State, f: nat)
    requires Invariant(s) && Enabled(s, Fail(f))
    ensures Invariant(Take(s, Fail(f)))
  {
    DropKeeps(s, f);
  }

  /** Every step keeps the invariant, however fetches overlap. */
  lemma StepKeeps(s: State, step: Step)
    requires Invariant(s) && Enabled(s, step)
    ensures Invariant(Take(s, step))
  {
    match step
    case Start(id, memory) => StartKeeps(s, id, memory);
    case Change(id, memory) => ChangeKeeps(s, id, memory);
    case NotifyStop(id) => NotifyKeeps(s, id);
    case Ping(f, id, symbol) => PingKeeps(s, f, id, symbol);
    case Look(f) => LookKeeps(s, f);
    case ReadMemory(f) => ReadKeeps(s, f);
    case Reply(f) => ReplyKeeps(s, f);
    case Fail(f) => FailKeeps(s, f);
    case Store(f) => StoreKeeps(s, f);
  }

  // ---------------------------------------------------------------------
  // Runs
  // ---------------------------------------------------------------------

  /** A server that answers one call at a time starts no fetch during another. */
  predicate Alone(s: State, step: Step) { step.Ping? ==> s.fetches == map[] }

  /** Where a run ends, if every step of it was possible. */
  function After(steps: seq<Step>, serial: bool): Option<State>
    decreases |steps|
  {
    if steps == [] then Some(Initial())
    else
      match After(steps[..|steps| - 1], serial)
      case None => None
      case Some(s) =>
        var step := steps[|steps| - 1];
        if LogsExist(s) && Enabled(s, step) && (serial ==> Alone(s, step)) then Some(Take(s, step)) else None
  }

  lemma {:induction false} RunInvariant(steps: seq<Step>, serial: bool)
    requires After(steps, serial).Some?
    ensures Invariant(After(steps, serial).value)
    decreases |steps|
  {
    if steps != [] {
      RunInvariant(steps[..|steps| - 1], serial);
      StepKeeps(After(steps[..|steps| - 1], serial).value, steps[|steps| - 1]);
    }
  }

  /** These contents were shown in exactly the key's generation. */
  ghost predicate ShownInGeneration(log: Log, key: Key, contents: Contents) {
    exists k: nat :: Shown(log, k, key, contents) && log[k].generation == key.generation
  }

  /** After these steps fetch `f`, pinged under this key, is about to be answered from
      the cache, its endpoint having shown what the log says. */
  ghost predicate Hits(steps: seq<Step>, serial: bool, f: nat, key: Key, log: Log) {
    && After(steps, serial).Some?
    && var s := After(steps, serial).value;
       && Enabled(s, Look(f)) && s.fetches[f].key == key && Answer(s, f).Some?
       && key.id in s.logs && s.logs[key.id] == log
  }

  function HitValue(steps: seq<Step>, serial: bool, f: nat): Value
    requires After(steps, serial).Some?
    requires var s := After(steps, serial).value; Enabled(s, Look(f)) && Answer(s, f).Some?
  {
    Answer(After(steps, serial).value, f).value
  }

  lemma HitIsReplied(steps: seq<Step>, serial: bool, f: nat, key: Key, log: Log)
    requires Hits(steps, serial, f, key, log)
    ensures WasReplied(log, key, HitValue(steps, serial, f)) && Monotone(log)
  {
    var s := After(steps, serial).value;
    RunInvariant(steps, serial);
    var e := Entry(key, HitValue(steps, serial, f));
    assert e in s.cache && EntrySound(s, e);
  }

  /** However fetches overlap, a cached answer that carries the stop generation pinged
      was shown in exactly that one. */
  lemma SameNumberIsExact(steps: seq<Step>, serial: bool, f: nat, key: Key, log: Log)
    requires Hits(steps, serial, f, key, log) && HitValue(steps, serial, f).stopGeneration == key.generation
    ensures ShownInGeneration(log, key, HitValue(steps, serial, f).contents)
  {
    HitIsReplied(steps, serial, f, key, log);
    var v := HitValue(steps, serial, f);
    var k: nat :| Shown(log, k, key, v.contents) && log[k].generation <= v.stopGeneration;
    assert log[k].generation == key.generation;
  }

  ghost predicate SerialInvariant(s: State)
    requires LogsExist(s)
  {
    && (forall f, g :: f in s.fetches && g in s.fetches ==> f == g)
    && (forall f <- s.fetches :: s.fetches[f].Pinged? ==> EntriesCurrent(s.cache, s.fetches[f].key))
  }

  /** Whatever is cached under the key says it is of the key's generation. */
  predicate EntriesCurrent(cache: seq<Entry<Key, Value>>, key: Key) {
    forall e <- cache :: e.key == key ==> e.value.stopGeneration == key.generation
  }

  /** When a fetch pings, whatever is cached under the generation it hears of was
      answered in that generation: nothing later has happened yet. */
  lemma PingFindsCurrent(s: State, id: Id, symbol: string)
    requires Invariant(s) && id in s.logs
    ensures EntriesCurrent(s.cache, Key(id, symbol, Last(s.logs[id]).generation))
  {
    var key := Key(id, symbol, Last(s.logs[id]).generation);
    forall e <- s.cache | e.key == key ensures e.value.stopGeneration == key.generation {
      assert EntrySound(s, e);
    }
  }

  lemma SerialStepKeeps(s: State, step: Step)
    requires Invariant(s) && SerialInvariant(s) && Enabled(s, step) && Alone(s, step)
    ensures LogsExist(Take(s, step)) && SerialInvariant(Take(s, step))
  {
    StepKeeps(s, step);
    if step.Ping? { PingFindsCurrent(s, step.id, step.symbol); }
  }

  lemma {:induction false} SerialRunInvariant(steps: seq<Step>)
    requires After(steps, true).Some?
    ensures Invariant(After(steps, true).value) && SerialInvariant(After(steps, true).value)
    decreases |steps|
  {
    RunInvariant(steps, true);
    if steps != [] {
      SerialRunInvariant(steps[..|steps| - 1]);
      SerialStepKeeps(After(steps[..|steps| - 1], true).value, steps[|steps| - 1]);
    }
  }

  /** With one fetch at a time, a cached answer carries the stop generation that was
      pinged and is what the endpoint showed in exactly that one, whatever stops,
      restarts, reused pids and evictions the run holds. */
  lemma CachedAnswerIsExact(steps: seq<Step>, f: nat, key: Key, log: Log)
    requires Hits(steps, true, f, key, log)
    ensures HitValue(steps, true, f).stopGeneration == key.generation
    ensures ShownInGeneration(log, key, HitValue(steps, true, f).contents)
  {
    var s := After(steps, true).value;
    SerialRunInvariant(steps);
    assert EntriesCurrent(s.cache, key);
    assert Entry(key, HitValue(steps, true, f)) in s.cache;
    SameNumberIsExact(steps, true, f, key, log);
  }

  /** However fetches overlap, a cached answer is never from before the generation
      pinged, nor from another endpoint. */
  lemma CachedAnswerIsNeverOlder(steps: seq<Step>, f: nat, key: Key, log: Log)
    requires Hits(steps, false, f, key, log)
    ensures WasShown(log, key, HitValue(steps, false, f).contents)
  {
    HitIsReplied(steps, false, f, key, log);
  }

  lemma Extend(steps: seq<Step>, serial: bool, s: State, step: Step, t: State)
    requires After(steps, serial) == Some(s)
    requires LogsExist(s) && Enabled(s, step) && (serial ==> Alone(s, step)) && Take(s, step) == t
    ensures After(steps + [step], serial) == Some(t)
  {
    assert (steps + [step])[..|steps|] == steps;
  }

  lemma PingMisses(steps: seq<Step>, serial: bool, s: State, f: nat, id: Id, symbol: string) returns (more: seq<Step>)
    requires After(steps, serial) == Some(s) && LogsExist(s) && id in s.logs && f !in s.fetches
    requires serial ==> s.fetches == map[]
    requires Lookup(s.cache, Key(id, symbol, Last(s.logs[id]).generation)) == None
    ensures steps <= more
    ensures After(more, serial)
         == Some(s.(fetches := s.fetches[f := Missed(Key(id, symbol, Last(s.logs[id]).generation))]))
  {
    var key := Key(id, symbol, Last(s.logs[id]).generation);
    var t := s.(fetches := s.fetches[f := Pinged(key)]);
    Extend(steps, serial, s, Ping(f, id, symbol), t);
    var u := s.(fetches := s.fetches[f := Missed(key)]);
    assert Take(t, Look(f)) == u;
    Extend(steps + [Ping(f, id, symbol)], serial, t, Look(f), u);
    more := steps + [Ping(f, id, symbol)] + [Look(f)];
  }

  /** A fetch that missed reads, replies and stores with nothing in between. */
  lemma MissCompletes(steps: seq<Step>, serial: bool, s: State, f: nat) returns (more: seq<Step>)
    requires After(steps, serial) == Some(s) && LogsExist(s) && f in s.fetches && s.fetches[f].Missed?
    requires Enabled(s, ReadMemory(f))
    ensures var key := s.fetches[f].key;
      var now := Last(s.logs[key.id]);
      After(more, serial)
      == Some(s.(cache := Apply(s.cache, Op.Put(key, Value(now.memory[key.symbol], now.generation)), CAPACITY),
                 fetches := s.fetches - {f}))
  {
    var key := s.fetches[f].key;
    var now := Last(s.logs[key.id]);
    var t := s.(fetches := s.fetches[f := Read(key, now.memory[key.symbol])]);
    Extend(steps, serial, s, ReadMemory(f), t);
    var v := Value(now.memory[key.symbol], now.generation);
    var u := s.(fetches := s.fetches[f := Replied(key, v)]);
    assert Take(t, Reply(f)).fetches == u.fetches;
    Extend(steps + [ReadMemory(f)], serial, t, Reply(f), u);
    var w := s.(cache := Apply(s.cache, Op.Put(key, v), CAPACITY), fetches := s.fetches - {f});
    assert u.fetches - {f} == s.fetches - {f};
    Extend(steps + [ReadMemory(f)] + [Reply(f)], serial, u, Store(f), w);
    more := steps + [ReadMemory(f)] + [Reply(f)] + [Store(f)];
  }

  lemma FirstStore(key: Key, v: Value)
    ensures Apply([], Op.Put(key, v), CAPACITY) == [Entry(key, v)]
  {
    var none: seq<Entry<Key, Value>> := [];
    assert Without(none, key) == none;
  }

  // ---------------------------------------------------------------------
  // What a debuggee does meanwhile
  // ---------------------------------------------------------------------

  /** What may happen at a debuggee while a fetch is under way. */
  datatype Happening = MemoryChanges(memory: Memory) | StopNotified

  function StepOf(id: Id, h: Happening): Step {
    match h
    case MemoryChanges(memory) => Change(id, memory)
    case StopNotified => NotifyStop(id)
  }

  function Next(m: Moment, h: Happening): Moment {
    match h
    case MemoryChanges(memory) => Moment(m.generation, memory)
    case StopNotified => NextStop(m)
  }

  function Grown(log: Log, happenings: seq<Happening>): (r: Log)
    requires log != []
    ensures r != []
    decreases |happenings|
  {
    if happenings == [] then log else Grown(log + [Next(Last(log), happenings[0])], happenings[1..])
  }

  lemma {:induction false} Elapses(run: seq<Step>, serial: bool, s: State, id: Id, happenings: seq<Happening>)
    returns (more: seq<Step>)
    requires After(run, serial) == Some(s) && LogsExist(s) && id in s.logs
    ensures run <= more
    ensures After(more, serial) == Some(s.(logs := s.logs[id := Grown(s.logs[id], happenings)]))
    decreases |happenings|
  {
    more := run;
    if happenings == [] {
      assert s.logs[id := s.logs[id]] == s.logs;
    } else {
      var log := s.logs[id] + [Next(Last(s.logs[id]), happenings[0])];
      var t := s.(logs := s.logs[id := log]);
      Extend(run, serial, s, StepOf(id, happenings[0]), t);
      more := Elapses(run + [StepOf(id, happenings[0])], serial, t, id, happenings[1..]);
      assert t.logs[id := Grown(log, happenings[1..])] == s.logs[id := Grown(log, happenings[1..])];
    }
  }

  lemma {:induction false} GrownJoin(log: Log, a: seq<Happening>, b: seq<Happening>)
    requires log != []
    ensures Grown(log, a + b) == Grown(Grown(log, a), b)
    decreases |a|
  {
    if a == [] {
      assert a + b == b;
    } else {
      assert (a + b)[1..] == a[1..] + b;
      GrownJoin(log + [Next(Last(log), a[0])], a[1..], b);
    }
  }

  lemma GrownOne(log: Log, h: Happening)
    requires log != []
    ensures Grown(log, [h]) == log + [Next(Last(log), h)]
  {
    assert [h][1..] == [];
  }

  /** The log of a debuggee that started with this memory. */
  function History(m0: Memory, happenings: seq<Happening>): (r: Log)
    ensures r != []
  {
    Grown([Moment(0, m0)], happenings)
  }

  lemma HistorySplit(m0: Memory, happenings: seq<Happening>, k: nat)
    requires k <= |happenings|
    ensures Grown(History(m0, happenings[..k]), happenings[k..]) == History(m0, happenings)
  {
    assert happenings[..k] + happenings[k..] == happenings;
    GrownJoin([Moment(0, m0)], happenings[..k], happenings[k..]);
  }

  /** The k-th moment is the last one after `k` happenings, and each moment is a
      happening after the one before. */
  lemma {:induction false} HistoryAt(m0: Memory, happenings: seq<Happening>, k: nat)
    requires k <= |happenings|
    ensures |History(m0, happenings)| == |happenings| + 1
    ensures Last(History(m0, happenings[..k])) == History(m0, happenings)[k]
    ensures k > 0 ==> History(m0, happenings)[k] == Next(History(m0, happenings)[k - 1], happenings[k - 1])
    ensures History(m0, happenings)[0] == Moment(0, m0)
    decreases |happenings|
  {
    var n := |happenings|;
    if n == 0 {
      assert happenings[..k] == happenings;
    } else {
      var front, last := happenings[..n - 1], happenings[n - 1];
      assert front + [last] == happenings;
      GrownJoin([Moment(0, m0)], front, [last]);
      GrownOne(History(m0, front), last);
      HistoryAt(m0, front, if k < n then k else n - 1);
      if k < n {
        assert front[..k] == happenings[..k];
      } else {
        assert happenings[..k] == happenings && front[..n - 1] == front;
      }
    }
  }

  /** Generations go up one at a time, so none below one reached is left out. */
  lemma {:induction false} GenerationReached(m0: Memory, happenings: seq<Happening>, k: nat, generation: nat) returns (j: nat)
    requires k < |History(m0, happenings)| && generation <= History(m0, happenings)[k].generation
    ensures j <= k && History(m0, happenings)[j].generation == generation
    decreases k
  {
    HistoryAt(m0, happenings, 0);
    HistoryAt(m0, happenings, k);
    if History(m0, happenings)[k].generation == generation {
      j := k;
    } else {
      j := GenerationReached(m0, happenings, k - 1, generation);
    }
  }

  lemma StartRun(serial: bool, id: Id, m0: Memory, happenings: seq<Happening>) returns (run: seq<Step>)
    ensures After(run, serial) == Some(State(map[id := History(m0, happenings)], [], map[]))
  {
    var none: seq<Step> := [];
    var s := State(map[id := [Moment(0, m0)]], [], map[]);
    assert Initial().logs[id := [Moment(0, m0)]] == s.logs;
    Extend(none, serial, Initial(), Start(id, m0), s);
    run := Elapses(none + [Start(id, m0)], serial, s, id, happenings);
    assert s.logs[id := History(m0, happenings)] == map[id := History(m0, happenings)];
  }

  // ---------------------------------------------------------------------
  // When the cache is current
  // ---------------------------------------------------------------------

  /** Reading again right now would give these contents. */
  predicate IsCurrent(log: Log, symbol: string, contents: Contents)
    requires log != []
  {
    symbol in Last(log).memory && Last(log).memory[symbol] == contents
  }

  /** Whatever the current generation has shown under a name is what it still shows. */
  predicate Unchanged(log: Log, symbol: string)
    requires log != []
  {
    forall k :: 0 <= k < |log| && log[k].generation == Last(log).generation && symbol in log[k].memory ==>
      IsCurrent(log, symbol, log[k].memory[symbol])
  }

  /** A cached answer is current if the debuggee shows what it has shown under that
      name since the stop. */
  lemma CachedAnswerIsCurrent(steps: seq<Step>, f: nat, key: Key, log: Log)
    requires Hits(steps, true, f, key, log) && log != [] && key.generation == Last(log).generation
    requires Unchanged(log, key.symbol)
    ensures IsCurrent(log, key.symbol, HitValue(steps, true, f).contents)
  {
    CachedAnswerIsExact(steps, f, key, log);
    var contents := HitValue(steps, true, f).contents;
    var k: nat :| Shown(log, k, key, contents) && log[k].generation == key.generation;
    assert IsCurrent(log, key.symbol, log[k].memory[key.symbol]);
  }

  /** No serial run that leaves the endpoint with this log answers from the cache with
      anything but what the endpoint shows now. */
  ghost predicate AlwaysCurrent(log: Log, key: Key)
    requires log != []
  {
    forall steps, f {:trigger Hits(steps, true, f, key, log)} :: Hits(steps, true, f, key, log) ==>
      IsCurrent(log, key.symbol, HitValue(steps, true, f).contents)
  }

  /** A buffer fetched and cached after `k` happenings, and asked for again at the end
      of the same generation. */
  lemma FetchedEarlier(id: Id, symbol: string, m0: Memory, happenings: seq<Happening>, k: nat) returns (steps: seq<Step>)
    requires var log := History(m0, happenings);
             && k < |log| && |log| == |happenings| + 1
             && log[k].generation == Last(log).generation && symbol in log[k].memory
    ensures var log := History(m0, happenings);
            && Hits(steps, true, 1, Key(id, symbol, Last(log).generation), log)
            && HitValue(steps, true, 1) == Value(log[k].memory[symbol], log[k].generation)
  {
    var log, early := History(m0, happenings), History(m0, happenings[..k]);
    HistoryAt(m0, happenings, k);
    HistorySplit(m0, happenings, k);
    var key, v := Key(id, symbol, Last(log).generation), Value(log[k].memory[symbol], log[k].generation);
    steps := StartRun(true, id, m0, happenings[..k]);
    steps := CachedOnce(steps, id, symbol, early);
    var s := State(map[id := early], [Entry(key, v)], map[]);
    steps := Elapses(steps, true, s, id, happenings[k..]);
    var t := State(map[id := log], [Entry(key, v)], map[]);
    assert s.logs[id := log] == t.logs;
    steps := AskedAgain(steps, t, key, v, log);
  }

  lemma CachedOnce(before: seq<Step>, id: Id, symbol: string, log: Log) returns (steps: seq<Step>)
    requires log != [] && symbol in Last(log).memory
    requires After(before, true) == Some(State(map[id := log], [], map[]))
    ensures var now := Last(log);
            After(steps, true)
            == Some(State(map[id := log],
                          [Entry(Key(id, symbol, now.generation), Value(now.memory[symbol], now.generation))], map[]))
  {
    var key, v := Key(id, symbol, Last(log).generation), Value(Last(log).memory[symbol], Last(log).generation);
    var s := State(map[id := log], [], map[]);
    steps := PingMisses(before, true, s, 0, id, symbol);
    steps := MissCompletes(steps, true, s.(fetches := map[0 := Missed(key)]), 0);
    FirstStore(key, v);
    assert map[0 := Missed(key)] - {0} == map[];
  }

  lemma AskedAgain(before: seq<Step>, s: State, key: Key, v: Value, log: Log) returns (steps: seq<Step>)
    requires log != [] && key.generation == Last(log).generation
    requires s == State(map[key.id := log], [Entry(key, v)], map[]) && After(before, true) == Some(s)
    ensures Hits(steps, true, 1, key, log) && HitValue(steps, true, 1) == v
  {
    Extend(before, true, s, Ping(1, key.id, key.symbol), s.(fetches := map[1 := Pinged(key)]));
    steps := before + [Ping(1, key.id, key.symbol)];
  }

  /** Whatever a debuggee has done since it started: the cache is sure to answer with
      what it shows now exactly when, since the last notified stop, it has never shown
      anything else under that name. */
  lemma CurrentExactlyWhenUnchanged(id: Id, symbol: string, m0: Memory, happenings: seq<Happening>)
    ensures var log := History(m0, happenings);
            Unchanged(log, symbol) <==> AlwaysCurrent(log, Key(id, symbol, Last(log).generation))
  {
    var log := History(m0, happenings);
    var key := Key(id, symbol, Last(log).generation);
    if Unchanged(log, symbol) {
      forall steps, f | Hits(steps, true, f, key, log) ensures IsCurrent(log, symbol, HitValue(steps, true, f).contents) {
        CachedAnswerIsCurrent(steps, f, key, log);
      }
    } else {
      var k :| 0 <= k < |log| && log[k].generation == Last(log).generation && symbol in log[k].memory
               && !IsCurrent(log, symbol, log[k].memory[symbol]);
      HistoryAt(m0, happenings, 0);
      var steps := FetchedEarlier(id, symbol, m0, happenings, k);
      assert Hits(steps, true, 1, key, log);
    }
  }

  const ID: Id := Id(1, "t")
  const KEY: Key := Key(ID, "a", 0)
  const BEFORE: Memory := map["a" := [0]]
  const LATER: Memory := map["a" := [1]]

  /** Memory that changes before the stop is notified is answered from the cache
      with what it held earlier in the generation. */
  lemma StaleUntilNotified() returns (steps: seq<Step>)
    ensures Hits(steps, true, 1, KEY, [Moment(0, BEFORE), Moment(0, LATER)])
    ensures HitValue(steps, true, 1).contents == [0]
  {
    var changed := MemoryChanges(LATER);
    GrownOne([Moment(0, BEFORE)], changed);
    assert History(BEFORE, [changed]) == [Moment(0, BEFORE), Moment(0, LATER)];
    steps := FetchedEarlier(ID, "a", BEFORE, [changed], 0);
  }

  // ---------------------------------------------------------------------
  // When overlapping fetches are exact
  // ---------------------------------------------------------------------

  /** Whatever is shown under a name from a generation on has been shown in it. */
  ghost predicate Repeats(log: Log, key: Key) {
    forall k :: 0 <= k < |log| && log[k].generation >= key.generation && key.symbol in log[k].memory ==>
      ShownInGeneration(log, key, log[k].memory[key.symbol])
  }

  /** No run at all that leaves the endpoint with this log answers from the cache with
      anything the generation pinged has not shown. */
  ghost predicate AlwaysExact(log: Log, key: Key) {
    forall steps, f {:trigger Hits(steps, false, f, key, log)} :: Hits(steps, false, f, key, log) ==>
      ShownInGeneration(log, key, HitValue(steps, false, f).contents)
  }

  /** Two fetches ping after `j` happenings; the first reads after `k` and stores at the
      end, and the second looks only then. */
  lemma ReadLater(id: Id, symbol: string, m0: Memory, happenings: seq<Happening>, j: nat, k: nat) returns (steps: seq<Step>)
    requires var log := History(m0, happenings);
             j <= k < |log| && |log| == |happenings| + 1 && symbol in log[k].memory
    ensures var log := History(m0, happenings);
            && Hits(steps, false, 1, Key(id, symbol, log[j].generation), log)
            && HitValue(steps, false, 1) == Value(log[k].memory[symbol], Last(log).generation)
  {
    var log := History(m0, happenings);
    var early, middle := happenings[..j], happenings[..k];
    HistoryAt(m0, happenings, j);
    HistoryAt(m0, happenings, k);
    var key := Key(id, symbol, log[j].generation);
    steps := StartRun(false, id, m0, early);
    steps := BothPinged(steps, key, History(m0, early));
    HistorySplit(m0, middle, j);
    assert middle[..j] == early;
    steps := Waits(steps, key, History(m0, early), Missed(key), middle[j..]);
    steps := FirstReads(steps, key, History(m0, middle));
    HistorySplit(m0, happenings, k);
    steps := Waits(steps, key, History(m0, middle), Read(key, log[k].memory[symbol]), happenings[k..]);
    steps := FirstStores(steps, key, log, log[k].memory[symbol]);
  }

  /** One fetch under way and another that has pinged, over an empty cache. */
  function Waiting(key: Key, log: Log, first: Progress): State {
    State(map[key.id := log], [], map[0 := first, 1 := Pinged(key)])
  }

  lemma Waits(before: seq<Step>, key: Key, log: Log, first: Progress, happenings: seq<Happening>) returns (steps: seq<Step>)
    requires log != [] && first.key == key && After(before, false) == Some(Waiting(key, log, first))
    ensures After(steps, false) == Some(Waiting(key, Grown(log, happenings), first))
  {
    var s := Waiting(key, log, first);
    steps := Elapses(before, false, s, key.id, happenings);
    assert s.logs[key.id := Grown(log, happenings)] == Waiting(key, Grown(log, happenings), first).logs;
  }

  lemma BothPinged(before: seq<Step>, key: Key, log: Log) returns (steps: seq<Step>)
    requires log != [] && key.generation == Last(log).generation
    requires After(before, false) == Some(State(map[key.id := log], [], map[]))
    ensures After(steps, false) == Some(Waiting(key, log, Missed(key)))
  {
    var s := State(map[key.id := log], [], map[]);
    steps := PingMisses(before, false, s, 0, key.id, key.symbol);
    var t := s.(fetches := map[0 := Missed(key)]);
    assert t.fetches[1 := Pinged(key)] == Waiting(key, log, Missed(key)).fetches;
    Extend(steps, false, t, Ping(1, key.id, key.symbol), Waiting(key, log, Missed(key)));
    steps := steps + [Ping(1, key.id, key.symbol)];
  }

  lemma FirstReads(before: seq<Step>, key: Key, log: Log) returns (steps: seq<Step>)
    requires log != [] && key.symbol in Last(log).memory
    requires After(before, false) == Some(Waiting(key, log, Missed(key)))
    ensures After(steps, false) == Some(Waiting(key, log, Read(key, Last(log).memory[key.symbol])))
  {
    var s, t := Waiting(key, log, Missed(key)), Waiting(key, log, Read(key, Last(log).memory[key.symbol]));
    assert s.fetches[0 := t.fetches[0]] == t.fetches;
    Extend(before, false, s, ReadMemory(0), t);
    steps := before + [ReadMemory(0)];
  }

  lemma FirstStores(before: seq<Step>, key: Key, log: Log, contents: Contents) returns (steps: seq<Step>)
    requires log != [] && After(before, false) == Some(Waiting(key, log, Read(key, contents)))
    ensures Hits(steps, false, 1, key, log) && HitValue(steps, false, 1) == Value(contents, Last(log).generation)
  {
    var v := Value(contents, Last(log).generation);
    var s, t := Waiting(key, log, Read(key, contents)), Waiting(key, log, Replied(key, v));
    assert s.fetches[0 := Replied(key, v)] == t.fetches;
    Extend(before, false, s, Reply(0), t);
    var u := State(map[key.id := log], [Entry(key, v)], map[1 := Pinged(key)]);
    FirstStore(key, v);
    assert t.fetches - {0} == u.fetches;
    Extend(before + [Reply(0)], false, t, Store(0), u);
    steps := before + [Reply(0)] + [Store(0)];
  }

  /** Were fetches to overlap: the cache is sure to answer with what the generation
      pinged showed exactly when nothing else has been shown under that name since. */
  lemma OverlapExactlyWhenRepeated(id: Id, symbol: string, generation: nat, m0: Memory, happenings: seq<Happening>)
    ensures var log := History(m0, happenings);
            Repeats(log, Key(id, symbol, generation)) <==> AlwaysExact(log, Key(id, symbol, generation))
  {
    var log, key := History(m0, happenings), Key(id, symbol, generation);
    if Repeats(log, key) {
      forall steps, f | Hits(steps, false, f, key, log)
        ensures ShownInGeneration(log, key, HitValue(steps, false, f).contents)
      {
        CachedAnswerIsNeverOlder(steps, f, key, log);
        var k: nat :| Shown(log, k, key, HitValue(steps, false, f).contents);
        assert ShownInGeneration(log, key, log[k].memory[symbol]);
      }
    } else {
      var k :| 0 <= k < |log| && log[k].generation >= generation && symbol in log[k].memory
               && !ShownInGeneration(log, key, log[k].memory[symbol]);
      HistoryAt(m0, happenings, 0);
      var j := GenerationReached(m0, happenings, k, generation);
      var steps := ReadLater(id, symbol, m0, happenings, j, k);
      assert Hits(steps, false, 1, key, log);
    }
  }

  /** Two fetches that both pinged before a stop: the second would be answered with
      what the first read after it. The server's tools are plain synchronous
      functions, so this is what its one call at a time rules out. */
  lemma OverlappingFetchReadsAhead() returns (steps: seq<Step>)
    ensures var log := [Moment(0, BEFORE), Moment(1, BEFORE), Moment(1, LATER)];
            && Hits(steps, false, 1, KEY, log) && HitValue(steps, false, 1) == Value([1], 1)
            && !ShownInGeneration(log, KEY, [1])
  {
    var stop, change := StopNotified, MemoryChanges(LATER);
    var log := [Moment(0, BEFORE), Moment(1, BEFORE), Moment(1, LATER)];
    GrownOne([Moment(0, BEFORE)], stop);
    GrownOne([Moment(0, BEFORE), Moment(1, BEFORE)], change);
    GrownJoin([Moment(0, BEFORE)], [stop], [change]);
    assert [stop] + [change] == [stop, change];
    assert History(BEFORE, [stop, change]) == log;
    steps := ReadLater(ID, "a", BEFORE, [stop, change], 0, 2);
    assert BEFORE["a"] == [0] != [1];
  }

  /** ... and one whose answer carries the same later number, yet is what the
      generation pinged showed: a later number decides nothing. */
  lemma LaterNumberYetExact() returns (steps: seq<Step>)
    ensures var log := [Moment(0, BEFORE), Moment(1, BEFORE)];
            && Hits(steps, false, 1, KEY, log) && HitValue(steps, false, 1) == Value([0], 1)
            && ShownInGeneration(log, KEY, [0])
  {
    var log := [Moment(0, BEFORE), Moment(1, BEFORE)];
    GrownOne([Moment(0, BEFORE)], StopNotified);
    assert History(BEFORE, [StopNotified]) == log;
    steps := ReadLater(ID, "a", BEFORE, [StopNotified], 0, 0);
    assert Shown(log, 0, KEY, [0]);
  }

  // ---------------------------------------------------------------------
  // fetch()
  // ---------------------------------------------------------------------

  /** The state in which endpoint `id` keeps this log and one fetch is at this point. */
  function At(s: State, id: Id, log: Log, fetch: Progress): State {
    State(s.logs[id := log], s.cache, map[0 := fetch])
  }

  /** A fetch that hits: ping and lookup. */
  lemma HitRun(run: seq<Step>, s: State, id: Id, symbol: string) returns (more: seq<Step>)
    requires After(run, true) == Some(s) && LogsExist(s) && id in s.logs && s.fetches == map[]
    requires Lookup(s.cache, Key(id, symbol, Last(s.logs[id]).generation)).Some?
    ensures run <= more
    ensures var key := Key(id, symbol, Last(s.logs[id]).generation);
      && After(more, true) == Some(s.(cache := Apply(s.cache, Op.Get(key), CAPACITY)))
      && ShownInGeneration(s.logs[id], key, Lookup(s.cache, key).value.contents)
      && Lookup(s.cache, key).value.stopGeneration == key.generation
  {
    var key := Key(id, symbol, Last(s.logs[id]).generation);
    var t := s.(fetches := map[0 := Pinged(key)]);
    Extend(run, true, s, Ping(0, id, symbol), t);
    var u := s.(cache := Apply(s.cache, Op.Get(key), CAPACITY));
    assert t.fetches - {0} == map[];
    Extend(run + [Ping(0, id, symbol)], true, t, Look(0), u);
    more := run + [Ping(0, id, symbol)] + [Look(0)];
    CachedAnswerIsExact(run + [Ping(0, id, symbol)], 0, key, s.logs[id]);
  }

  /** A fetch that misses, up to where it would have the debugger thread read. */
  lemma MissRun(run: seq<Step>, s: State, id: Id, symbol: string, before: seq<Happening>) returns (more: seq<Step>)
    requires After(run, true) == Some(s) && LogsExist(s) && id in s.logs && s.fetches == map[]
    requires Lookup(s.cache, Key(id, symbol, Last(s.logs[id]).generation)).None?
    ensures run <= more
    ensures var key := Key(id, symbol, Last(s.logs[id]).generation);
      After(more, true) == Some(At(s, id, Grown(s.logs[id], before), Missed(key)))
  {
    var key := Key(id, symbol, Last(s.logs[id]).generation);
    more := PingMisses(run, true, s, 0, id, symbol);
    more := Elapses(more, true, s.(fetches := map[0 := Missed(key)]), id, before);
  }

  lemma ReadRun(run: seq<Step>, s: State, log: Log, key: Key) returns (more: seq<Step>)
    requires log != [] && After(run, true) == Some(At(s, key.id, log, Missed(key)))
    requires LogsExist(At(s, key.id, log, Missed(key))) && key.symbol in Last(log).memory
    ensures run <= more
    ensures After(more, true) == Some(At(s, key.id, log, Read(key, Last(log).memory[key.symbol])))
  {
    var contents := Last(log).memory[key.symbol];
    var a, b := At(s, key.id, log, Missed(key)), At(s, key.id, log, Read(key, contents));
    assert a.fetches[0 := Read(key, contents)] == b.fetches;
    Extend(run, true, a, ReadMemory(0), b);
    more := run + [ReadMemory(0)];
  }

  lemma ReplyNow(run: seq<Step>, s: State, log: Log, key: Key, contents: Contents) returns (more: seq<Step>)
    requires log != [] && After(run, true) == Some(At(s, key.id, log, Read(key, contents)))
    requires LogsExist(At(s, key.id, log, Read(key, contents)))
    ensures run <= more
    ensures After(more, true) == Some(At(s, key.id, log, Replied(key, Value(contents, Last(log).generation))))
  {
    var replied := Replied(key, Value(contents, Last(log).generation));
    var a, b := At(s, key.id, log, Read(key, contents)), At(s, key.id, log, replied);
    assert a.fetches[0 := replied] == b.fetches;
    Extend(run, true, a, Reply(0), b);
    more := run + [Reply(0)];
  }

  /** The rest of it: read, whatever happens until the reply, reply. */
  lemma ReplyRun(run: seq<Step>, s: State, log: Log, key: Key, during: seq<Happening>) returns (more: seq<Step>)
    requires log != [] && After(run, true) == Some(At(s, key.id, log, Missed(key)))
    requires LogsExist(At(s, key.id, log, Missed(key))) && key.symbol in Last(log).memory
    ensures run <= more
    ensures var v := Value(Last(log).memory[key.symbol], Last(Grown(log, during)).generation);
      After(more, true) == Some(At(s, key.id, Grown(log, during), Replied(key, v)))
  {
    var contents, replied := Last(log).memory[key.symbol], Grown(log, during);
    more := ReadRun(run, s, log, key);
    var b, c := At(s, key.id, log, Read(key, contents)), At(s, key.id, replied, Read(key, contents));
    more := Elapses(more, true, b, key.id, during);
    assert b.logs[key.id := replied] == c.logs;
    more := ReplyNow(more, s, replied, key, contents);
  }

  lemma StoreRun(run: seq<Step>, s: State, log: Log, key: Key, v: Value) returns (more: seq<Step>)
    requires log != [] && After(run, true) == Some(At(s, key.id, log, Replied(key, v)))
    requires LogsExist(At(s, key.id, log, Replied(key, v)))
    ensures run <= more
    ensures After(more, true) == Some(State(s.logs[key.id := log], Apply(s.cache, Op.Put(key, v), CAPACITY), map[]))
    ensures WasReplied(log, key, v)
  {
    var a := At(s, key.id, log, Replied(key, v));
    RunInvariant(run, true);
    assert FetchSound(a, 0);
    assert a.fetches - {0} == map[];
    Extend(run, true, a, Store(0), State(a.logs, Apply(s.cache, Op.Put(key, v), CAPACITY), map[]));
    more := run + [Store(0)];
  }

  lemma FailRun(run: seq<Step>, s: State, log: Log, fetch: Progress) returns (more: seq<Step>)
    requires log != [] && After(run, true) == Some(At(s, fetch.key.id, log, fetch)) && !fetch.Pinged?
    requires LogsExist(At(s, fetch.key.id, log, fetch))
    ensures run <= more
    ensures After(more, true) == Some(State(s.logs[fetch.key.id := log], s.cache, map[]))
  {
    var a := At(s, fetch.key.id, log, fetch);
    assert a.fetches - {0} == map[];
    Extend(run, true, a, Fail(0), State(a.logs, s.cache, map[]));
    more := run + [Fail(0)];
  }

  /** What one fetch comes to, `before` and `during` being what the debuggee does
      between ping and read and between read and reply, and `decodes` whether the
      bytes decode: an answer, the endpoint's log, the cache. */
  datatype Outcome = Outcome(answer: Option<Value>, log: Log, cache: seq<Entry<Key, Value>>)

  function Fetched(cache: seq<Entry<Key, Value>>, id: Id, log: Log, symbol: string, before: seq<Happening>,
                   during: seq<Happening>, decodes: bool): Outcome
    requires log != []
  {
    var key := Key(id, symbol, Last(log).generation);
    var cached := Lookup(cache, key);
    if cached.Some? then Outcome(cached, log, Apply(cache, Op.Get(key), CAPACITY))
    else
      var read := Grown(log, before);
      if symbol !in Last(read).memory then Outcome(None, read, cache)
      else
        var replied := Grown(read, during);
        var v := Value(Last(read).memory[symbol], Last(replied).generation);
        if !decodes then Outcome(None, replied, cache)
        else Outcome(Some(v), replied, Apply(cache, Op.Put(key, v), CAPACITY))
  }

  /** From any state a serial run reaches, a whole fetch is that run continued; its
      answer was shown by the endpoint it pinged, in the generation pinged if it came
      from the cache and no earlier if it was read. */
  lemma FetchIsSerialRun(run: seq<Step>, s: State, id: Id, symbol: string, before: seq<Happening>,
                         during: seq<Happening>, decodes: bool) returns (more: seq<Step>)
    requires After(run, true) == Some(s) && s.fetches == map[] && id in s.logs && s.logs[id] != []
    ensures run <= more
    ensures var key := Key(id, symbol, Last(s.logs[id]).generation);
      var end := Fetched(s.cache, id, s.logs[id], symbol, before, during, decodes);
      && After(more, true) == Some(State(s.logs[id := end.log], end.cache, map[]))
      && (end.answer.Some? ==>
            if Lookup(s.cache, key).Some?
            then ShownInGeneration(end.log, key, end.answer.value.contents)
                 && end.answer.value.stopGeneration == key.generation
            else WasReplied(end.log, key, end.answer.value))
  {
    RunInvariant(run, true);
    var key := Key(id, symbol, Last(s.logs[id]).generation);
    if Lookup(s.cache, key).Some? {
      more := HitRun(run, s, id, symbol);
      assert s.logs[id := s.logs[id]] == s.logs;
    } else {
      more := MissRun(run, s, id, symbol, before);
      more := RestOfMiss(more, s, Grown(s.logs[id], before), key, during, decodes);
    }
  }

  lemma RestOfMiss(run: seq<Step>, s: State, log: Log, key: Key, during: seq<Happening>, decodes: bool)
    returns (more: seq<Step>)
    requires log != [] && After(run, true) == Some(At(s, key.id, log, Missed(key)))
    ensures run <= more
    ensures var replied := Grown(log, during);
      if key.symbol !in Last(log).memory then After(more, true) == Some(State(s.logs[key.id := log], s.cache, map[]))
      else if !decodes then After(more, true) == Some(State(s.logs[key.id := replied], s.cache, map[]))
      else
        var v := Value(Last(log).memory[key.symbol], Last(replied).generation);
        && After(more, true) == Some(State(s.logs[key.id := replied], Apply(s.cache, Op.Put(key, v), CAPACITY), map[]))
        && WasReplied(replied, key, v)
  {
    RunInvariant(run, true);
    if key.symbol !in Last(log).memory {
      more := FailRun(run, s, log, Missed(key));
    } else {
      var replied := Grown(log, during);
      var v := Value(Last(log).memory[key.symbol], Last(replied).generation);
      more := ReplyRun(run, s, log, key, during);
      RunInvariant(more, true);
      if decodes {
        more := StoreRun(more, s, replied, key, v);
      } else {
        more := FailRun(more, s, replied, Replied(key, v));
      }
    }
  }

  /** One connection to a debugger endpoint. */
  class Connection {
    const id: Id
    var log: Log

    constructor (id: Id, log: Log)
      ensures this.id == id && this.log == log
    {
      this.id, this.log := id, log;
    }

    /** What the debuggee does between two messages. */
    method Elapse(happenings: seq<Happening>)
      requires log != []
      modifies this
      ensures log == Grown(old(log), happenings)
    {
      for k := 0 to |happenings|
        invariant log != [] && Grown(old(log), happenings) == Grown(log, happenings[k..])
      {
        assert happenings[k..][1..] == happenings[k + 1..];
        log := log + [Next(Last(log), happenings[k])];
      }
    }

    method Ping() returns (generation: nat)
      requires log != []
      ensures generation == Last(log).generation
    {
      return Last(log).generation;
    }

    /** get_buffer: the debugger thread reads, and the reply carries the generation
        as it is when it is put together. */
    method GetBuffer(symbol: string, during: seq<Happening>) returns (r: Option<Value>)
      requires log != []
      modifies this
      ensures if symbol in Last(old(log)).memory
              then log == Grown(old(log), during) && r == Some(Value(Last(old(log)).memory[symbol], Last(log).generation))
              else log == old(log) && r == None
    {
      if symbol !in Last(log).memory {
        return None;
      }
      var contents := Last(log).memory[symbol];
      Elapse(during);
      return Some(Value(contents, Last(log).generation));
    }
  }

  /** SessionManager.fetch on a debugger session: one connection serves the ping that
      keys the cache and the read of a miss. */
  method Fetch(cache: BufferCache<Key, Value>, client: Connection, symbol: string, before: seq<Happening>,
               during: seq<Happening>, decodes: bool) returns (r: Option<Value>)
    requires cache.Valid() && cache.capacity == CAPACITY && client.log != []
    modifies cache, client
    ensures cache.Valid()
    ensures Outcome(r, client.log, cache.entries)
         == Fetched(old(cache.entries), client.id, old(client.log), symbol, before, during, decodes)
  {
    var generation := client.Ping();
    var key := Key(client.id, symbol, generation);
    var cached := cache.Get(key);
    if cached.Some? {
      return cached;
    }
    client.Elapse(before);
    var reply := client.GetBuffer(symbol, during);
    if reply.None? || !decodes {
      return None;
    }
    cache.Put(key, reply.value);
    return reply;
  }
}
