/**
 The cache as the code drives it: one Redis store keyed by strings, with every Redis call allowed
 to fail. Over plain identifiers every step on the string store is the same step of `CacheProtocol`
 on its typed store, so freshness carries over to any interleaving on strings.
 */
module TenantCache {
  import opened Outcomes
  import opened CacheKeys
  import P = CacheProtocol

  datatype Stored = Counter(value: nat) | Cached(body: P.Body)

  type Store = map<string, Stored>

  /** What Redis does during one request: absent, failing at some call, or healthy. */
  datatype Faults = Faults(connected: bool, countersFail: bool, probeFails: bool, storeFails: bool)

  function CounterAt(store: Store, key: Key): nat {
    if Name(key) in store && store[Name(key)].Counter? then store[Name(key)].value else 0
  }

  function CounterKey(identifier: Option<string>): Key {
    if identifier.Some? then IdentifierCounter(identifier.value) else NamespaceCounter
  }

  function CurrentEntry(store: Store, identifier: string): Key {
    Entry(identifier, CounterAt(store, NamespaceCounter), CounterAt(store, IdentifierCounter(identifier)))
  }

  predicate Hits(store: Store, key: Key) {
    Name(key) in store && store[Name(key)].Cached?
  }

  /** INCR; over a cached body it is an error and nothing changes. */
  function Incremented(store: Store, key: Key): Store {
    if Hits(store, key) then store else store[Name(key) := Counter(CounterAt(store, key) + 1)]
  }

  predicate Found(store: Store, identifier: string, faults: Faults) {
    && faults.connected && !faults.countersFail && !faults.probeFails
    && Hits(store, CurrentEntry(store, identifier))
  }

  /** Where a request that loads stores what it loaded, if anywhere. */
  function StoredUnder(store: Store, identifier: string, faults: Faults): Option<Key> {
    if !faults.connected || faults.storeFails then None
    else Some(if faults.countersFail then Fallback(identifier) else CurrentEntry(store, identifier))
  }

  class Cache {
    var store: Store

    constructor ()
      ensures store == map[]
    {
      store := map[];
    }

    /**
     A cached body is returned without loading; anything else loads once, and what was loaded is
     stored under the generations that were read, or under the fallback key when they were not.
     */
    method GetOrLoad(identifier: string, load: P.Body, faults: Faults) returns (value: P.Body, loads: nat)
      modifies this`store
      ensures loads == if Found(old(store), identifier, faults) then 0 else 1
      ensures loads == 0 ==>
                store == old(store) && value == old(store)[Name(CurrentEntry(old(store), identifier))].body
      ensures loads == 1 ==>
                var key := StoredUnder(old(store), identifier, faults);
                && value == load
                && store == if key.Some? then old(store)[Name(key.value) := Cached(load)] else old(store)
      ensures faults == Faults(true, false, false, false) ==>
                var n, i := CounterAt(old(store), NamespaceCounter), CounterAt(old(store), IdentifierCounter(identifier));
                var name := identifier + ":v" + Decimal(n) + "." + Decimal(i);
                && name in store && store[name] == Cached(value)
                && (loads == 0 <==> name in old(store) && old(store)[name].Cached?)
                && (loads == 1 ==> value == load)
    {
      var key := Fallback(identifier);
      if faults.connected && !faults.countersFail {
        var namespaceGeneration := CounterAt(store, NamespaceCounter);
        var identifierGeneration := CounterAt(store, IdentifierCounter(identifier));
        key := Entry(identifier, namespaceGeneration, identifierGeneration);
        if !faults.probeFails && Hits(store, key) {
          return store[Name(key)].body, 0;
        }
      }
      value, loads := load, 1;
      if faults.connected && !faults.storeFails {
        store := store[Name(key) := Cached(value)];
      }
    }

    /** Increments one counter; without Redis, on a failure, or over a body, nothing happens. */
    method Invalidate(identifier: Option<string>, connected: bool, fails: bool)
      modifies this`store
      ensures store == if connected && !fails then Incremented(old(store), CounterKey(identifier)) else old(store)
    {
      var key := if identifier.Some? then IdentifierCounter(identifier.value) else NamespaceCounter;
      if connected && !fails && !Hits(store, key) {
        store := store[Name(key) := Counter(CounterAt(store, key) + 1)];
      }
    }
  }

  /** The counters by their names: one of the namespace, one of each identifier, zero until incremented. */
  lemma CountersExactly(store: Store, identifier: string)
    ensures CounterAt(store, NamespaceCounter)
            == if "__generation__" in store && store["__generation__"].Counter? then store["__generation__"].value else 0
    ensures identifier != "" ==>
              var name := identifier + ":generation";
              CounterAt(store, IdentifierCounter(identifier))
              == if name in store && store[name].Counter? then store[name].value else 0
  {
  }

  /**
   What a miss loads while Redis works stays under the generations it read: every counter is as before, so
   the next such request for the identifier finds this body.
   */
  lemma HealthyMissIsKept(store: Store, identifier: string, load: P.Body)
    requires Plain(identifier)
    ensures var faults := Faults(true, false, false, false);
            var key := StoredUnder(store, identifier, faults);
            && key.Some?
            && var after := store[Name(key.value) := Cached(load)];
               && CounterAt(after, NamespaceCounter) == CounterAt(store, NamespaceCounter)
               && (forall other :: Plain(other) ==>
                     CounterAt(after, IdentifierCounter(other)) == CounterAt(store, IdentifierCounter(other)))
               && Found(after, identifier, faults)
               && after[Name(CurrentEntry(after, identifier))] == Cached(load)
  {
    var entry := CurrentEntry(store, identifier);
    forall counter: Key | (counter.NamespaceCounter? || counter.IdentifierCounter?) && PlainKey(counter)
      ensures Name(counter) != Name(entry)
    {
      if Name(counter) == Name(entry) {
        NamesApart(counter, entry);
      }
    }
    assert PlainKey(NamespaceCounter) && forall other :: Plain(other) ==> PlainKey(IdentifierCounter(other));
  }

  // ---------------------------------------------------------------------------------------------
  // Requests interleaved over the string store
  // ---------------------------------------------------------------------------------------------

  datatype System = System(moment: P.Moment, store: Store, readers: P.Readers)

  const INITIAL: System := System(0, map[], map[])

  predicate Enabled(c: System, step: P.Step) {
    P.Ready(c.readers, step) && (step.Expire? ==> Hits(c.store, step.key))
  }

  function Move(c: System, r: nat, phase: P.Phase): System
    requires r in c.readers
  {
    c.(readers := c.readers[r := c.readers[r].(phase := phase)])
  }

  function Next(c: System, step: P.Step): System
    requires Enabled(c, step)
  {
    match step
    case Write => c.(moment := c.moment + 1)
    case InvalidateNamespace => c.(moment := c.moment + 1, store := Incremented(c.store, NamespaceCounter))
    case InvalidateIdentifier(identifier) =>
      c.(moment := c.moment + 1, store := Incremented(c.store, IdentifierCounter(identifier)))
    case Begin(r, identifier, connected) =>
      c.(readers := c.readers[r :=
         P.Reader(identifier, CounterAt(c.store, NamespaceCounter), CounterAt(c.store, IdentifierCounter(identifier)),
                  if connected then P.Counting(None, None) else P.Loading(P.Nowhere))])
    case GetNamespaceGeneration(r) =>
      var seen := CounterAt(c.store, NamespaceCounter);
      Move(c, r, P.Counted(c.readers[r].phase.(namespaceGeneration := Some(seen))))
    case GetIdentifierGeneration(r) =>
      var seen := CounterAt(c.store, IdentifierCounter(c.readers[r].identifier));
      Move(c, r, P.Counted(c.readers[r].phase.(identifierGeneration := Some(seen))))
    case CountingFails(r) => Move(c, r, P.Loading(P.Unversioned))
    case Probe(r, fails) =>
      var key := P.KeyOf(c.readers[r].identifier, c.readers[r].phase.target);
      if !fails && key.Some? && Hits(c.store, key.value)
      then Move(c, r, P.Done(c.store[Name(key.value)].body))
      else Move(c, r, P.Loading(c.readers[r].phase.target))
    case BeginLoad(r) => Move(c, r, P.Running(c.readers[r].phase.target, c.moment))
    case EndLoad(r, content) =>
      Move(c, r, P.Storing(c.readers[r].phase.target, P.Body(c.readers[r].phase.began, content)))
    case Store(r, works) =>
      var phase := c.readers[r].phase;
      var key := P.KeyOf(c.readers[r].identifier, phase.target);
      Move(if works && key.Some? then c.(store := c.store[Name(key.value) := Cached(phase.loaded)]) else c,
           r, P.Done(phase.loaded))
    case Expire(key) => c.(store := c.store - {Name(key)})
  }

  ghost predicate Run(c: System, steps: seq<P.Step>)
    decreases |steps|
  {
    steps == [] || (Enabled(c, steps[0]) && Run(Next(c, steps[0]), steps[1..]))
  }

  ghost function After(c: System, steps: seq<P.Step>): System
    requires Run(c, steps)
    decreases |steps|
  {
    if steps == [] then c else After(Next(c, steps[0]), steps[1..])
  }

  ghost predicate PlainStep(step: P.Step) {
    match step
    case InvalidateIdentifier(identifier) => Plain(identifier)
    case Begin(_, identifier, _) => Plain(identifier)
    case Expire(key) => PlainKey(key)
    case _ => true
  }

  ghost predicate PlainSteps(steps: seq<P.Step>) {
    forall i :: 0 <= i < |steps| ==> PlainStep(steps[i])
  }

  // ---------------------------------------------------------------------------------------------
  // The string store against the typed one
  // ---------------------------------------------------------------------------------------------

  function CounterIn(s: P.System, key: Key): nat
    requires key.NamespaceCounter? || key.IdentifierCounter?
  {
    match key
    case NamespaceCounter => P.Last(s.namespaceHistory)
    case IdentifierCounter(identifier) => P.Last(P.HistoryOf(s, identifier))
  }

  predicate Shows(store: Store, s: P.System, key: Key) {
    if key.NamespaceCounter? || key.IdentifierCounter?
    then CounterAt(store, key) == CounterIn(s, key) && !Hits(store, key)
    else if key in s.cached
    then Name(key) in store && store[Name(key)] == Cached(s.cached[key])
    else Name(key) !in store
  }

  /** On plain identifiers the string store holds exactly what the typed store holds. */
  ghost predicate Represents(store: Store, s: P.System) {
    forall key :: PlainKey(key) ==> Shows(store, s, key)
  }

  /** The two systems agree: the same moment, the same requests, and a store that represents the other. */
  ghost predicate Mirrors(c: System, s: P.System) {
    && c.moment == s.moment && c.readers == s.readers
    && Represents(c.store, s)
    && forall r :: r in c.readers ==> Plain(c.readers[r].identifier)
  }

  /** Storing a body is the protocol's store step. */
  lemma StoreRepresents(store: Store, s: P.System, r: nat)
    requires Represents(store, s) && P.Enabled(s, P.Store(r, true)) && Plain(s.readers[r].identifier)
    requires P.KeyOf(s.readers[r].identifier, s.readers[r].phase.target).Some?
    ensures var key := P.KeyOf(s.readers[r].identifier, s.readers[r].phase.target).value;
            Represents(store[Name(key) := Cached(s.readers[r].phase.loaded)], P.Next(s, P.Store(r, true)))
  {
    var key := P.KeyOf(s.readers[r].identifier, s.readers[r].phase.target).value;
    var after := P.Next(s, P.Store(r, true));
    forall other | PlainKey(other)
      ensures Shows(store[Name(key) := Cached(s.readers[r].phase.loaded)], after, other)
    {
      assert Shows(store, s, other);
      if Name(other) == Name(key) {
        NamesApart(other, key);
      }
    }
  }

  /** Incrementing a counter is the protocol's invalidation. */
  lemma InvalidateRepresents(store: Store, s: P.System, identifier: Option<string>)
    requires Represents(store, s) && P.Histories(s) && (identifier.Some? ==> Plain(identifier.value))
    ensures var step := if identifier.Some? then P.InvalidateIdentifier(identifier.value) else P.InvalidateNamespace;
            Represents(Incremented(store, CounterKey(identifier)), P.Next(s, step))
  {
    var key := CounterKey(identifier);
    var step := if identifier.Some? then P.InvalidateIdentifier(identifier.value) else P.InvalidateNamespace;
    assert Shows(store, s, key);
    assert identifier.Some? ==> P.Ordered(P.HistoryOf(s, identifier.value), s.moment);
    forall other | PlainKey(other) ensures Shows(Incremented(store, key), P.Next(s, step), other) {
      assert Shows(store, s, other);
      if Name(other) == Name(key) {
        NamesApart(other, key);
      }
    }
  }

  lemma ExpireRepresents(store: Store, s: P.System, key: Key)
    requires Represents(store, s) && PlainKey(key) && Hits(store, key)
    ensures key in s.cached
    ensures Represents(store - {Name(key)}, P.Next(s, P.Expire(key)))
  {
    assert Shows(store, s, key);
    forall other | PlainKey(other) ensures Shows(store - {Name(key)}, P.Next(s, P.Expire(key)), other) {
      assert Shows(store, s, other);
      if Name(other) == Name(key) {
        NamesApart(other, key);
      }
    }
  }

  /** Requests read the same generations and the same bodies from either store. */
  lemma ReadsAlike(store: Store, s: P.System, identifier: string, target: P.Target)
    requires Represents(store, s) && Plain(identifier)
    ensures CounterAt(store, NamespaceCounter) == P.Last(s.namespaceHistory)
    ensures CounterAt(store, IdentifierCounter(identifier)) == P.Last(P.HistoryOf(s, identifier))
    ensures var key := P.KeyOf(identifier, target);
            key.Some? ==>
              && (Hits(store, key.value) <==> key.value in s.cached)
              && (key.value in s.cached ==> store[Name(key.value)].body == s.cached[key.value])
  {
    assert Shows(store, s, NamespaceCounter);
    assert Shows(store, s, IdentifierCounter(identifier));
    var key := P.KeyOf(identifier, target);
    assert key.Some? ==> Shows(store, s, key.value);
  }

  lemma SameCached(store: Store, s: P.System, after: P.System)
    requires Represents(store, s)
    requires after.namespaceHistory == s.namespaceHistory && after.identifierHistories == s.identifierHistories
    requires after.cached == s.cached
    ensures Represents(store, after)
  {
    forall key | PlainKey(key) ensures Shows(store, after, key) {
      assert Shows(store, s, key);
    }
  }

  /** Every step over plain identifiers is the protocol's step, and keeps the two systems in agreement. */
  lemma StepMirrors(c: System, s: P.System, step: P.Step)
    requires Mirrors(c, s) && P.Histories(s) && Enabled(c, step) && PlainStep(step)
    ensures P.Enabled(s, step) && Mirrors(Next(c, step), P.Next(s, step))
  {
    match step
    case Write => SameCached(c.store, s, P.Next(s, step));
    case InvalidateNamespace => InvalidateRepresents(c.store, s, None);
    case InvalidateIdentifier(identifier) => InvalidateRepresents(c.store, s, Some(identifier));
    case Expire(key) => ExpireRepresents(c.store, s, key);
    case Begin(r, identifier, _) =>
      ReadsAlike(c.store, s, identifier, P.Nowhere);
      SameCached(c.store, s, P.Next(s, step));
    case Store(r, works) =>
      StoreMirrors(c, s, r, works);
    case _ =>
      ReaderMirrors(c, s, step);
  }

  lemma StoreMirrors(c: System, s: P.System, r: nat, works: bool)
    requires Mirrors(c, s) && Enabled(c, P.Store(r, works))
    ensures P.Enabled(s, P.Store(r, works)) && Mirrors(Next(c, P.Store(r, works)), P.Next(s, P.Store(r, works)))
  {
    if works && P.KeyOf(s.readers[r].identifier, s.readers[r].phase.target).Some? {
      StoreRepresents(c.store, s, r);
    } else {
      SameCached(c.store, s, P.Next(s, P.Store(r, works)));
    }
  }

  lemma ReaderMirrors(c: System, s: P.System, step: P.Step)
    requires Mirrors(c, s) && Enabled(c, step)
    requires step.GetNamespaceGeneration? || step.GetIdentifierGeneration? || step.CountingFails? || step.Probe?
             || step.BeginLoad? || step.EndLoad?
    ensures P.Enabled(s, step) && Mirrors(Next(c, step), P.Next(s, step))
  {
    var reader := c.readers[step.reader];
    if step.Probe? {
      ReadsAlike(c.store, s, reader.identifier, reader.phase.target);
    } else {
      ReadsAlike(c.store, s, reader.identifier, P.Nowhere);
    }
    SameCached(c.store, s, P.Next(s, step));
  }

  lemma {:induction false} RunMirrors(c: System, s: P.System, steps: seq<P.Step>)
    requires Mirrors(c, s) && P.Histories(s) && Run(c, steps) && PlainSteps(steps)
    ensures P.Run(s, steps) && Mirrors(After(c, steps), P.After(s, steps)) && P.Histories(P.After(s, steps))
    decreases |steps|
  {
    if steps != [] {
      StepMirrors(c, s, steps[0]);
      P.StepKeepsHistories(s, steps[0]);
      RunMirrors(Next(c, steps[0]), P.Next(s, steps[0]), steps[1..]);
    }
  }

  lemma InitialMirrors()
    ensures Mirrors(INITIAL, P.INITIAL) && P.Histories(P.INITIAL)
  {
  }

  /**
   On the string store too: whatever requests, invalidations, expiries and Redis failures interleave
   over plain identifiers, a request that begins after an invalidation of its namespace or identifier
   never returns a body whose load began before it.
   */
  lemma StoredReadsAreFresh(
    steps: seq<P.Step>, invalidation: P.Step, before: seq<P.Step>, begin: P.Step, during: seq<P.Step>)
    requires PlainSteps(steps) && PlainSteps(before) && PlainSteps(during) && begin.Begin? && Plain(begin.identifier)
    requires invalidation == P.InvalidateNamespace || invalidation == P.InvalidateIdentifier(begin.identifier)
    requires Run(INITIAL, steps)
    requires Run(Next(After(INITIAL, steps), invalidation), before)
    requires Enabled(After(Next(After(INITIAL, steps), invalidation), before), begin)
    requires Run(Next(After(Next(After(INITIAL, steps), invalidation), before), begin), during)
    ensures var c := After(INITIAL, steps);
            var end := After(Next(After(Next(c, invalidation), before), begin), during);
            && begin.reader in end.readers
            && (end.readers[begin.reader].phase.Done? ==> c.moment < end.readers[begin.reader].phase.value.began)
  {
    InitialMirrors();
    RunMirrors(INITIAL, P.INITIAL, steps);
    var c, s := After(INITIAL, steps), P.After(P.INITIAL, steps);
    StepMirrors(c, s, invalidation);
    P.StepKeepsHistories(s, invalidation);
    var c1, s1 := Next(c, invalidation), P.Next(s, invalidation);
    RunMirrors(c1, s1, before);
    var c2, s2 := After(c1, before), P.After(s1, before);
    StepMirrors(c2, s2, begin);
    P.StepKeepsHistories(s2, begin);
    RunMirrors(Next(c2, begin), P.Next(s2, begin), during);
    P.ReadsAreFresh(steps, invalidation, before, begin, during);
  }

  // ---------------------------------------------------------------------------------------------
  // The methods as runs
  // ---------------------------------------------------------------------------------------------

  ghost predicate Leads(c: System, d: System) {
    exists steps :: Run(c, steps) && After(c, steps) == d
  }

  lemma {:induction false} RunExtends(c: System, steps: seq<P.Step>, step: P.Step)
    requires Run(c, steps) && Enabled(After(c, steps), step)
    ensures Run(c, steps + [step]) && After(c, steps + [step]) == Next(After(c, steps), step)
    decreases |steps|
  {
    if steps == [] {
      assert steps + [step] == [step] && [step][1..] == [];
    } else {
      RunExtends(Next(c, steps[0]), steps[1..], step);
      assert (steps + [step])[1..] == steps[1..] + [step];
    }
  }

  lemma LeadsOn(c: System, d: System, step: P.Step) returns (after: System)
    requires Leads(c, d) && Enabled(d, step)
    ensures after == Next(d, step) && Leads(c, after)
  {
    var steps :| Run(c, steps) && After(c, steps) == d;
    RunExtends(c, steps, step);
    after := Next(d, step);
    assert Run(c, steps + [step]) && After(c, steps + [step]) == after;
  }

  function TargetOf(store: Store, identifier: string, faults: Faults): P.Target {
    if !faults.connected then P.Nowhere
    else if faults.countersFail then P.Unversioned
    else P.Versioned(CounterAt(store, NamespaceCounter), CounterAt(store, IdentifierCounter(identifier)))
  }

  /** Up to the answer of the probe. */
  lemma AskIsRun(c: System, r: nat, identifier: string, faults: Faults) returns (after: System)
    requires r !in c.readers
    ensures Leads(c, after) && after.moment == c.moment && after.store == c.store
    ensures r in after.readers && after.readers[r].identifier == identifier
    ensures after.readers[r].phase
            == if Found(c.store, identifier, faults)
               then P.Done(c.store[Name(CurrentEntry(c.store, identifier))].body)
               else P.Loading(TargetOf(c.store, identifier, faults))
  {
    assert Run(c, []) && After(c, []) == c;
    after := LeadsOn(c, c, P.Begin(r, identifier, faults.connected));
    if faults.connected {
      if faults.countersFail {
        after := LeadsOn(c, after, P.CountingFails(r));
      } else {
        after := CountIsRun(c, after, r);
        after := LeadsOn(c, after, P.Probe(r, faults.probeFails));
      }
    }
  }

  lemma CountIsRun(c: System, d: System, r: nat) returns (after: System)
    requires Leads(c, d) && r in d.readers && d.readers[r].phase == P.Counting(None, None)
    ensures Leads(c, after) && after.moment == d.moment && after.store == d.store
    ensures var key := CurrentEntry(d.store, d.readers[r].identifier);
            after.readers
            == d.readers[r := d.readers[r].(phase :=
                 P.Probing(P.Versioned(key.namespaceGeneration, key.identifierGeneration)))]
  {
    after := LeadsOn(c, d, P.GetNamespaceGeneration(r));
    after := LeadsOn(c, after, P.GetIdentifierGeneration(r));
  }

  /** From the loader to the end. */
  lemma LoadIsRun(c: System, d: System, r: nat, content: int, works: bool) returns (after: System)
    requires Leads(c, d) && r in d.readers && d.readers[r].phase.Loading?
    ensures Leads(c, after) && r in after.readers && after.moment == d.moment
    ensures after.readers[r].phase == P.Done(P.Body(d.moment, content))
    ensures var key := P.KeyOf(d.readers[r].identifier, d.readers[r].phase.target);
            after.store
            == if works && key.Some? then d.store[Name(key.value) := Cached(P.Body(d.moment, content))] else d.store
  {
    after := LeadsOn(c, d, P.BeginLoad(r));
    after := LeadsOn(c, after, P.EndLoad(r, content));
    after := LeadsOn(c, after, P.Store(r, works));
  }

  /** One request from begin to end, with the faults given and nothing else in between, is a run of single steps. */
  lemma RequestIsRun(c: System, r: nat, identifier: string, faults: Faults, content: int) returns (after: System)
    requires r !in c.readers
    ensures Leads(c, after) && after.moment == c.moment && r in after.readers
    ensures Found(c.store, identifier, faults) ==>
              && after.store == c.store
              && after.readers[r].phase == P.Done(c.store[Name(CurrentEntry(c.store, identifier))].body)
    ensures !Found(c.store, identifier, faults) ==>
              var key, load := StoredUnder(c.store, identifier, faults), P.Body(c.moment, content);
              && after.store == (if key.Some? then c.store[Name(key.value) := Cached(load)] else c.store)
              && after.readers[r].phase == P.Done(load)
  {
    after := AskIsRun(c, r, identifier, faults);
    if !Found(c.store, identifier, faults) {
      after := LoadIsRun(c, after, r, content, !faults.storeFails);
    }
  }
}
