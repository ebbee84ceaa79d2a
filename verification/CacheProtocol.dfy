/**
 Generation-versioned caching of one tenant's namespace, as an interleaved protocol.

 A reader gets the namespace generation and the identifier generation in either order, looks the
 versioned key up, loads, and stores what it loaded under the generations it saw. A load takes time:
 it begins, and later returns anything. An invalidation only increments a counter.

 Every write to the source and every invalidation advances a moment that no code sees. A body
 carries the moment its load began, and histories record the moment each generation began.
 */
module CacheProtocol {
  import opened Outcomes
  import opened CacheKeys

  type Moment = nat

  datatype Body = Body(began: Moment, content: int)

  datatype Target = Nowhere | Unversioned | Versioned(namespaceGeneration: nat, identifierGeneration: nat)

  datatype Phase =
    | Counting(namespaceGeneration: Option<nat>, identifierGeneration: Option<nat>)
    | Probing(target: Target)
    | Loading(target: Target)                  // the loader is about to be called
    | Running(target: Target, began: Moment)   // the loader runs
    | Storing(target: Target, loaded: Body)
    | Done(value: Body)

  /** One read request. `born…` are the generations at the moment it began; the request never sees them. */
  datatype Reader = Reader(identifier: string, bornNamespace: nat, bornIdentifier: nat, phase: Phase)

  type Readers = map<nat, Reader>

  datatype System = System(
    moment: Moment,
    namespaceHistory: seq<Moment>,
    identifierHistories: map<string, seq<Moment>>,
    cached: map<Key, Body>,
    readers: Readers)

  const INITIAL: System := System(0, [0], map[], map[], map[])

  datatype Step =
    | Write
    | InvalidateNamespace
    | InvalidateIdentifier(identifier: string)
    | Begin(reader: nat, identifier: string, connected: bool)
    | GetNamespaceGeneration(reader: nat)
    | GetIdentifierGeneration(reader: nat)
    | CountingFails(reader: nat)
    | Probe(reader: nat, fails: bool)
    | BeginLoad(reader: nat)
    | EndLoad(reader: nat, content: int)
    | Store(reader: nat, works: bool)
    | Expire(key: Key)

  function HistoryOf(s: System, identifier: string): seq<Moment> {
    if identifier in s.identifierHistories then s.identifierHistories[identifier] else [0]
  }

  function Counted(phase: Phase): Phase
    requires phase.Counting?
  {
    if phase.namespaceGeneration.Some? && phase.identifierGeneration.Some?
    then Probing(Versioned(phase.namespaceGeneration.value, phase.identifierGeneration.value))
    else phase
  }

  function KeyOf(identifier: string, target: Target): Option<Key> {
    match target
    case Nowhere => None
    case Unversioned => Some(Fallback(identifier))
    case Versioned(n, i) => Some(Entry(identifier, n, i))
  }

  /** The request a step moves is where the step finds it. */
  predicate Ready(readers: Readers, step: Step) {
    match step
    case Write | InvalidateNamespace | InvalidateIdentifier(_) | Expire(_) => true
    case Begin(r, _, _) => r !in readers
    case GetNamespaceGeneration(r) =>
      r in readers && readers[r].phase.Counting? && readers[r].phase.namespaceGeneration.None?
    case GetIdentifierGeneration(r) =>
      r in readers && readers[r].phase.Counting? && readers[r].phase.identifierGeneration.None?
    case CountingFails(r) => r in readers && readers[r].phase.Counting?
    case Probe(r, _) => r in readers && readers[r].phase.Probing?
    case BeginLoad(r) => r in readers && readers[r].phase.Loading?
    case EndLoad(r, _) => r in readers && readers[r].phase.Running?
    case Store(r, _) => r in readers && readers[r].phase.Storing?
  }

  predicate Enabled(s: System, step: Step) {
    Ready(s.readers, step) && (step.Expire? ==> step.key in s.cached)
  }

  function Move(s: System, r: nat, phase: Phase): System
    requires r in s.readers
  {
    s.(readers := s.readers[r := s.readers[r].(phase := phase)])
  }

  function Next(s: System, step: Step): System
    requires Enabled(s, step)
  {
    match step
    case Write => s.(moment := s.moment + 1)
    case InvalidateNamespace =>
      s.(moment := s.moment + 1, namespaceHistory := s.namespaceHistory + [s.moment + 1])
    case InvalidateIdentifier(identifier) =>
      s.(moment := s.moment + 1,
         identifierHistories := s.identifierHistories[identifier := HistoryOf(s, identifier) + [s.moment + 1]])
    case Begin(r, identifier, connected) =>
      s.(readers := s.readers[r :=
         Reader(identifier, Last(s.namespaceHistory), Last(HistoryOf(s, identifier)),
                if connected then Counting(None, None) else Loading(Nowhere))])
    case GetNamespaceGeneration(r) =>
      Move(s, r, Counted(s.readers[r].phase.(namespaceGeneration := Some(Last(s.namespaceHistory)))))
    case GetIdentifierGeneration(r) =>
      Move(s, r, Counted(s.readers[r].phase.(identifierGeneration := Some(Last(HistoryOf(s, s.readers[r].identifier))))))
    case CountingFails(r) => Move(s, r, Loading(Unversioned))
    case Probe(r, fails) =>
      var key := KeyOf(s.readers[r].identifier, s.readers[r].phase.target);
      if !fails && key.Some? && key.value in s.cached
      then Move(s, r, Done(s.cached[key.value]))
      else Move(s, r, Loading(s.readers[r].phase.target))
    case BeginLoad(r) => Move(s, r, Running(s.readers[r].phase.target, s.moment))
    case EndLoad(r, content) =>
      Move(s, r, Storing(s.readers[r].phase.target, Body(s.readers[r].phase.began, content)))
    case Store(r, works) =>
      var phase := s.readers[r].phase;
      var key := KeyOf(s.readers[r].identifier, phase.target);
      Move(if works && key.Some? then s.(cached := s.cached[key.value := phase.loaded]) else s, r, Done(phase.loaded))
    case Expire(key) => s.(cached := s.cached - {key})
  }

  /** The generation a history has reached: how many increments its counter has seen. */
  function Last(history: seq<Moment>): nat {
    if |history| == 0 then 0 else |history| - 1
  }

  ghost predicate Run(s: System, steps: seq<Step>)
    decreases |steps|
  {
    steps == [] || (Enabled(s, steps[0]) && Run(Next(s, steps[0]), steps[1..]))
  }

  ghost function After(s: System, steps: seq<Step>): System
    requires Run(s, steps)
    decreases |steps|
  {
    if steps == [] then s else After(Next(s, steps[0]), steps[1..])
  }

  // ---------------------------------------------------------------------------------------------
  // Invariant
  // ---------------------------------------------------------------------------------------------

  ghost predicate Ordered(history: seq<Moment>, moment: Moment) {
    && |history| >= 1
    && (forall g :: 0 <= g < |history| ==> history[g] <= moment)
    && (forall g, h :: 0 <= g <= h < |history| ==> history[g] <= history[h])
  }

  ghost predicate Histories(s: System) {
    && Ordered(s.namespaceHistory, s.moment)
    && (forall identifier :: identifier in s.identifierHistories ==>
          Ordered(s.identifierHistories[identifier], s.moment))
  }

  /** A load that began no earlier than both generations. */
  predicate Since(s: System, identifier: string, n: nat, i: nat, began: Moment) {
    && n < |s.namespaceHistory| && s.namespaceHistory[n] <= began
    && i < |HistoryOf(s, identifier)| && HistoryOf(s, identifier)[i] <= began
  }

  predicate FreshFor(s: System, reader: Reader, began: Moment) {
    Since(s, reader.identifier, reader.bornNamespace, reader.bornIdentifier, began)
  }

  predicate SeenSinceBirth(s: System, reader: Reader, target: Target) {
    target.Versioned? ==>
      && reader.bornNamespace <= target.namespaceGeneration < |s.namespaceHistory|
      && reader.bornIdentifier <= target.identifierGeneration < |HistoryOf(s, reader.identifier)|
  }

  predicate ReaderSound(s: System, reader: Reader) {
    && reader.bornNamespace < |s.namespaceHistory|
    && reader.bornIdentifier < |HistoryOf(s, reader.identifier)|
    && match reader.phase
       case Counting(n, i) =>
         && (n.Some? ==> reader.bornNamespace <= n.value < |s.namespaceHistory|)
         && (i.Some? ==> reader.bornIdentifier <= i.value < |HistoryOf(s, reader.identifier)|)
       case Probing(target) => target.Versioned? && SeenSinceBirth(s, reader, target)
       case Loading(target) => SeenSinceBirth(s, reader, target)
       case Running(target, began) => LoadSound(s, reader, target, began)
       case Storing(target, loaded) => LoadSound(s, reader, target, loaded.began)
       case Done(value) => value.began <= s.moment && FreshFor(s, reader, value.began)
  }

  /** A load that began after the request and after the generations it will be stored under. */
  predicate LoadSound(s: System, reader: Reader, target: Target, began: Moment) {
    && began <= s.moment
    && FreshFor(s, reader, began)
    && SeenSinceBirth(s, reader, target)
    && (target.Versioned? ==>
          Since(s, reader.identifier, target.namespaceGeneration, target.identifierGeneration, began))
  }

  predicate EntrySound(s: System, key: Key)
    requires key in s.cached
  {
    && s.cached[key].began <= s.moment
    && (key.Entry? ==> Since(s, key.identifier, key.namespaceGeneration, key.identifierGeneration, s.cached[key].began))
  }

  ghost predicate Sound(s: System) {
    && Histories(s)
    && (forall key :: key in s.cached ==> EntrySound(s, key))
    && (forall r :: r in s.readers ==> ReaderSound(s, s.readers[r]))
  }

  lemma HistoriesGrow(s: System, step: Step)
    requires Enabled(s, step)
    ensures s.namespaceHistory <= Next(s, step).namespaceHistory
    ensures forall identifier :: HistoryOf(s, identifier) <= HistoryOf(Next(s, step), identifier)
    ensures s.moment <= Next(s, step).moment
  {
  }

  lemma StepKeepsHistories(s: System, step: Step)
    requires Histories(s) && Enabled(s, step)
    ensures Histories(Next(s, step))
  {
  }

  lemma StepKeepsEntries(s: System, step: Step, key: Key)
    requires Sound(s) && Enabled(s, step) && key in Next(s, step).cached
    ensures EntrySound(Next(s, step), key)
  {
    HistoriesGrow(s, step);
    if key in s.cached {
      assert EntrySound(s, key);
    }
    if step.Store? {
      assert ReaderSound(s, s.readers[step.reader]);
    }
  }

  lemma StandingReaderSound(s: System, step: Step, r: nat)
    requires Sound(s) && Enabled(s, step) && r in s.readers
    ensures ReaderSound(Next(s, step), s.readers[r])
  {
    HistoriesGrow(s, step);
    assert ReaderSound(s, s.readers[r]);
  }

  lemma CountingReaderSound(s: System, step: Step)
    requires Sound(s) && Enabled(s, step)
    requires step.GetNamespaceGeneration? || step.GetIdentifierGeneration? || step.CountingFails?
    ensures ReaderSound(Next(s, step), Next(s, step).readers[step.reader])
  {
  }

  /** A probe that hits finds a body no older than the generations of the request. */
  lemma ProbingReaderSound(s: System, step: Step)
    requires Sound(s) && Enabled(s, step) && step.Probe?
    ensures ReaderSound(Next(s, step), Next(s, step).readers[step.reader])
  {
    var reader := s.readers[step.reader];
    assert ReaderSound(s, reader);
    assert Ordered(HistoryOf(s, reader.identifier), s.moment);
    var key := Entry(reader.identifier, reader.phase.target.namespaceGeneration, reader.phase.target.identifierGeneration);
    assert key in s.cached ==> EntrySound(s, key);
  }

  lemma LoadingReaderSound(s: System, step: Step)
    requires Sound(s) && Enabled(s, step)
    requires step.BeginLoad? || step.EndLoad? || step.Store?
    ensures ReaderSound(Next(s, step), Next(s, step).readers[step.reader])
  {
    var reader := s.readers[step.reader];
    assert ReaderSound(s, reader);
    assert Ordered(HistoryOf(s, reader.identifier), s.moment);
  }

  predicate Advances(step: Step, r: nat) {
    match step
    case Write | InvalidateNamespace | InvalidateIdentifier(_) | Expire(_) | Begin(_, _, _) => false
    case _ => step.reader == r
  }

  lemma StepKeepsSound(s: System, step: Step)
    requires Sound(s) && Enabled(s, step)
    ensures Sound(Next(s, step))
  {
    StepKeepsHistories(s, step);
    forall key | key in Next(s, step).cached {
      StepKeepsEntries(s, step, key);
    }
    forall r | r in Next(s, step).readers ensures ReaderSound(Next(s, step), Next(s, step).readers[r]) {
      if r !in s.readers {
        assert Ordered(HistoryOf(s, step.identifier), s.moment);
      } else if !Advances(step, r) {
        StandingReaderSound(s, step, r);
      } else if step.Probe? {
        ProbingReaderSound(s, step);
      } else if step.BeginLoad? || step.EndLoad? || step.Store? {
        LoadingReaderSound(s, step);
      } else {
        CountingReaderSound(s, step);
      }
    }
  }

  lemma {:induction false} RunKeepsSound(s: System, steps: seq<Step>)
    requires Sound(s) && Run(s, steps)
    ensures Sound(After(s, steps))
    decreases |steps|
  {
    if steps != [] {
      StepKeepsSound(s, steps[0]);
      RunKeepsSound(Next(s, steps[0]), steps[1..]);
    }
  }

  /** Along a run histories only grow, and a request keeps its identifier and its birth. */
  lemma {:induction false} RunGrows(s: System, steps: seq<Step>)
    requires Run(s, steps)
    ensures s.namespaceHistory <= After(s, steps).namespaceHistory
    ensures forall identifier :: HistoryOf(s, identifier) <= HistoryOf(After(s, steps), identifier)
    ensures forall r :: r in s.readers ==>
              && r in After(s, steps).readers
              && After(s, steps).readers[r] == s.readers[r].(phase := After(s, steps).readers[r].phase)
    decreases |steps|
  {
    if steps != [] {
      HistoriesGrow(s, steps[0]);
      RunGrows(Next(s, steps[0]), steps[1..]);
    }
  }

  // ---------------------------------------------------------------------------------------------
  // Freshness
  // ---------------------------------------------------------------------------------------------

  /** Every load known to a reachable system began at or before its moment. */
  lemma LoadsBeganBefore(steps: seq<Step>)
    requires Run(INITIAL, steps)
    ensures var s := After(INITIAL, steps);
            && (forall key :: key in s.cached ==> s.cached[key].began <= s.moment)
            && (forall r :: r in s.readers ==>
                  && (s.readers[r].phase.Running? ==> s.readers[r].phase.began <= s.moment)
                  && (s.readers[r].phase.Storing? ==> s.readers[r].phase.loaded.began <= s.moment)
                  && (s.readers[r].phase.Done? ==> s.readers[r].phase.value.began <= s.moment))
  {
    RunKeepsSound(INITIAL, steps);
    var s := After(INITIAL, steps);
    forall key | key in s.cached ensures s.cached[key].began <= s.moment {
      assert EntrySound(s, key);
    }
    forall r | r in s.readers ensures ReaderSound(s, s.readers[r]) {
    }
  }

  /**
   A request that begins after an invalidation of its namespace or its identifier has taken effect
   never returns a body whose load began before that invalidation.
   */
  lemma ReadsAreFresh(steps: seq<Step>, invalidation: Step, before: seq<Step>, begin: Step, during: seq<Step>)
    requires Run(INITIAL, steps)
    requires begin.Begin?
    requires invalidation == InvalidateNamespace || invalidation == InvalidateIdentifier(begin.identifier)
    requires Run(Next(After(INITIAL, steps), invalidation), before)
    requires Enabled(After(Next(After(INITIAL, steps), invalidation), before), begin)
    requires Run(Next(After(Next(After(INITIAL, steps), invalidation), before), begin), during)
    ensures var s := After(INITIAL, steps);
            var end := After(Next(After(Next(s, invalidation), before), begin), during);
            && begin.reader in end.readers
            && (end.readers[begin.reader].phase.Done? ==> s.moment < end.readers[begin.reader].phase.value.began)
  {
    var s := After(INITIAL, steps);
    var invalidated := Next(s, invalidation);
    var ready := After(invalidated, before);
    var begun := Next(ready, begin);
    var end := After(begun, during);
    RunKeepsSound(INITIAL, steps);
    StepKeepsSound(s, invalidation);
    RunKeepsSound(invalidated, before);
    StepKeepsSound(ready, begin);
    RunKeepsSound(begun, during);
    RunGrows(invalidated, before);
    RunGrows(begun, during);
    FreshFromBirth(s, invalidation, ready, begin, end);
  }

  lemma FreshFromBirth(s: System, invalidation: Step, ready: System, begin: Step, end: System)
    requires begin.Begin?
    requires invalidation == InvalidateNamespace || invalidation == InvalidateIdentifier(begin.identifier)
    requires Sound(s) && Sound(ready) && Sound(end) && Enabled(ready, begin)
    requires Next(s, invalidation).namespaceHistory <= ready.namespaceHistory <= end.namespaceHistory
    requires HistoryOf(Next(s, invalidation), begin.identifier) <= HistoryOf(ready, begin.identifier)
    requires HistoryOf(ready, begin.identifier) <= HistoryOf(end, begin.identifier)
    requires begin.reader in end.readers
    requires var born := Next(ready, begin).readers[begin.reader];
             end.readers[begin.reader] == born.(phase := end.readers[begin.reader].phase)
    ensures end.readers[begin.reader].phase.Done? ==> s.moment < end.readers[begin.reader].phase.value.began
  {
    var reader := end.readers[begin.reader];
    assert ReaderSound(end, reader);
    assert Ordered(ready.namespaceHistory, ready.moment) && Ordered(HistoryOf(ready, begin.identifier), ready.moment);
    if invalidation == InvalidateNamespace {
      assert Next(s, invalidation).namespaceHistory[|s.namespaceHistory|] == s.moment + 1;
      assert ready.namespaceHistory[|s.namespaceHistory|] == s.moment + 1;
    } else {
      var history := HistoryOf(s, begin.identifier);
      assert HistoryOf(Next(s, invalidation), begin.identifier)[|history|] == s.moment + 1;
      assert HistoryOf(ready, begin.identifier)[|history|] == s.moment + 1;
    }
  }

  lemma {:induction false} RunExtends(s: System, steps: seq<Step>, step: Step)
    requires Run(s, steps) && Enabled(After(s, steps), step)
    ensures Run(s, steps + [step]) && After(s, steps + [step]) == Next(After(s, steps), step)
    decreases |steps|
  {
    if steps == [] {
      assert steps + [step] == [step] && [step][1..] == [];
    } else {
      RunExtends(Next(s, steps[0]), steps[1..], step);
      assert (steps + [step])[1..] == steps[1..] + [step];
    }
  }

  ghost predicate Reachable(s: System) {
    exists steps :: Run(INITIAL, steps) && After(INITIAL, steps) == s
  }

  lemma ReachableStep(s: System, step: Step) returns (after: System)
    requires Reachable(s) && Enabled(s, step)
    ensures after == Next(s, step) && Reachable(after)
  {
    var steps :| Run(INITIAL, steps) && After(INITIAL, steps) == s;
    RunExtends(INITIAL, steps, step);
    after := Next(s, step);
    assert Run(INITIAL, steps + [step]) && After(INITIAL, steps + [step]) == after;
  }

  /** A request of "x" that gets both generations before anything is invalidated. */
  lemma CountedRequest(s: System, r: nat) returns (after: System)
    requires Reachable(s) && r !in s.readers && s.namespaceHistory == [0] && s.identifierHistories == map[]
    ensures Reachable(after) && after == s.(readers := s.readers[r := Reader("x", 0, 0, Probing(Versioned(0, 0)))])
  {
    after := ReachableStep(s, Begin(r, "x", true));
    after := ReachableStep(after, GetNamespaceGeneration(r));
    after := ReachableStep(after, GetIdentifierGeneration(r));
    assert after.readers == s.readers[r := Reader("x", 0, 0, Probing(Versioned(0, 0)))];
  }

  lemma LoadedRequest(s: System, content: int) returns (after: System)
    requires Reachable(s) && s == INITIAL.(readers := map[1 := Reader("x", 0, 0, Probing(Versioned(0, 0)))])
    ensures Reachable(after)
    ensures after == s.(cached := map[Entry("x", 0, 0) := Body(0, content)],
                        readers := map[1 := Reader("x", 0, 0, Done(Body(0, content)))])
  {
    after := ReachableStep(s, Probe(1, false));
    after := ReachableStep(after, BeginLoad(1));
    after := ReachableStep(after, EndLoad(1, content));
    after := ReachableStep(after, Store(1, true));
  }

  /** When the increment fails and is swallowed, the next read returns a body whose load began before the write. */
  lemma LostInvalidationIsStale(content: int) returns (s: System)
    ensures Reachable(s) && s.moment == 1
    ensures 2 in s.readers && s.readers[2].phase == Done(Body(0, content))
  {
    assert Run(INITIAL, []) && After(INITIAL, []) == INITIAL;
    s := CountedRequest(INITIAL, 1);
    s := LoadedRequest(s, content);
    s := ReachableStep(s, Write);
    s := CountedRequest(s, 2);
    s := ReachableStep(s, Probe(2, false));
  }
}
