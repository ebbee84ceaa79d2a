/**
 The three stores as one limiter: the same decisions on every history, and the bounds a fixed
 window gives on every sliding one.
 */
module RateLimitGuarantees {
  import opened Outcomes
  import opened RateLimit

  datatype Store = Memory | Table | Redis

  /** One call of the limiter. `sweep` concerns the memory store, `ttl` what Redis reports. */
  datatype Request = Request(key: string, now: int, sweep: bool, ttl: int)

  type Rules = string -> Rule

  function Cleaned(store: Store, state: Buckets, r: Request): Buckets {
    if store.Memory? && r.sweep && state != map[] then Swept(state, r.now) else state
  }

  function Cap(store: Store, rule: Rule): Option<nat> {
    if store.Table? then Some(rule.limit + 1) else None
  }

  function NewBucket(store: Store, rule: Rule, bucket: Option<Bucket>, now: int): Bucket {
    if store.Memory? then MemoryBucket(bucket, rule, now) else Bumped(bucket, Cap(store, rule), rule, now)
  }

  function Served(store: Store, rules: Rules, state: Buckets, r: Request): Buckets {
    var before := Cleaned(store, state, r);
    before[r.key := NewBucket(store, rules(r.key), Get(before, r.key), r.now)]
  }

  /** What one request is told, from its own key's bucket alone. */
  function Verdict(store: Store, rule: Rule, bucket: Option<Bucket>, r: Request): Decision {
    match store
    case Memory => MemoryDecision(bucket, rule, r.now)
    case Table =>
      var after := Bumped(bucket, Cap(store, rule), rule, r.now);
      CounterDecision(after.count, rule, RetryAfter(after.resetAt, r.now))
    case Redis => CounterDecision(Bumped(bucket, None, rule, r.now).count, rule, RedisWait(r.ttl))
  }

  function DecisionOf(store: Store, rules: Rules, state: Buckets, r: Request): Decision {
    Verdict(store, rules(r.key), Get(Cleaned(store, state, r), r.key), r)
  }

  function Decisions(store: Store, rules: Rules, state: Buckets, rs: seq<Request>): (ds: seq<Decision>)
    ensures |ds| == |rs|
    decreases |rs|
  {
    if rs == [] then []
    else [DecisionOf(store, rules, state, rs[0])] + Decisions(store, rules, Served(store, rules, state, rs[0]), rs[1..])
  }

  predicate Ordered(rs: seq<Request>) {
    forall i, j :: 0 <= i < j < |rs| ==> rs[i].now <= rs[j].now
  }

  /** No sweep finds the map over capacity. */
  predicate Roomy(rules: Rules, state: Buckets, rs: seq<Request>)
    decreases |rs|
  {
    rs == []
    || (&& (rs[0].sweep ==> |LiveBuckets(state, rs[0].now)| <= MAX_BUCKETS)
        && Roomy(rules, Served(Memory, rules, state, rs[0]), rs[1..]))
  }

  // ---------------------------------------------------------------------------------------------
  // One specification, three stores
  // ---------------------------------------------------------------------------------------------

  function Min(a: nat, b: nat): nat {
    if a < b then a else b
  }

  /** How the three stores hold the same history of one key. */
  predicate SameKey(rule: Rule, now: int, memory: Option<Bucket>, table: Option<Bucket>, redis: Option<Bucket>) {
    || (Over(memory, now) && Over(table, now) && Over(redis, now))
    || (&& !Over(memory, now) && !Over(table, now) && !Over(redis, now)
        && memory.value.resetAt == table.value.resetAt == redis.value.resetAt
        && redis.value.count >= 1
        && memory.value.count == Min(redis.value.count, rule.limit)
        && table.value.count == Min(redis.value.count, rule.limit + 1))
  }

  ghost predicate Same(rules: Rules, now: int, memory: Buckets, table: Buckets, redis: Buckets) {
    forall key: string :: SameKey(rules(key), now, Get(memory, key), Get(table, key), Get(redis, key))
  }

  predicate Alike(a: Decision, b: Decision) {
    a.allowed == b.allowed && a.remaining == b.remaining
  }

  lemma SameVerdicts(rule: Rule, m: Option<Bucket>, t: Option<Bucket>, d: Option<Bucket>, r: Request)
    requires rule.limit >= 1
    requires SameKey(rule, r.now, m, t, d)
    ensures Verdict(Memory, rule, m, r) == Verdict(Table, rule, t, r)
    ensures Alike(Verdict(Memory, rule, m, r), Verdict(Redis, rule, d, r))
  {
  }

  lemma SameBuckets(rule: Rule, m: Option<Bucket>, t: Option<Bucket>, d: Option<Bucket>, now: int)
    requires rule.limit >= 1
    requires SameKey(rule, now, m, t, d)
    ensures SameKey(rule, now, Some(NewBucket(Memory, rule, m, now)), Some(NewBucket(Table, rule, t, now)),
                    Some(NewBucket(Redis, rule, d, now)))
  {
  }

  lemma SweptKeeps(state: Buckets, now: int, key: string)
    requires |LiveBuckets(state, now)| <= MAX_BUCKETS
    ensures var after := Get(Swept(state, now), key);
            if Over(Get(state, key), now) then after == None else after == Get(state, key)
  {
  }

  lemma SameAfter(rules: Rules, memory: Buckets, table: Buckets, redis: Buckets, r: Request)
    requires forall key: string :: rules(key).limit >= 1
    requires Same(rules, r.now, memory, table, redis)
    requires r.sweep ==> |LiveBuckets(memory, r.now)| <= MAX_BUCKETS
    ensures Same(rules, r.now, Served(Memory, rules, memory, r), Served(Table, rules, table, r),
                 Served(Redis, rules, redis, r))
    ensures DecisionOf(Memory, rules, memory, r) == DecisionOf(Table, rules, table, r)
    ensures Alike(DecisionOf(Memory, rules, memory, r), DecisionOf(Redis, rules, redis, r))
  {
    var cleaned := Cleaned(Memory, memory, r);
    forall key: string
      ensures SameKey(rules(key), r.now, Get(cleaned, key), Get(table, key), Get(redis, key))
    {
      if cleaned != memory {
        SweptKeeps(memory, r.now, key);
      }
    }
    SameVerdicts(rules(r.key), Get(cleaned, r.key), Get(table, r.key), Get(redis, r.key), r);
    SameBuckets(rules(r.key), Get(cleaned, r.key), Get(table, r.key), Get(redis, r.key), r.now);
  }

  lemma SameLater(rules: Rules, now: int, later: int, memory: Buckets, table: Buckets, redis: Buckets)
    requires now <= later
    requires Same(rules, now, memory, table, redis)
    ensures Same(rules, later, memory, table, redis)
  {
  }

  predicate AllAlike(ds: seq<Decision>, es: seq<Decision>) {
    |ds| == |es| && forall i :: 0 <= i < |ds| ==> Alike(ds[i], es[i])
  }

  lemma AlikePrepends(d: Decision, ds: seq<Decision>, e: Decision, es: seq<Decision>)
    requires Alike(d, e) && AllAlike(ds, es)
    ensures AllAlike([d] + ds, [e] + es)
  {
  }

  lemma SameNext(rules: Rules, memory: Buckets, table: Buckets, redis: Buckets, r: Request, later: int)
    requires forall key: string :: rules(key).limit >= 1
    requires Same(rules, r.now, memory, table, redis)
    requires r.sweep ==> |LiveBuckets(memory, r.now)| <= MAX_BUCKETS
    requires r.now <= later
    ensures Same(rules, later, Served(Memory, rules, memory, r), Served(Table, rules, table, r),
                 Served(Redis, rules, redis, r))
  {
    SameAfter(rules, memory, table, redis, r);
    SameLater(rules, r.now, later, Served(Memory, rules, memory, r), Served(Table, rules, table, r),
              Served(Redis, rules, redis, r));
  }

  lemma {:induction false} SameDecisions(
    rules: Rules, now: int, memory: Buckets, table: Buckets, redis: Buckets, rs: seq<Request>)
    requires forall key: string :: rules(key).limit >= 1
    requires Ordered(rs) && Roomy(rules, memory, rs)
    requires rs != [] ==> now == rs[0].now
    requires Same(rules, now, memory, table, redis)
    ensures Decisions(Memory, rules, memory, rs) == Decisions(Table, rules, table, rs)
    ensures AllAlike(Decisions(Memory, rules, memory, rs), Decisions(Redis, rules, redis, rs))
    decreases |rs|
  {
    if rs != [] {
      var later := if |rs| > 1 then rs[1].now else now;
      SameNext(rules, memory, table, redis, rs[0], later);
      SameDecisions(rules, later, Served(Memory, rules, memory, rs[0]), Served(Table, rules, table, rs[0]),
                    Served(Redis, rules, redis, rs[0]), rs[1..]);
      SameAfter(rules, memory, table, redis, rs[0]);
      AlikePrepends(DecisionOf(Memory, rules, memory, rs[0]),
                    Decisions(Memory, rules, Served(Memory, rules, memory, rs[0]), rs[1..]),
                    DecisionOf(Redis, rules, redis, rs[0]),
                    Decisions(Redis, rules, Served(Redis, rules, redis, rs[0]), rs[1..]));
    }
  }

  /**
   From empty stores, any ordered history gets the same decisions from memory and the database, and
   the same answer and allowance from Redis.
   */
  lemma StoresAgree(rules: Rules, rs: seq<Request>)
    requires forall key: string :: rules(key).limit >= 1
    requires Ordered(rs) && Roomy(rules, map[], rs)
    ensures Decisions(Memory, rules, map[], rs) == Decisions(Table, rules, map[], rs)
    ensures AllAlike(Decisions(Memory, rules, map[], rs), Decisions(Redis, rules, map[], rs))
  {
    var now := if rs == [] then 0 else rs[0].now;
    SameDecisions(rules, now, map[], map[], map[], rs);
  }

  /** A rule of nothing: memory still lets the first request of each window through. */
  lemma AgreeOnlyWithAnAllowance(rules: Rules, r: Request)
    ensures Alike(DecisionOf(Memory, rules, map[], r), DecisionOf(Table, rules, map[], r))
            <==> rules(r.key).limit >= 1
  {
  }

  // ---------------------------------------------------------------------------------------------
  // Sweeping
  // ---------------------------------------------------------------------------------------------

  function Unswept(rs: seq<Request>): (calm: seq<Request>)
    ensures |calm| == |rs|
    ensures forall i :: 0 <= i < |rs| ==> calm[i] == rs[i].(sweep := false)
  {
    seq(|rs|, i requires 0 <= i < |rs| => rs[i].(sweep := false))
  }

  predicate LiveAlike(now: int, a: Option<Bucket>, b: Option<Bucket>) {
    (Over(a, now) && Over(b, now)) || a == b
  }

  ghost predicate SameLive(now: int, a: Buckets, b: Buckets) {
    forall key: string :: LiveAlike(now, Get(a, key), Get(b, key))
  }

  lemma SweptSame(rules: Rules, a: Buckets, b: Buckets, r: Request)
    requires SameLive(r.now, a, b)
    requires r.sweep ==> |LiveBuckets(a, r.now)| <= MAX_BUCKETS
    ensures SameLive(r.now, Served(Memory, rules, a, r), Served(Memory, rules, b, r.(sweep := false)))
    ensures DecisionOf(Memory, rules, a, r) == DecisionOf(Memory, rules, b, r.(sweep := false))
  {
    var cleaned := Cleaned(Memory, a, r);
    forall key: string
      ensures LiveAlike(r.now, Get(cleaned, key), Get(b, key))
    {
      assert LiveAlike(r.now, Get(a, key), Get(b, key));
      if cleaned != a {
        SweptKeeps(a, r.now, key);
      }
    }
    var calm := r.(sweep := false);
    forall key: string
      ensures LiveAlike(r.now, Get(Served(Memory, rules, a, r), key), Get(Served(Memory, rules, b, calm), key))
    {
      assert LiveAlike(r.now, Get(cleaned, key), Get(b, key));
    }
  }

  lemma {:induction false} SweepsChangeNothing(rules: Rules, a: Buckets, b: Buckets, rs: seq<Request>)
    requires Ordered(rs) && Roomy(rules, a, rs)
    requires rs != [] ==> SameLive(rs[0].now, a, b)
    ensures Decisions(Memory, rules, a, rs) == Decisions(Memory, rules, b, Unswept(rs))
    decreases |rs|
  {
    if rs != [] {
      SweptSame(rules, a, b, rs[0]);
      var x, y := Served(Memory, rules, a, rs[0]), Served(Memory, rules, b, rs[0].(sweep := false));
      if |rs| > 1 {
        forall key: string
          ensures LiveAlike(rs[1].now, Get(x, key), Get(y, key))
        {
          assert LiveAlike(rs[0].now, Get(x, key), Get(y, key));
        }
      }
      SweepsChangeNothing(rules, x, y, rs[1..]);
      assert Unswept(rs)[1..] == Unswept(rs[1..]);
    }
  }

  /** Exactly when a sweep changes a decision: over capacity, and the key had used up its window. */
  lemma OverflowForgives(rules: Rules, state: Buckets, r: Request)
    requires r.sweep
    ensures DecisionOf(Memory, rules, state, r).allowed != DecisionOf(Memory, rules, state, r.(sweep := false)).allowed
            <==> && |LiveBuckets(state, r.now)| > MAX_BUCKETS
                 && !Over(Get(state, r.key), r.now)
                 && state[r.key].count >= rules(r.key).limit
  {
  }

  // ---------------------------------------------------------------------------------------------
  // Bounds
  // ---------------------------------------------------------------------------------------------

  /** Requests of one key that were allowed from `a` up to and including `b`. */
  function AllowedWithin(store: Store, rules: Rules, state: Buckets, rs: seq<Request>, key: string, a: int, b: int): nat
    decreases |rs|
  {
    if rs == [] then 0
    else
      (if rs[0].key == key && a <= rs[0].now <= b && DecisionOf(store, rules, state, rs[0]).allowed then 1 else 0)
      + AllowedWithin(store, rules, Served(store, rules, state, rs[0]), rs[1..], key, a, b)
  }

  function AskedWithin(rs: seq<Request>, key: string, a: int, b: int): nat {
    if rs == [] then 0
    else (if rs[0].key == key && a <= rs[0].now <= b then 1 else 0) + AskedWithin(rs[1..], key, a, b)
  }

  function Left(rule: Rule, bucket: Option<Bucket>): nat
    requires bucket.Some?
  {
    if bucket.value.count < rule.limit then rule.limit - bucket.value.count else 0
  }

  predicate Careful(store: Store, rules: Rules, state: Buckets, rs: seq<Request>) {
    store.Memory? ==> Roomy(rules, state, rs)
  }

  /** A request meets its key's bucket as the store holds it, swept or not. */
  lemma OwnBucket(store: Store, rules: Rules, state: Buckets, r: Request, key: string)
    requires store.Memory? && r.sweep ==> |LiveBuckets(state, r.now)| <= MAX_BUCKETS
    ensures LiveAlike(r.now, Get(Cleaned(store, state, r), key), Get(state, key))
    ensures DecisionOf(store, rules, state, r) == Verdict(store, rules(r.key), Get(state, r.key), r)
    ensures Get(Served(store, rules, state, r), r.key)
            == Some(NewBucket(store, rules(r.key), Get(state, r.key), r.now))
    ensures key != r.key ==> LiveAlike(r.now, Get(Served(store, rules, state, r), key), Get(state, key))
  {
  }

  /**
   Inside a window the limiter is exact: of the requests before the reset, as many are allowed as
   the window has left.
   */
  lemma {:induction false} WindowExact(
    store: Store, rules: Rules, state: Buckets, rs: seq<Request>, key: string, a: int)
    requires rules(key).limit >= 1
    requires Ordered(rs) && Careful(store, rules, state, rs)
    requires key in state && (rs != [] ==> a <= rs[0].now)
    ensures AllowedWithin(store, rules, state, rs, key, a, state[key].resetAt - 1)
            == Min(AskedWithin(rs, key, a, state[key].resetAt - 1), Left(rules(key), Get(state, key)))
    decreases |rs|
  {
    var b := state[key].resetAt - 1;
    if rs != [] {
      var r := rs[0];
      var next := Served(store, rules, state, r);
      OwnBucket(store, rules, state, r, key);
      if r.now <= b {
        assert key in next && next[key].resetAt == b + 1;
        WindowExact(store, rules, next, rs[1..], key, a);
      } else {
        NoneLater(store, rules, next, rs[1..], key, a, b);
      }
    }
  }

  lemma {:induction false} NoneLater(
    store: Store, rules: Rules, state: Buckets, rs: seq<Request>, key: string, a: int, b: int)
    requires forall i :: 0 <= i < |rs| ==> rs[i].now > b
    ensures AllowedWithin(store, rules, state, rs, key, a, b) == 0
    ensures AskedWithin(rs, key, a, b) == 0
    decreases |rs|
  {
    if rs != [] {
      NoneLater(store, rules, Served(store, rules, state, rs[0]), rs[1..], key, a, b);
    }
  }

  /** A request that opens a window: until its reset the first `limit` requests pass and no more. */
  lemma OpenedWindow(store: Store, rules: Rules, state: Buckets, rs: seq<Request>)
    requires rs != [] && Ordered(rs) && Careful(store, rules, state, rs)
    requires rules(rs[0].key).limit >= 1 && rules(rs[0].key).windowSeconds >= 1
    requires Over(Get(state, rs[0].key), rs[0].now)
    ensures var r := rs[0];
            var end := r.now + 1000 * rules(r.key).windowSeconds - 1;
            AllowedWithin(store, rules, state, rs, r.key, r.now, end)
            == Min(AskedWithin(rs, r.key, r.now, end), rules(r.key).limit)
  {
    var r := rs[0];
    OwnBucket(store, rules, state, r, r.key);
    WindowExact(store, rules, Served(store, rules, state, r), rs[1..], r.key, r.now);
  }

  /**
   What a caller is told remains is kept: of the key's later requests before the reset, exactly that many
   pass, or all if there are fewer.
   */
  lemma RemainingIsKept(store: Store, rules: Rules, state: Buckets, r: Request, rest: seq<Request>)
    requires rules(r.key).limit >= 1 && rules(r.key).windowSeconds >= 1
    requires Ordered([r] + rest) && Careful(store, rules, state, [r] + rest)
    ensures var after := Served(store, rules, state, r);
            && DecisionOf(store, rules, state, r).remaining >= 0
            && AllowedWithin(store, rules, after, rest, r.key, r.now, after[r.key].resetAt - 1)
               == Min(AskedWithin(rest, r.key, r.now, after[r.key].resetAt - 1),
                      DecisionOf(store, rules, state, r).remaining)
  {
    assert ([r] + rest)[0] == r && ([r] + rest)[1..] == rest;
    OwnBucket(store, rules, state, r, r.key);
    forall i, j | 0 <= i < j < |rest| ensures rest[i].now <= rest[j].now {
      assert ([r] + rest)[i + 1] == rest[i] && ([r] + rest)[j + 1] == rest[j];
    }
    if rest != [] {
      assert ([r] + rest)[1] == rest[0];
    }
    WindowExact(store, rules, Served(store, rules, state, r), rest, r.key, r.now);
  }

  /** Whole seconds, at least one, that reach the reset and no second more than needed. */
  lemma RetryAfterExact(resetAt: int, now: int)
    ensures RetryAfter(resetAt, now) >= 1
    ensures now + 1000 * RetryAfter(resetAt, now) >= resetAt
    ensures RetryAfter(resetAt, now) > 1 ==> now + 1000 * (RetryAfter(resetAt, now) - 1) < resetAt
  {
  }

  /** After a refusal by any store the next request passes exactly once the window is over. */
  lemma AllowedAgainExactly(store: Store, rules: Rules, state: Buckets, refused: Request, again: Request)
    requires rules(refused.key).limit >= 1 && again.key == refused.key
    requires !DecisionOf(store, rules, state, refused).allowed
    requires store.Memory? && again.sweep ==>
               |LiveBuckets(Served(store, rules, state, refused), again.now)| <= MAX_BUCKETS
    ensures refused.key in state && state[refused.key].resetAt > refused.now
    ensures DecisionOf(store, rules, Served(store, rules, state, refused), again).allowed
            <==> again.now >= state[refused.key].resetAt
  {
    var next := Served(store, rules, state, refused);
    if store.Memory? && again.sweep {
      SweptKeeps(next, again.now, again.key);
    }
  }

  function ToldToReturn(store: Store, rules: Rules, state: Buckets, refused: Request): int {
    refused.now + 1000 * DecisionOf(store, rules, state, refused).retryAfterSeconds
  }

  /** Whoever waits as told is let through, unless others ask in between. */
  ghost predicate WaitingSuffices(store: Store, rules: Rules, state: Buckets, refused: Request) {
    forall again: Request :: again.key == refused.key && again.now >= ToldToReturn(store, rules, state, refused) ==>
      DecisionOf(store, rules, Served(store, rules, state, refused), again).allowed
  }

  /** Waiting as told suffices exactly when the wait covers the rest of the window. */
  lemma WaitingSufficesExactly(store: Store, rules: Rules, state: Buckets, refused: Request)
    requires rules(refused.key).limit >= 1 && !DecisionOf(store, rules, state, refused).allowed
    ensures refused.key in state
    ensures WaitingSuffices(store, rules, state, refused)
            <==> ToldToReturn(store, rules, state, refused) >= state[refused.key].resetAt
  {
    var told := ToldToReturn(store, rules, state, refused);
    var next := Served(store, rules, state, refused);
    var prompt := Request(refused.key, told, false, 0);
    AllowedAgainExactly(store, rules, state, refused, prompt);
    if told >= state[refused.key].resetAt {
      forall again: Request | again.key == refused.key && again.now >= told
        ensures DecisionOf(store, rules, next, again).allowed
      {
        AllowedOnceOver(store, rules, next, again);
      }
    }
  }

  lemma AllowedOnceOver(store: Store, rules: Rules, state: Buckets, r: Request)
    requires rules(r.key).limit >= 1 && Over(Get(state, r.key), r.now)
    ensures DecisionOf(store, rules, state, r).allowed
  {
  }

  /** Memory and the database always tell a wait that suffices. */
  lemma ComputedWaitSuffices(store: Store, rules: Rules, state: Buckets, refused: Request)
    requires store.Memory? || store.Table?
    requires rules(refused.key).limit >= 1 && !DecisionOf(store, rules, state, refused).allowed
    ensures WaitingSuffices(store, rules, state, refused)
  {
    WaitingSufficesExactly(store, rules, state, refused);
    RetryAfterExact(state[refused.key].resetAt, refused.now);
  }

  /** Redis may tell too little: with 1.4 seconds left and one second reported, the caller is refused again. */
  lemma ReportedWaitMayFallShort(rules: Rules, key: string, now: int)
    requires rules(key).limit >= 1
    ensures var state := map[key := Bucket(rules(key).limit, now + 1400)];
            var refused := Request(key, now, false, 1);
            !DecisionOf(Redis, rules, state, refused).allowed && !WaitingSuffices(Redis, rules, state, refused)
  {
    WaitingSufficesExactly(Redis, rules, map[key := Bucket(rules(key).limit, now + 1400)], Request(key, now, false, 1));
  }

  /** The most a key can still be allowed between `now` and the end of the interval that began at `a`. */
  function Potential(rule: Rule, bucket: Option<Bucket>, now: int, a: int): nat {
    if Over(bucket, now) then (if now > a then rule.limit else 2 * rule.limit)
    else if bucket.value.resetAt > ResetFrom(rule, a) then Left(rule, bucket)
    else rule.limit + Left(rule, bucket)
  }

  lemma RequestSpends(store: Store, rule: Rule, bucket: Option<Bucket>, r: Request, a: int)
    requires rule.limit >= 1 && rule.windowSeconds >= 1
    requires a <= r.now <= ResetFrom(rule, a)
    ensures Potential(rule, Some(NewBucket(store, rule, bucket, r.now)), r.now, a)
            + (if Verdict(store, rule, bucket, r).allowed then 1 else 0) <= Potential(rule, bucket, r.now, a)
  {
  }

  lemma PotentialFalls(rule: Rule, bucket: Option<Bucket>, now: int, later: int, a: int)
    requires a <= now <= later <= ResetFrom(rule, a)
    ensures Potential(rule, bucket, later, a) <= Potential(rule, bucket, now, a)
  {
  }

  lemma {:induction false} PotentialBounds(
    store: Store, rules: Rules, state: Buckets, rs: seq<Request>, key: string, now: int, a: int)
    requires rules(key).limit >= 1 && rules(key).windowSeconds >= 1
    requires Ordered(rs) && Careful(store, rules, state, rs)
    requires a <= now && (rs != [] ==> now <= rs[0].now)
    ensures AllowedWithin(store, rules, state, rs, key, a, ResetFrom(rules(key), a))
            <= Potential(rules(key), Get(state, key), now, a)
    decreases |rs|
  {
    var b := ResetFrom(rules(key), a);
    if rs != [] {
      var r := rs[0];
      var next := Served(store, rules, state, r);
      if r.now > b {
        NoneLater(store, rules, state, rs, key, a, b);
      } else {
        OwnBucket(store, rules, state, r, key);
        PotentialFalls(rules(key), Get(state, key), now, r.now, a);
        PotentialBounds(store, rules, next, rs[1..], key, r.now, a);
        if r.key == key {
          RequestSpends(store, rules(key), Get(state, key), r, a);
        }
      }
    }
  }

  /**
   From any state of any store, a key is allowed at most twice its limit in any interval of one
   window's length, both ends included.
   */
  lemma {:induction false} SlidingBound(
    store: Store, rules: Rules, state: Buckets, rs: seq<Request>, key: string, a: int)
    requires rules(key).limit >= 1 && rules(key).windowSeconds >= 1
    requires Ordered(rs) && Careful(store, rules, state, rs)
    ensures AllowedWithin(store, rules, state, rs, key, a, a + 1000 * rules(key).windowSeconds) <= 2 * rules(key).limit
    decreases |rs|
  {
    if rs != [] {
      if rs[0].now < a {
        SlidingBound(store, rules, Served(store, rules, state, rs[0]), rs[1..], key, a);
      } else {
        PotentialBounds(store, rules, state, rs, key, a, a);
      }
    }
  }

  // ---------------------------------------------------------------------------------------------
  // Falling back
  // ---------------------------------------------------------------------------------------------

  /** A call of the durable limiter, and how far it got with Redis. */
  datatype Call = Call(request: Request, reach: Reach)

  datatype Durable = Durable(redis: Buckets, rows: Buckets)

  function CallDecision(rules: Rules, d: Durable, c: Call): Decision {
    if c.reach.Answered? then DecisionOf(Redis, rules, d.redis, c.request)
    else DecisionOf(Table, rules, d.rows, c.request)
  }

  function Handled(rules: Rules, d: Durable, c: Call): Durable {
    Durable(if c.reach.Absent? then d.redis else Served(Redis, rules, d.redis, c.request),
            if c.reach.Answered? then d.rows else Served(Table, rules, d.rows, c.request))
  }

  predicate InOrder(cs: seq<Call>) {
    forall i, j :: 0 <= i < j < |cs| ==> cs[i].request.now <= cs[j].request.now
  }

  function DurablyAllowed(rules: Rules, d: Durable, cs: seq<Call>, key: string, a: int, b: int): nat
    decreases |cs|
  {
    if cs == [] then 0
    else
      var r := cs[0].request;
      (if r.key == key && a <= r.now <= b && CallDecision(rules, d, cs[0]).allowed then 1 else 0)
      + DurablyAllowed(rules, Handled(rules, d, cs[0]), cs[1..], key, a, b)
  }

  predicate Reaches(store: Store, c: Call) {
    if store.Redis? then !c.reach.Absent? else !c.reach.Answered?
  }

  /** The requests a store counts. */
  function Share(store: Store, cs: seq<Call>): seq<Request> {
    if cs == [] then []
    else if Reaches(store, cs[0]) then [cs[0].request] + Share(store, cs[1..])
    else Share(store, cs[1..])
  }

  lemma {:induction false} ShareOrdered(store: Store, cs: seq<Call>)
    requires InOrder(cs)
    ensures Ordered(Share(store, cs))
    ensures cs != [] ==> forall r :: r in Share(store, cs) ==> r.now >= cs[0].request.now
  {
    if cs != [] {
      ShareOrdered(store, cs[1..]);
    }
  }

  predicate NoneLost(cs: seq<Call>) {
    forall i :: 0 <= i < |cs| ==> !cs[i].reach.Lost?
  }

  lemma ShareSteps(store: Store, rules: Rules, state: Buckets, cs: seq<Call>, key: string, a: int, b: int)
    requires cs != []
    ensures var r, next := cs[0].request, Served(store, rules, state, cs[0].request);
            AllowedWithin(store, rules, state, Share(store, cs), key, a, b)
            == if !Reaches(store, cs[0]) then AllowedWithin(store, rules, state, Share(store, cs[1..]), key, a, b)
               else (if r.key == key && a <= r.now <= b && DecisionOf(store, rules, state, r).allowed then 1 else 0)
                    + AllowedWithin(store, rules, next, Share(store, cs[1..]), key, a, b)
  {
    var own := [cs[0].request] + Share(store, cs[1..]);
    assert own[1..] == Share(store, cs[1..]);
  }

  /** Each store sees its own share of the calls; only a lost reply makes a request count in both. */
  lemma {:induction false} SharesAdd(rules: Rules, d: Durable, cs: seq<Call>, key: string, a: int, b: int)
    ensures var shares := AllowedWithin(Redis, rules, d.redis, Share(Redis, cs), key, a, b)
                          + AllowedWithin(Table, rules, d.rows, Share(Table, cs), key, a, b);
            && DurablyAllowed(rules, d, cs, key, a, b) <= shares
            && (NoneLost(cs) ==> DurablyAllowed(rules, d, cs, key, a, b) == shares)
    decreases |cs|
  {
    if cs != [] {
      SharesAdd(rules, Handled(rules, d, cs[0]), cs[1..], key, a, b);
      ShareSteps(Redis, rules, d.redis, cs, key, a, b);
      ShareSteps(Table, rules, d.rows, cs, key, a, b);
      assert NoneLost(cs) ==> NoneLost(cs[1..]) && !cs[0].reach.Lost?;
    }
  }

  /**
   Whatever the pattern of Redis outages and lost replies, the durable limiter allows at most four
   limits in one window's length, and at most two while Redis always answers or never does.
   */
  lemma OutagesAtMostDouble(rules: Rules, d: Durable, cs: seq<Call>, key: string, a: int)
    requires rules(key).limit >= 1 && rules(key).windowSeconds >= 1
    requires InOrder(cs)
    ensures DurablyAllowed(rules, d, cs, key, a, a + 1000 * rules(key).windowSeconds) <= 4 * rules(key).limit
    ensures (Share(Redis, cs) == [] || Share(Table, cs) == []) ==>
              DurablyAllowed(rules, d, cs, key, a, a + 1000 * rules(key).windowSeconds) <= 2 * rules(key).limit
  {
    ShareOrdered(Redis, cs);
    ShareOrdered(Table, cs);
    SharesAdd(rules, d, cs, key, a, a + 1000 * rules(key).windowSeconds);
    SlidingBound(Redis, rules, d.redis, Share(Redis, cs), key, a);
    SlidingBound(Table, rules, d.rows, Share(Table, cs), key, a);
  }

  // ---------------------------------------------------------------------------------------------
  // The bounds are reached
  // ---------------------------------------------------------------------------------------------

  function Burst(key: string, now: int, n: nat): seq<Request> {
    seq(n, _ => Request(key, now, false, 0))
  }

  /** A burst within what a live window has left passes as a whole. */
  lemma {:induction false} BurstPasses(store: Store, rules: Rules, state: Buckets, key: string, now: int, n: nat,
                                       rest: seq<Request>, a: int, b: int) returns (after: Buckets)
    requires key in state && state[key].resetAt > now && state[key].count + n <= rules(key).limit && a <= now <= b
    ensures key in after && after[key].resetAt == state[key].resetAt
    ensures AllowedWithin(store, rules, state, Burst(key, now, n) + rest, key, a, b)
            == n + AllowedWithin(store, rules, after, rest, key, a, b)
    decreases n
  {
    var all := Burst(key, now, n) + rest;
    if n == 0 {
      assert all == rest;
      after := state;
    } else {
      var r := Request(key, now, false, 0);
      assert all[0] == r && all[1..] == Burst(key, now, n - 1) + rest;
      after := BurstPasses(store, rules, Served(store, rules, state, r), key, now, n - 1, rest, a, b);
    }
  }

  /** So does a whole allowance when the window is over; it opens the next one. */
  lemma WholeBurstPasses(store: Store, rules: Rules, state: Buckets, key: string, now: int, rest: seq<Request>, a: int,
                         b: int) returns (after: Buckets)
    requires rules(key).limit >= 1 && rules(key).windowSeconds >= 1 && Over(Get(state, key), now) && a <= now <= b
    ensures key in after && after[key].resetAt == ResetFrom(rules(key), now)
    ensures AllowedWithin(store, rules, state, Burst(key, now, rules(key).limit) + rest, key, a, b)
            == rules(key).limit + AllowedWithin(store, rules, after, rest, key, a, b)
  {
    var n := rules(key).limit;
    var r := Request(key, now, false, 0);
    var all := Burst(key, now, n) + rest;
    assert all[0] == r && all[1..] == Burst(key, now, n - 1) + rest;
    after := BurstPasses(store, rules, Served(store, rules, state, r), key, now, n - 1, rest, a, b);
  }

  /** An allowance at the start of an interval of one window's length and another at its end. */
  function TwoBursts(rule: Rule, key: string, a: int): seq<Request> {
    Burst(key, a, rule.limit) + Burst(key, a + 1000 * rule.windowSeconds, rule.limit)
  }

  /** Twice the limit is reached in every store. */
  lemma SlidingBoundIsMet(store: Store, rules: Rules, key: string, a: int)
    requires rules(key).limit >= 1 && rules(key).windowSeconds >= 1
    ensures Ordered(TwoBursts(rules(key), key, a))
    ensures AllowedWithin(store, rules, map[], TwoBursts(rules(key), key, a), key, a, a + 1000 * rules(key).windowSeconds)
            == 2 * rules(key).limit
  {
    var end := a + 1000 * rules(key).windowSeconds;
    var second := Burst(key, end, rules(key).limit);
    var after := WholeBurstPasses(store, rules, map[], key, a, second, a, end);
    assert second + [] == second;
    var last := WholeBurstPasses(store, rules, after, key, end, [], a, end);
  }

  function Reached(rs: seq<Request>, reach: Reach): seq<Call> {
    seq(|rs|, i requires 0 <= i < |rs| => Call(rs[i], reach))
  }

  lemma {:induction false} ShareAppends(store: Store, x: seq<Call>, y: seq<Call>)
    ensures Share(store, x + y) == Share(store, x) + Share(store, y)
  {
    if x == [] {
      assert x + y == y;
    } else {
      assert (x + y)[1..] == x[1..] + y;
      ShareAppends(store, x[1..], y);
    }
  }

  lemma {:induction false} ShareReached(store: Store, rs: seq<Request>, reach: Reach)
    requires reach.Answered? || reach.Absent?
    ensures Share(store, Reached(rs, reach)) == if store.Redis? == reach.Answered? then rs else []
  {
    if rs != [] {
      assert Reached(rs, reach)[1..] == Reached(rs[1..], reach);
      ShareReached(store, rs[1..], reach);
    }
  }

  /** An allowance answered by Redis and one without it, at each end of the interval. */
  function FourBursts(rule: Rule, key: string, a: int): seq<Call> {
    var first, second := Burst(key, a, rule.limit), Burst(key, a + 1000 * rule.windowSeconds, rule.limit);
    (Reached(first, Answered) + Reached(first, Absent)) + (Reached(second, Answered) + Reached(second, Absent))
  }

  lemma FourShares(store: Store, rule: Rule, key: string, a: int)
    ensures store.Redis? || store.Table? ==> Share(store, FourBursts(rule, key, a)) == TwoBursts(rule, key, a)
  {
    var first, second := Burst(key, a, rule.limit), Burst(key, a + 1000 * rule.windowSeconds, rule.limit);
    ShareAppends(store, Reached(first, Answered) + Reached(first, Absent),
                 Reached(second, Answered) + Reached(second, Absent));
    ShareAppends(store, Reached(first, Answered), Reached(first, Absent));
    ShareAppends(store, Reached(second, Answered), Reached(second, Absent));
    ShareReached(store, first, Answered);
    ShareReached(store, first, Absent);
    ShareReached(store, second, Answered);
    ShareReached(store, second, Absent);
  }

  /** Four times the limit is reached when Redis goes away twice. */
  lemma OutageBoundIsMet(rules: Rules, key: string, a: int)
    requires rules(key).limit >= 1 && rules(key).windowSeconds >= 1
    ensures InOrder(FourBursts(rules(key), key, a))
    ensures DurablyAllowed(rules, Durable(map[], map[]), FourBursts(rules(key), key, a), key, a,
                           a + 1000 * rules(key).windowSeconds)
            == 4 * rules(key).limit
  {
    var cs := FourBursts(rules(key), key, a);
    FourShares(Redis, rules(key), key, a);
    FourShares(Table, rules(key), key, a);
    SharesAdd(rules, Durable(map[], map[]), cs, key, a, a + 1000 * rules(key).windowSeconds);
    SlidingBoundIsMet(Redis, rules, key, a);
    SlidingBoundIsMet(Table, rules, key, a);
  }
}
