/**
 Fixed-window rate limiting over three stores: a map in memory, a saturating database counter and
 an unbounded Redis counter that expires.
 */
module RateLimit {
  import opened Outcomes

  const MAX_BUCKETS: nat := 10_000

  datatype Bucket = Bucket(count: nat, resetAt: int)

  datatype Rule = Rule(limit: nat, windowSeconds: nat)

  datatype Decision = Decision(allowed: bool, remaining: int, retryAfterSeconds: int)

  type Buckets = map<string, Bucket>

  function Get(buckets: Buckets, key: string): Option<Bucket> {
    if key in buckets then Some(buckets[key]) else None
  }

  predicate Over(bucket: Option<Bucket>, now: int) {
    bucket.None? || bucket.value.resetAt <= now
  }

  function ResetFrom(rule: Rule, now: int): int {
    now + rule.windowSeconds * 1000
  }

  /** Whole seconds until the reset, at least one. */
  function RetryAfter(resetAt: int, now: int): int {
    var seconds := (resetAt - now + 999) / 1000;
    if seconds < 1 then 1 else seconds
  }

  // In memory: a denied request leaves its bucket alone.

  function MemoryBucket(bucket: Option<Bucket>, rule: Rule, now: int): Bucket {
    if Over(bucket, now) then Bucket(1, ResetFrom(rule, now))
    else if bucket.value.count >= rule.limit then bucket.value
    else bucket.value.(count := bucket.value.count + 1)
  }

  function MemoryDecision(bucket: Option<Bucket>, rule: Rule, now: int): Decision {
    if Over(bucket, now) then Decision(true, rule.limit - 1, 0)
    else if bucket.value.count >= rule.limit then Decision(false, 0, RetryAfter(bucket.value.resetAt, now))
    else Decision(true, rule.limit - (bucket.value.count + 1), 0)
  }

  predicate Unexpired(buckets: Buckets, now: int, key: string) {
    key in buckets && buckets[key].resetAt > now
  }

  function LiveBuckets(buckets: Buckets, now: int): Buckets {
    map key | key in buckets && Unexpired(buckets, now, key) :: buckets[key]
  }

  function Swept(buckets: Buckets, now: int): Buckets {
    var live := LiveBuckets(buckets, now);
    if |live| > MAX_BUCKETS then map[] else live
  }

  // Counters: every request counts; `cap` is where the database counter saturates, Redis has none.

  function Bumped(bucket: Option<Bucket>, cap: Option<nat>, rule: Rule, now: int): Bucket {
    if Over(bucket, now) then Bucket(1, ResetFrom(rule, now))
    else
      var count := bucket.value.count + 1;
      bucket.value.(count := if cap.Some? && cap.value < count then cap.value else count)
  }

  /** Judged after counting; `wait` is what a refused caller is told. */
  function CounterDecision(count: nat, rule: Rule, wait: int): Decision {
    Decision(count <= rule.limit,
             if rule.limit - count < 0 then 0 else rule.limit - count,
             if count <= rule.limit then 0 else wait)
  }

  function RedisWait(ttl: int): int {
    if ttl < 1 then 1 else ttl
  }

  class MemoryLimiter {
    var buckets: Buckets

    constructor ()
      ensures buckets == map[]
    {
      buckets := map[];
    }

    method Sweep(now: int)
      modifies this`buckets
      ensures buckets == Swept(old(buckets), now)
      ensures var live := map key | key in old(buckets) && old(buckets)[key].resetAt > now :: old(buckets)[key];
              buckets == if |live| > 10_000 then map[] else live
    {
      var left := buckets.Keys;
      ghost var before := buckets;
      while left != {}
        invariant left <= buckets.Keys <= before.Keys
        invariant forall key :: key in before ==>
                    if key in left then key in buckets else (key in buckets <==> Unexpired(before, now, key))
        invariant forall key :: key in buckets ==> buckets[key] == before[key]
        decreases left
      {
        var key :| key in left;
        left := left - {key};
        if buckets[key].resetAt <= now {
          buckets := buckets - {key};
        }
      }
      assert buckets == LiveBuckets(before, now);
      assert buckets == map key | key in before && before[key].resetAt > now :: before[key];
      if |buckets| > MAX_BUCKETS {
        buckets := map[];
      }
    }

    /** `sweep` is the one request in a hundred that cleans up first. */
    method Consume(key: string, rule: Rule, now: int, sweep: bool) returns (decision: Decision)
      modifies this`buckets
      ensures var before := if sweep && old(buckets) != map[] then Swept(old(buckets), now) else old(buckets);
              && decision == MemoryDecision(Get(before, key), rule, now)
              && buckets == before[key := MemoryBucket(Get(before, key), rule, now)]
      ensures key !in old(buckets) || old(buckets)[key].resetAt <= now ==>
                && key in buckets && buckets[key] == Bucket(1, now + 1000 * rule.windowSeconds)
                && decision == Decision(true, rule.limit - 1, 0)
      ensures key in old(buckets) && old(buckets)[key].resetAt > now && !sweep ==>
                var was := old(buckets)[key];
                if was.count >= rule.limit
                then buckets == old(buckets) && decision == Decision(false, 0, decision.retryAfterSeconds)
                else && buckets == old(buckets)[key := Bucket(was.count + 1, was.resetAt)]
                     && decision == Decision(true, rule.limit - was.count - 1, 0)
      ensures !decision.allowed ==>
                && key in buckets && decision.retryAfterSeconds >= 1
                && now + 1000 * decision.retryAfterSeconds >= buckets[key].resetAt
                && (decision.retryAfterSeconds > 1 ==>
                      now + 1000 * (decision.retryAfterSeconds - 1) < buckets[key].resetAt)
    {
      if |buckets| > 0 && sweep {
        Sweep(now);
      }
      if key !in buckets || buckets[key].resetAt <= now {
        buckets := buckets[key := Bucket(1, now + rule.windowSeconds * 1000)];
        return Decision(true, rule.limit - 1, 0);
      }
      var existing := buckets[key];
      if existing.count >= rule.limit {
        assert buckets == buckets[key := existing];
        return Decision(false, 0, RetryAfter(existing.resetAt, now));
      }
      buckets := buckets[key := existing.(count := existing.count + 1)];
      return Decision(true, rule.limit - (existing.count + 1), 0);
    }
  }

  /** One call to Redis: answered, run but with its reply lost, or never run. */
  datatype Reach = Answered | Lost | Absent

  /** The durable limiter: Redis when it answers, the database row otherwise. */
  class DurableLimiter {
    var rows: Buckets
    var redis: Buckets

    /** A key that exists was incremented at least once. */
    ghost predicate Counting()
      reads this`redis
    {
      forall key :: key in redis ==> redis[key].count >= 1
    }

    constructor ()
      ensures rows == map[] && redis == map[] && Counting()
    {
      rows, redis := map[], map[];
    }

    /** The INCR/EXPIRE script; an expired key counts as absent. */
    method Increment(key: string, rule: Rule, now: int) returns (current: nat)
      requires Counting()
      modifies this`redis
      ensures Counting()
      ensures var after := Bumped(Get(old(redis), key), None, rule, now);
              redis == old(redis)[key := after] && current == after.count
      ensures key !in old(redis) || old(redis)[key].resetAt <= now ==>
                redis == old(redis)[key := Bucket(1, now + 1000 * rule.windowSeconds)] && current == 1
      ensures key in old(redis) && old(redis)[key].resetAt > now ==>
                var was := old(redis)[key];
                redis == old(redis)[key := Bucket(was.count + 1, was.resetAt)] && current == was.count + 1
    {
      current := if key in redis && redis[key].resetAt > now then redis[key].count + 1 else 1;
      if current == 1 {
        redis := redis[key := Bucket(current, now + rule.windowSeconds * 1000)];
      } else {
        redis := redis[key := redis[key].(count := current)];
      }
    }

    /** The upsert that counts to one past the limit. */
    method Upsert(key: string, rule: Rule, now: int) returns (after: Bucket)
      modifies this`rows
      ensures after == Bumped(Get(old(rows), key), Some(rule.limit + 1), rule, now)
      ensures rows == old(rows)[key := after]
      ensures key !in old(rows) || old(rows)[key].resetAt <= now ==> after == Bucket(1, now + 1000 * rule.windowSeconds)
      ensures key in old(rows) && old(rows)[key].resetAt > now ==>
                var was := old(rows)[key];
                after == Bucket(if was.count <= rule.limit then was.count + 1 else rule.limit + 1, was.resetAt)
    {
      if key !in rows || rows[key].resetAt <= now {
        after := Bucket(1, now + rule.windowSeconds * 1000);
      } else {
        var count := rows[key].count + 1;
        after := rows[key].(count := if rule.limit + 1 < count then rule.limit + 1 else count);
      }
      rows := rows[key := after];
    }

    /** `ttl` is what Redis says of the key if it answers. A count whose reply is lost stays counted. */
    method Consume(key: string, rule: Rule, now: int, reach: Reach, ttl: int) returns (decision: Decision)
      requires Counting()
      modifies this
      ensures Counting()
      ensures var counted := Bumped(Get(old(redis), key), None, rule, now);
              var row := Bumped(Get(old(rows), key), Some(rule.limit + 1), rule, now);
              && redis == (if reach.Absent? then old(redis) else old(redis)[key := counted])
              && rows == (if reach.Answered? then old(rows) else old(rows)[key := row])
              && decision == if reach.Answered? then CounterDecision(counted.count, rule, RedisWait(ttl))
                             else CounterDecision(row.count, rule, RetryAfter(row.resetAt, now))
      ensures reach.Answered? ==> rows == old(rows)
      ensures reach.Absent? ==> redis == old(redis)
      ensures var counted := if reach.Answered? then redis else rows;
              && key in counted
              && (decision.allowed <==> counted[key].count <= rule.limit)
              && decision.remaining == (if decision.allowed then rule.limit - counted[key].count else 0)
              && (decision.allowed ==> decision.retryAfterSeconds == 0)
              && (!decision.allowed && reach.Answered? ==> decision.retryAfterSeconds == if ttl < 1 then 1 else ttl)
              && (!decision.allowed && !reach.Answered? ==>
                    && decision.retryAfterSeconds >= 1
                    && now + 1000 * decision.retryAfterSeconds >= rows[key].resetAt
                    && (decision.retryAfterSeconds > 1 ==>
                          now + 1000 * (decision.retryAfterSeconds - 1) < rows[key].resetAt))
    {
      var count: nat := 0;
      if !reach.Absent? {
        count := Increment(key, rule, now);
      }
      if reach.Answered? {
        var allowed := count <= rule.limit;
        var left := rule.limit - count;
        return Decision(allowed, if left < 0 then 0 else left, if allowed then 0 else RedisWait(ttl));
      }
      var bucket := Upsert(key, rule, now);
      var allowed := bucket.count <= rule.limit;
      var left := rule.limit - bucket.count;
      return Decision(allowed, if left < 0 then 0 else left, if allowed then 0 else RetryAfter(bucket.resetAt, now));
    }
  }
}
