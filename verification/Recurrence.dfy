/** Occurrences of a recurring appointment: the supported subset of section 3.3.10 of RFC 5545. */
module Recurrence {
  import opened Outcomes
  import opened LocalTime

  const DEFAULT_COUNT: int := 10
  const EXPANSION_LIMIT: nat := 20

  datatype Frequency = Daily | Weekly

  /** A bound in the basic format, or any other date string. */
  datatype Until = Basic(instant: int) | Iso(instant: int)

  datatype RecurrenceRule = RecurrenceRule(
    frequency: Frequency,
    interval: Option<int>,
    count: Option<int>,
    until: Option<Until>)

  function StepMs(rule: RecurrenceRule): int {
    (if rule.frequency.Daily? then DAY else 7 * DAY) * (if rule.interval.Some? then rule.interval.value else 1)
  }

  /** A midnight bound in the basic format covers its whole day. */
  function LastInstant(until: Until): int {
    if until.Basic? && until.instant % DAY == 0 then until.instant + DAY - 1 else until.instant
  }

  predicate WithinUntil(rule: RecurrenceRule, occurrence: int) {
    rule.until.Some? ==> occurrence <= LastInstant(rule.until.value)
  }

  /** The most occurrences the count and the limit allow. */
  function AtMost(rule: RecurrenceRule): nat {
    var count := if rule.count.Some? then rule.count.value else DEFAULT_COUNT;
    if count <= 0 then 0 else if count < EXPANSION_LIMIT then count else EXPANSION_LIMIT
  }

  function Nth(rule: RecurrenceRule, startsAt: int, i: int): int {
    startsAt + i * StepMs(rule)
  }

  /** The first occurrences, up to the first one past the bound. */
  ghost predicate Expansion(rule: RecurrenceRule, startsAt: int, occurrences: seq<int>) {
    && |occurrences| <= AtMost(rule)
    && (forall i :: 0 <= i < |occurrences| ==>
          occurrences[i] == Nth(rule, startsAt, i) && WithinUntil(rule, occurrences[i]))
    && (|occurrences| < AtMost(rule) ==> !WithinUntil(rule, Nth(rule, startsAt, |occurrences|)))
  }

  function OccurrencesFrom(rule: RecurrenceRule, startsAt: int, i: nat): seq<int>
    decreases AtMost(rule) - i
  {
    if i >= AtMost(rule) || !WithinUntil(rule, Nth(rule, startsAt, i)) then []
    else [Nth(rule, startsAt, i)] + OccurrencesFrom(rule, startsAt, i + 1)
  }

  lemma OccurrencesSplit(rule: RecurrenceRule, startsAt: int, i: nat, done: seq<int>)
    ensures var rest := OccurrencesFrom(rule, startsAt, i);
            if i >= AtMost(rule) || !WithinUntil(rule, Nth(rule, startsAt, i)) then done + rest == done
            else done + rest == done + [Nth(rule, startsAt, i)] + OccurrencesFrom(rule, startsAt, i + 1)
  {
  }

  /** The loop's result is the expansion: spaced by the step, within the bound, and as long as allowed. */
  lemma ExpansionHolds(rule: RecurrenceRule, startsAt: int)
    ensures Expansion(rule, startsAt, OccurrencesFrom(rule, startsAt, 0))
  {
    OccurrencesSuffix(rule, startsAt, 0);
    var all := OccurrencesFrom(rule, startsAt, 0);
    forall i | 0 <= i < |all| ensures all[i] == Nth(rule, startsAt, i) {
      assert all[i] == Nth(rule, startsAt, 0 + i);
    }
  }

  lemma {:induction false} OccurrencesSuffix(rule: RecurrenceRule, startsAt: int, i: nat)
    ensures var rest := OccurrencesFrom(rule, startsAt, i);
            && i + |rest| <= (if i <= AtMost(rule) then AtMost(rule) else i)
            && (forall k :: 0 <= k < |rest| ==> rest[k] == Nth(rule, startsAt, i + k) && WithinUntil(rule, rest[k]))
            && (i + |rest| < AtMost(rule) ==> !WithinUntil(rule, Nth(rule, startsAt, i + |rest|)))
    decreases AtMost(rule) - i
  {
    if i < AtMost(rule) && WithinUntil(rule, Nth(rule, startsAt, i)) {
      OccurrencesSuffix(rule, startsAt, i + 1);
    }
  }

  /**
   In plain milliseconds: at most twenty occurrences, at most the count or ten without one, a whole number of
   days or weeks apart, none past the bound; and fewer only because the next one would be past it.
   */
  ghost predicate Follows(occurrences: seq<int>, rule: RecurrenceRule, startsAt: int) {
    var interval := if rule.interval.Some? then rule.interval.value else 1;
    var step := if rule.frequency.Daily? then 86_400_000 * interval else 604_800_000 * interval;
    var count := if rule.count.Some? then rule.count.value else 10;
    && |occurrences| <= 20 && (|occurrences| <= count || occurrences == [])
    && (forall i :: 0 <= i < |occurrences| ==> occurrences[i] == startsAt + i * step)
    && (rule.until.Some? ==>
          var until := rule.until.value;
          var last := if until.Basic? && until.instant % 86_400_000 == 0 then until.instant + 86_399_999 else until.instant;
          && (forall i :: 0 <= i < |occurrences| ==> occurrences[i] <= last)
          && (|occurrences| < 20 && |occurrences| < count ==> startsAt + |occurrences| * step > last))
    && (rule.until.None? && |occurrences| < 20 ==> |occurrences| >= count)
  }

  lemma Steps(rule: RecurrenceRule, startsAt: int, i: nat)
    ensures var interval := if rule.interval.Some? then rule.interval.value else 1;
            Nth(rule, startsAt, i)
            == startsAt + i * if rule.frequency.Daily? then 86_400_000 * interval else 604_800_000 * interval
  {
    var interval := if rule.interval.Some? then rule.interval.value else 1;
    assert DAY == 86_400_000 && 7 * DAY == 604_800_000;
    assert StepMs(rule) == if rule.frequency.Daily? then 86_400_000 * interval else 604_800_000 * interval;
  }

  lemma ExpansionFollows(rule: RecurrenceRule, startsAt: int)
    ensures Follows(OccurrencesFrom(rule, startsAt, 0), rule, startsAt)
  {
    ExpansionHolds(rule, startsAt);
    var all := OccurrencesFrom(rule, startsAt, 0);
    forall i | 0 <= i <= |all| {
      Steps(rule, startsAt, i);
    }
    assert DAY == 86_400_000;
  }

  method ExpandRecurrence(rule: RecurrenceRule, startsAt: int) returns (occurrences: seq<int>)
    ensures occurrences == OccurrencesFrom(rule, startsAt, 0)
    ensures Follows(occurrences, rule, startsAt)
  {
    occurrences := [];
    var max := if rule.count.Some? then rule.count.value else DEFAULT_COUNT;
    ghost var all := OccurrencesFrom(rule, startsAt, 0);
    var i := 0;
    while i < max && |occurrences| < EXPANSION_LIMIT
      invariant i == |occurrences|
      invariant occurrences + OccurrencesFrom(rule, startsAt, i) == all
      decreases max - i
    {
      OccurrencesSplit(rule, startsAt, i, occurrences);
      var occurrence := Nth(rule, startsAt, i);
      if !WithinUntil(rule, occurrence) {
        ExpansionFollows(rule, startsAt);
        return;
      }
      occurrences := occurrences + [occurrence];
      i := i + 1;
    }
    OccurrencesSplit(rule, startsAt, i, occurrences);
    ExpansionFollows(rule, startsAt);
  }

  /** With a positive interval the expansion is exactly the allowed indices whose time is within the bound. */
  lemma ExpansionExact(rule: RecurrenceRule, startsAt: int, i: nat)
    requires rule.interval.None? || rule.interval.value >= 1
    ensures i < |OccurrencesFrom(rule, startsAt, 0)|
            <==> i < AtMost(rule) && WithinUntil(rule, Nth(rule, startsAt, i))
  {
    OccurrencesSuffix(rule, startsAt, 0);
    var all := OccurrencesFrom(rule, startsAt, 0);
    var n := |all|;
    assert i < n ==> all[i] == Nth(rule, startsAt, 0 + i);
    if n <= i && n < AtMost(rule) {
      StepsOrdered(rule, startsAt, n, i);
    }
  }

  lemma StepsOrdered(rule: RecurrenceRule, startsAt: int, i: nat, j: nat)
    requires (rule.interval.None? || rule.interval.value >= 1) && i <= j
    ensures Nth(rule, startsAt, i) <= Nth(rule, startsAt, j)
    ensures i < j ==> Nth(rule, startsAt, i) < Nth(rule, startsAt, j)
  {
  }
}
