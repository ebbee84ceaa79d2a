/**
 When the two-pass conversion of a local time is right.

 The theorems are for zones whose offset is a whole number of minutes, never beyond a day, and
 changes at most once within reach of the probes.
 */
module ZoneConversion {
  import opened Outcomes
  import opened LocalTime

  const REACH: int := DAY

  /** One change of offset: daylight saving starts or ends, or a constant offset when both agree. */
  datatype Change = Change(at: int, before: int, after: int)

  function OffsetAt(change: Change, instant: int): int {
    if instant < change.at then change.before else change.after
  }

  ghost predicate Bounded(zone: Zone) {
    forall t :: -REACH <= zone(t) <= REACH
  }

  /** Between the two instants the zone is this change and nothing else. */
  ghost predicate Follows(zone: Zone, change: Change, from: int, to: int) {
    && Bounded(zone)
    && -REACH <= change.before <= REACH && -REACH <= change.after <= REACH
    && OnMinute(change.at) && OnMinute(change.before) && OnMinute(change.after)
    && forall t :: from <= t <= to ==> zone(t) == OffsetAt(change, t)
  }

  ghost predicate NearDay(zone: Zone, change: Change, first: int, last: int) {
    Follows(zone, change, first - REACH, last + REACH + MINUTE)
  }

  lemma SettlesOn(zone: Zone, change: Change, wall: int)
    requires NearDay(zone, change, wall, wall) && OnMinute(wall)
    ensures Settled(zone, wall) == wall - OffsetAt(change, wall - OffsetAt(change, wall))
  {
    var offset := OffsetAt(change, wall);
    var first := wall - offset;
    var second := OffsetAt(change, first);
    MinuteSums(wall, offset);
    MinuteSums(first, second);
    assert zone(wall) == offset && zone(first) == second;
    ProbeCorrects(zone, wall, wall);
    ProbeCorrects(zone, wall, first);
  }

  /** Whatever on-minute instant shows the wall time, the second pass finds one that does. */
  lemma SecondPassFinds(change: Change, wall: int, instant: int)
    requires instant + OffsetAt(change, instant) == wall
    ensures var found := wall - OffsetAt(change, wall - OffsetAt(change, wall));
            found + OffsetAt(change, found) == wall
  {
  }

  ghost predicate Shown(zone: Zone, parts: Parts) {
    exists t :: DateParts(zone, t) == parts
  }

  /** The settled instant is a whole minute, and so is the wall time it shows. */
  lemma SettledOnMinute(zone: Zone, change: Change, wall: int)
    requires NearDay(zone, change, wall, wall) && OnMinute(wall)
    ensures var found := Settled(zone, wall);
            && zone(found) == OffsetAt(change, found)
            && OnMinute(found) && OnMinute(found + zone(found))
            && Wall(DateParts(zone, found)) == found + zone(found)
  {
    SettlesOn(zone, change, wall);
    var found := Settled(zone, wall);
    MinuteSums(wall, OffsetAt(change, wall - OffsetAt(change, wall)));
    MinuteSums(found, OffsetAt(change, found));
    PartsExact(found + zone(found));
  }

  /** An instant shows the same wall minute as the start of its own minute. */
  lemma ShownOnMinute(zone: Zone, change: Change, parts: Parts, t: int)
    requires NearDay(zone, change, Wall(parts), Wall(parts)) && DateParts(zone, t) == parts
    ensures var start := t - t % MINUTE; start + OffsetAt(change, start) == Wall(parts)
  {
    var start := t - t % MINUTE;
    var offset := OffsetAt(change, t);
    PartsExact(t + zone(t));
    assert zone(t) == offset;
    SameMinute(t, offset);
    SameMinute(t, -change.at);
  }

  lemma SameMinute(t: int, whole: int)
    requires OnMinute(whole) || OnMinute(-whole)
    ensures (t + whole) % MINUTE == t % MINUTE
  {
  }

  lemma SettledShows(zone: Zone, change: Change, wall: int, instant: int)
    requires NearDay(zone, change, wall, wall) && OnMinute(wall)
    requires instant + OffsetAt(change, instant) == wall
    ensures Settled(zone, wall) + zone(Settled(zone, wall)) == wall
  {
    SettlesOn(zone, change, wall);
    SettledOnMinute(zone, change, wall);
    SecondPassFinds(change, wall, instant);
  }

  /** The conversion succeeds exactly when some instant shows the local time. */
  lemma ConvertsExactlyShown(zone: Zone, change: Change, parts: Parts)
    requires NearDay(zone, change, Wall(parts), Wall(parts))
    ensures ToUtc(zone, parts).Ok? <==> Shown(zone, parts)
  {
    if Shown(zone, parts) {
      var t :| DateParts(zone, t) == parts;
      assert ClockTime(parts) by {
        PartsExact(t + zone(t));
      }
      assert PartsOf(Wall(parts)) == parts by {
        PartsOfWall(parts);
      }
      assert Settled(zone, Wall(parts)) + zone(Settled(zone, Wall(parts))) == Wall(parts) by {
        ShownOnMinute(zone, change, parts, t);
        WallOnMinute(parts);
        SettledShows(zone, change, Wall(parts), t - t % MINUTE);
      }
    }
  }

  /** What the conversion returns is a whole minute and shows exactly the requested wall time. */
  lemma ConvertsBack(zone: Zone, change: Change, parts: Parts)
    requires NearDay(zone, change, Wall(parts), Wall(parts)) && ToUtc(zone, parts).Ok?
    ensures var instant := ToUtc(zone, parts).value;
            && DateParts(zone, instant) == parts && LocalDate(zone, instant) == parts.day
            && instant + zone(instant) == Wall(parts) && OnMinute(instant)
            && zone(instant) == OffsetAt(change, instant)
  {
    WallOnMinute(parts);
    SettledOnMinute(zone, change, Wall(parts));
  }

  /** Of two instants showing the same wall time, the one chosen depends on the wall time read as UTC. */
  lemma ChoosesByWall(zone: Zone, change: Change, parts: Parts)
    requires NearDay(zone, change, Wall(parts), Wall(parts)) && ClockTime(parts)
    requires Wall(parts) - change.before < change.at <= Wall(parts) - change.after
    ensures ToUtc(zone, parts)
            == Ok(Wall(parts) - (if Wall(parts) < change.at then change.before else change.after))
  {
    WallOnMinute(parts);
    SettlesOn(zone, change, Wall(parts));
    PartsOfWall(parts);
  }

  /** Later wall times convert to later instants, across a change as well. */
  lemma ConvertsInOrder(zone: Zone, change: Change, p: Parts, q: Parts)
    requires Wall(p) <= Wall(q) && NearDay(zone, change, Wall(p), Wall(q))
    requires ToUtc(zone, p).Ok? && ToUtc(zone, q).Ok?
    ensures ToUtc(zone, p).value <= ToUtc(zone, q).value
  {
    ConvertsBack(zone, change, p);
    ConvertsBack(zone, change, q);
    WallOnMinute(p);
    WallOnMinute(q);
    SettlesOn(zone, change, Wall(p));
    SettlesOn(zone, change, Wall(q));
  }

  // ---------------------------------------------------------------------------------------------
  // Any number of changes
  // ---------------------------------------------------------------------------------------------

  /** Every offset is a whole number of minutes; nothing is asked of when or how often it changes. */
  ghost predicate WholeMinutes(zone: Zone) {
    forall t :: OnMinute(zone(t))
  }

  /** The offset the second pass corrects by: the one in force where the first pass ends. */
  function SecondOffset(zone: Zone, wall: int): int {
    zone(wall - zone(wall))
  }

  lemma SettlesBySecondOffset(zone: Zone, wall: int)
    requires WholeMinutes(zone) && OnMinute(wall)
    ensures Settled(zone, wall) == wall - SecondOffset(zone, wall) && OnMinute(Settled(zone, wall))
  {
    var first := wall - zone(wall);
    MinuteSums(wall, zone(wall));
    MinuteSums(first, zone(first));
    ProbeCorrects(zone, wall, wall);
    ProbeCorrects(zone, wall, first);
    MinuteSums(wall, zone(first));
  }

  /** The conversion succeeds exactly when the second correction lands where its own offset is in force. */
  lemma ConvertsExactlyWhenSettled(zone: Zone, parts: Parts)
    requires WholeMinutes(zone)
    ensures ToUtc(zone, parts).Ok?
            <==> && ClockTime(parts)
                 && zone(Wall(parts) - SecondOffset(zone, Wall(parts))) == SecondOffset(zone, Wall(parts))
  {
    var wall := Wall(parts);
    WallOnMinute(parts);
    SettlesBySecondOffset(zone, wall);
    var found := Settled(zone, wall);
    MinuteSums(found, zone(found));
    PartsExact(found + zone(found));
    PartsOfWall(parts);
  }

  /**
   A local time the zone does show is refused exactly when the offset in force where the first pass
   ends is no longer in force where the second one ends.
   */
  lemma RefusedThoughShown(zone: Zone, parts: Parts)
    requires WholeMinutes(zone) && Shown(zone, parts)
    ensures ToUtc(zone, parts).Err?
            <==> zone(Wall(parts) - SecondOffset(zone, Wall(parts))) != SecondOffset(zone, Wall(parts))
  {
    var t :| DateParts(zone, t) == parts;
    PartsExact(t + zone(t));
    ConvertsExactlyWhenSettled(zone, parts);
  }

  /** An offset function for which that happens: three offsets within one hour. */
  lemma TwoChangesMiss()
    ensures var zone: Zone := t => if t < -HOUR then 3 * HOUR else if t < 0 then 2 * HOUR else HOUR;
            WholeMinutes(zone) && Shown(zone, Parts(0, 0, 0)) && ToUtc(zone, Parts(0, 0, 0)).Err?
  {
    var zone: Zone := t => if t < -HOUR then 3 * HOUR else if t < 0 then 2 * HOUR else HOUR;
    assert DateParts(zone, -3 * HOUR) == Parts(0, 0, 0);
    assert Probe(zone, 0, 0) == -HOUR;
    assert Settled(zone, 0) == -2 * HOUR;
  }
}
