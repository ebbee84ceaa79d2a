/**
 Local wall-clock time against UTC instants.

 A zone is its offset function: `instant + zone(instant)` is what the wall clock shows, written as
 milliseconds since the local epoch. Local dates are day numbers since 1970-01-01.
 */
module LocalTime {
  import opened Outcomes

  const MINUTE: int := 60_000
  const HOUR: int := 3_600_000
  const DAY: int := 86_400_000

  type Zone = int -> int

  /** The calendar fields the formatter reports, down to the minute. */
  datatype Parts = Parts(day: int, hour: int, minute: int)

  function PartsOf(wall: int): Parts {
    var minutes := wall / MINUTE;
    var hours := minutes / 60;
    Parts(hours / 24, hours % 24, minutes % 60)
  }

  /** `Date.UTC` of a day, an hour and a minute; out-of-range hours and minutes roll over. */
  function Wall(parts: Parts): int {
    parts.day * DAY + parts.hour * HOUR + parts.minute * MINUTE
  }

  function DateParts(zone: Zone, instant: int): Parts {
    PartsOf(instant + zone(instant))
  }

  function LocalDate(zone: Zone, instant: int): int {
    DateParts(zone, instant).day
  }

  /** 1970-01-01 was a Thursday; Sunday is 0. */
  function Weekday(day: int): int {
    (day + 4) % 7
  }

  function Probe(zone: Zone, desired: int, guess: int): int {
    guess + desired - Wall(DateParts(zone, guess))
  }

  /** What the two-pass search ends on. */
  function Settled(zone: Zone, desired: int): int {
    Probe(zone, desired, Probe(zone, desired, desired))
  }

  function ToUtc(zone: Zone, parts: Parts): Result<int> {
    var instant := Settled(zone, Wall(parts));
    if DateParts(zone, instant) == parts then Ok(instant) else Err(Unprocessable)
  }

  /** An unknown zone name, and a date or a clock field that is no number, arrive as nothing. */
  method ZonedDateTimeToUtc(zone: Option<Zone>, day: Option<int>, hour: Option<int>, minute: Option<int>)
    returns (result: Result<int>)
    ensures zone.None? || day.None? || hour.None? || minute.None? ==> result == Err(Unprocessable)
    ensures zone.Some? && day.Some? && hour.Some? && minute.Some? ==>
              result == ToUtc(zone.value, Parts(day.value, hour.value, minute.value))
  {
    if zone.None? || day.None? {
      return Err(Unprocessable);
    }
    if hour.None? || minute.None? {
      return Err(Unprocessable);
    }
    var desired := day.value * DAY + hour.value * HOUR + minute.value * MINUTE;
    var instant := desired;
    for pass := 0 to 2
      invariant pass == 0 ==> instant == desired
      invariant pass == 1 ==> instant == Probe(zone.value, desired, desired)
      invariant pass == 2 ==> instant == Settled(zone.value, desired)
    {
      var parts := DateParts(zone.value, instant);
      var represented := parts.day * DAY + parts.hour * HOUR + parts.minute * MINUTE;
      instant := instant + (desired - represented);
    }
    var roundTrip := DateParts(zone.value, instant);
    if roundTrip.day != day.value || roundTrip.hour != hour.value || roundTrip.minute != minute.value {
      return Err(Unprocessable);
    }
    return Ok(instant);
  }

  // ---------------------------------------------------------------------------------------------
  // Arithmetic of calendar fields
  // ---------------------------------------------------------------------------------------------

  predicate OnMinute(wall: int) {
    wall % MINUTE == 0
  }

  predicate ClockTime(parts: Parts) {
    0 <= parts.hour < 24 && 0 <= parts.minute < 60
  }

  lemma AtLeastOne(x: int, d: int)
    requires x >= 1 && d > 0
    ensures x * d >= d
  {
    assert (x - 1) * d >= 0;
    assert x * d == (x - 1) * d + d;
  }

  /** Quotient and remainder are unique. */
  lemma QuotientUnique(whole: int, d: int, q: int, r: int)
    requires d > 0 && whole == q * d + r && 0 <= r < d
    ensures whole / d == q && whole % d == r
  {
    var p := whole / d;
    assert whole == p * d + whole % d;
    assert (p - q) * d == r - whole % d && (q - p) * d == whole % d - r;
    if p > q {
      AtLeastOne(p - q, d);
    } else if p < q {
      AtLeastOne(q - p, d);
    }
  }

  /** The units in milliseconds: what the wall clock shows, and what it is built from. */
  lemma ClockReads(zone: Zone, instant: int, parts: Parts)
    ensures var wall := instant + zone(instant);
            DateParts(zone, instant) == Parts(wall / 86_400_000, wall / 3_600_000 % 24, wall / 60_000 % 60)
    ensures LocalDate(zone, instant) == (instant + zone(instant)) / 86_400_000
    ensures Wall(parts) == parts.day * 86_400_000 + parts.hour * 3_600_000 + parts.minute * 60_000
  {
    Units(instant + zone(instant));
  }

  lemma Units(wall: int)
    ensures wall / 60_000 / 60 == wall / 3_600_000 && wall / 3_600_000 / 24 == wall / 86_400_000
  {
  }

  /** Day 0 was a Thursday, weekdays follow one another, and a week has seven. */
  lemma WeekdaysFollow(day: int)
    ensures Weekday(0) == 4 && 0 <= Weekday(day) < 7
    ensures Weekday(day + 1) == (if Weekday(day) == 6 then 0 else Weekday(day) + 1)
    ensures Weekday(day + 7) == Weekday(day)
  {
  }

  lemma PartsExact(wall: int)
    ensures ClockTime(PartsOf(wall)) && Wall(PartsOf(wall)) == wall - wall % MINUTE
  {
  }

  lemma MinuteSums(a: int, b: int)
    requires OnMinute(a) && OnMinute(b)
    ensures OnMinute(a + b) && OnMinute(a - b)
  {
  }

  /** On a whole-minute wall clock a probe corrects its guess by exactly the offset it sees. */
  lemma ProbeCorrects(zone: Zone, desired: int, guess: int)
    requires OnMinute(guess + zone(guess))
    ensures Probe(zone, desired, guess) == desired - zone(guess)
  {
  }

  lemma WallOnMinute(parts: Parts)
    ensures OnMinute(Wall(parts)) && Wall(parts) / MINUTE == (parts.day * 24 + parts.hour) * 60 + parts.minute
  {
  }

  /** The fields of a wall time are the ones it was built from exactly when they are clock fields. */
  lemma PartsOfWall(parts: Parts)
    ensures ClockTime(parts) <==> PartsOf(Wall(parts)) == parts
  {
    WallOnMinute(parts);
    PartsExact(Wall(parts));
    assert ((parts.day * 24 + parts.hour) * 60 + parts.minute) / 60 == parts.day * 24 + parts.hour + parts.minute / 60;
  }
}
