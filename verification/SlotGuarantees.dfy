/**
 What an offered slot guarantees: loading only the day's rows loses nothing, an offered slot
 overlaps no row at all, and when it maps back to the day it was offered on.
 */
module SlotGuarantees {
  import opened Outcomes
  import opened LocalTime
  import opened ZoneConversion
  import opened Availability

  /** Rule times come from a time-of-day column. */
  ghost predicate ClockRules(rules: seq<Rule>) {
    forall i :: 0 <= i < |rules| ==> ClockTime(Opens(rules[i], 0)) && ClockTime(Closes(rules[i], 0))
  }

  ghost predicate RowFree(rows: seq<Occupied>, resource: Id, startsAt: int, endsAt: int) {
    forall row :: row in rows && row.resource == resource ==> !Overlap(startsAt, endsAt, row.startsAt, row.endsAt)
  }

  lemma {:induction false} MeetingExact(rows: seq<Occupied>, from: int, to: int, row: Occupied)
    ensures row in Meeting(rows, from, to) <==> row in rows && row.startsAt < to && row.endsAt > from
  {
    if rows != [] {
      MeetingExact(rows[..|rows| - 1], from, to, row);
      assert rows == rows[..|rows| - 1] + [rows[|rows| - 1]];
    }
  }

  lemma {:induction false} BusyOfExact(rows: seq<Occupied>, resource: Id, slot: Interval)
    ensures slot in BusyOf(rows, resource) <==> Occupied(resource, slot.startsAt, slot.endsAt) in rows
  {
    if rows != [] {
      BusyOfExact(rows[..|rows| - 1], resource, slot);
      assert rows == rows[..|rows| - 1] + [rows[|rows| - 1]];
    }
  }

  /** Being free of a resource's busy list is being free of its rows. */
  lemma FreeOfRows(rows: seq<Occupied>, resource: Id, startsAt: int, endsAt: int)
    ensures IsFree(startsAt, endsAt, BusyOf(rows, resource)) <==> RowFree(rows, resource, startsAt, endsAt)
  {
    var busy := BusyOf(rows, resource);
    if !IsFree(startsAt, endsAt, busy) {
      var i :| 0 <= i < |busy| && Overlap(startsAt, endsAt, busy[i].startsAt, busy[i].endsAt);
      BusyOfExact(rows, resource, busy[i]);
    }
    if !RowFree(rows, resource, startsAt, endsAt) {
      var row :| row in rows && row.resource == resource && Overlap(startsAt, endsAt, row.startsAt, row.endsAt);
      BusyOfExact(rows, resource, Interval(row.startsAt, row.endsAt));
    }
  }

  /** Inside the loaded range, the loaded rows decide the same as all rows. */
  lemma LoadedRowsDecide(appointments: seq<Occupied>, exceptions: seq<Occupied>, from: int, to: int, resource: Id,
                         startsAt: int, endsAt: int)
    requires from <= startsAt && endsAt <= to
    ensures IsFree(startsAt, endsAt, BusyOf(Meeting(appointments, from, to) + Meeting(exceptions, from, to), resource))
            <==> IsFree(startsAt, endsAt, BusyOf(appointments + exceptions, resource))
  {
    var loaded := Meeting(appointments, from, to) + Meeting(exceptions, from, to);
    FreeOfRows(loaded, resource, startsAt, endsAt);
    FreeOfRows(appointments + exceptions, resource, startsAt, endsAt);
    forall row | row in appointments + exceptions && Overlap(startsAt, endsAt, row.startsAt, row.endsAt)
      ensures row in loaded
    {
      MeetingExact(appointments, from, to, row);
      MeetingExact(exceptions, from, to, row);
    }
    forall row | row in loaded ensures row in appointments + exceptions {
      MeetingExact(appointments, from, to, row);
      MeetingExact(exceptions, from, to, row);
    }
  }

  ghost predicate AgreeWithin(a: seq<Interval>, b: seq<Interval>, from: int, to: int) {
    forall s, e :: from <= s && e <= to ==> (IsFree(s, e, a) <==> IsFree(s, e, b))
  }

  lemma {:induction false} FreeCellsAgree(cursor: int, step: int, close: int, a: seq<Interval>, b: seq<Interval>,
                                          from: int, to: int)
    requires step > 0 && from <= cursor && close <= to && AgreeWithin(a, b, from, to)
    ensures FreeCells(cursor, step, close, a) == FreeCells(cursor, step, close, b)
    decreases close - cursor
  {
    if cursor + step <= close {
      FreeCellsAgree(cursor + step, step, close, a, b, from, to);
    }
  }

  ghost predicate OrdinaryDay(zone: Zone, change: Change, day: int) {
    NearDay(zone, change, Wall(DayStart(day)), Wall(DayStart(day + 1)))
  }

  lemma {:induction false} FirstRuleIn(rules: seq<Rule>, weekday: int)
    requires FirstRule(rules, weekday).Some?
    ensures exists i :: 0 <= i < |rules| && rules[i] == FirstRule(rules, weekday).value && rules[i].weekday == weekday
                        && forall j :: 0 <= j < i ==> rules[j].weekday != weekday
  {
    if rules[0].weekday != weekday {
      FirstRuleIn(rules[1..], weekday);
      var i :| 0 <= i < |rules[1..]| && rules[1..][i] == FirstRule(rules, weekday).value
               && rules[1..][i].weekday == weekday && forall j :: 0 <= j < i ==> rules[1..][j].weekday != weekday;
      assert rules[i + 1] == rules[1..][i];
      forall j | 0 <= j < i + 1 ensures rules[j].weekday != weekday {
        assert j > 0 ==> rules[j] == rules[1..][j - 1];
      }
    }
  }

  /** Opening hours lie inside the day that is loaded. */
  lemma OpenHoursInDay(rules: seq<Rule>, day: int, zone: Zone, change: Change)
    requires ClockRules(rules) && OrdinaryDay(zone, change, day)
    requires FirstRule(rules, Weekday(day)).Some?
    requires ToUtc(zone, DayStart(day)).Ok? && ToUtc(zone, DayStart(day + 1)).Ok?
    requires ToUtc(zone, Opens(FirstRule(rules, Weekday(day)).value, day)).Ok?
    requires ToUtc(zone, Closes(FirstRule(rules, Weekday(day)).value, day)).Ok?
    ensures var rule := FirstRule(rules, Weekday(day)).value;
            && ToUtc(zone, DayStart(day)).value <= ToUtc(zone, Opens(rule, day)).value
            && ToUtc(zone, Closes(rule, day)).value <= ToUtc(zone, DayStart(day + 1)).value
  {
    FirstRuleIn(rules, Weekday(day));
    var rule := FirstRule(rules, Weekday(day)).value;
    assert ClockTime(Opens(rule, 0)) && ClockTime(Closes(rule, 0));
    ConvertsInOrder(zone, change, DayStart(day), Opens(rule, day));
    ConvertsInOrder(zone, change, Closes(rule, day), DayStart(day + 1));
  }

  lemma SlotsNeedOnlyDay(rules: seq<Rule>, minutes: int, day: int, zone: Zone, change: Change, calendar: Calendar,
                         resource: Id)
    requires minutes > 0 && ClockRules(rules) && OrdinaryDay(zone, change, day)
    requires ToUtc(zone, DayStart(day)).Ok? && ToUtc(zone, DayStart(day + 1)).Ok?
    ensures var from, to := ToUtc(zone, DayStart(day)).value, ToUtc(zone, DayStart(day + 1)).value;
            var loaded := Meeting(calendar.appointments, from, to) + Meeting(calendar.exceptions, from, to);
            SlotsFor(rules, minutes, day, zone, BusyOf(loaded, resource))
            == SlotsFor(rules, minutes, day, zone, BusyOf(calendar.appointments + calendar.exceptions, resource))
  {
    var from, to := ToUtc(zone, DayStart(day)).value, ToUtc(zone, DayStart(day + 1)).value;
    var loaded := BusyOf(Meeting(calendar.appointments, from, to) + Meeting(calendar.exceptions, from, to), resource);
    var all := BusyOf(calendar.appointments + calendar.exceptions, resource);
    var found := FirstRule(rules, Weekday(day));
    if found.Some? {
      var open, close := ToUtc(zone, Opens(found.value, day)), ToUtc(zone, Closes(found.value, day));
      if open.Ok? && close.Ok? {
        OpenHoursInDay(rules, day, zone, change);
        forall s, e | from <= s && e <= to ensures IsFree(s, e, loaded) <==> IsFree(s, e, all) {
          LoadedRowsDecide(calendar.appointments, calendar.exceptions, from, to, resource, s, e);
        }
        FreeCellsAgree(open.value, minutes * MINUTE, close.value, loaded, all, from, to);
      }
    }
  }

  /** Loading only the rows that meet the local day gives the same slots as loading every row. */
  lemma {:induction false} DayLoadSuffices(resources: seq<Resource>, calendar: Calendar, minutes: int, day: int,
                                           zone: Zone, change: Change)
    requires minutes > 0 && OrdinaryDay(zone, change, day)
    requires forall r :: r in resources ==> ClockRules(r.rules)
    requires ToUtc(zone, DayStart(day)).Ok? && ToUtc(zone, DayStart(day + 1)).Ok?
    ensures var from, to := ToUtc(zone, DayStart(day)).value, ToUtc(zone, DayStart(day + 1)).value;
            var loaded := Meeting(calendar.appointments, from, to) + Meeting(calendar.exceptions, from, to);
            EachResource(resources, loaded, minutes, day, zone)
            == EachResource(resources, calendar.appointments + calendar.exceptions, minutes, day, zone)
  {
    if resources != [] {
      var last := resources[|resources| - 1];
      DayLoadSuffices(resources[..|resources| - 1], calendar, minutes, day, zone, change);
      SlotsNeedOnlyDay(last.rules, minutes, day, zone, change, calendar, last.id);
    }
  }

  // ---------------------------------------------------------------------------------------------
  // Offered slots
  // ---------------------------------------------------------------------------------------------

  /** Some group of the answer lists this slot for this resource. */
  ghost predicate Offered(answer: seq<ResourceSlots>, resource: Id, slot: Interval) {
    exists i :: 0 <= i < |answer| && answer[i].resource == resource && slot in answer[i].slots
  }

  lemma {:induction false} OfferedBySomeone(resources: seq<Resource>, rows: seq<Occupied>, minutes: int, day: int,
                                            zone: Zone, resource: Id, slot: Interval) returns (owner: Resource)
    requires minutes > 0 && EachResource(resources, rows, minutes, day, zone).Ok?
    requires Offered(EachResource(resources, rows, minutes, day, zone).value, resource, slot)
    ensures owner in resources && owner.id == resource
    ensures SlotsFor(owner.rules, minutes, day, zone, BusyOf(rows, resource)).Ok?
    ensures slot in SlotsFor(owner.rules, minutes, day, zone, BusyOf(rows, resource)).value
  {
    var last := resources[|resources| - 1];
    var init := resources[..|resources| - 1];
    var slots := SlotsFor(last.rules, minutes, day, zone, BusyOf(rows, last.id));
    if last.id == resource && slot in slots.value {
      owner := last;
    } else {
      var answer := EachResource(resources, rows, minutes, day, zone).value;
      var earlier := EachResource(init, rows, minutes, day, zone).value;
      var i :| 0 <= i < |answer| && answer[i].resource == resource && slot in answer[i].slots;
      assert i < |earlier| && earlier[i] == answer[i];
      owner := OfferedBySomeone(init, rows, minutes, day, zone, resource, slot);
    }
  }

  lemma {:induction false} WantedExact(resources: seq<Resource>, wanted: Option<Id>, r: Resource)
    ensures r in Wanted(resources, wanted) <==> r in resources && (wanted.None? || r.id == wanted.value)
  {
    if resources != [] {
      WantedExact(resources[..|resources| - 1], wanted, r);
      assert resources == resources[..|resources| - 1] + [resources[|resources| - 1]];
    }
  }

  ghost predicate ClockResources(calendar: Calendar) {
    forall r :: r in calendar.resources ==> ClockRules(r.rules)
  }

  /** An offered slot is one service long, belongs to a listed resource, and overlaps no row of it at all. */
  lemma OfferedIsFree(calendar: Calendar, wanted: Option<Id>, minutes: int, day: int, zone: Zone, change: Change,
                      resource: Id, slot: Interval)
    requires minutes > 0 && OrdinaryDay(zone, change, day) && ClockResources(calendar)
    requires ComputedSlots(calendar, wanted, minutes, day, zone).Ok?
    requires Offered(ComputedSlots(calendar, wanted, minutes, day, zone).value, resource, slot)
    ensures exists r :: r in calendar.resources && r.id == resource
    ensures slot.endsAt == slot.startsAt + minutes * MINUTE
    ensures RowFree(calendar.appointments + calendar.exceptions, resource, slot.startsAt, slot.endsAt)
  {
    var all := calendar.appointments + calendar.exceptions;
    var filtered := Wanted(calendar.resources, wanted);
    forall r | r in filtered ensures r in calendar.resources {
      WantedExact(calendar.resources, wanted, r);
    }
    DayLoadSuffices(filtered, calendar, minutes, day, zone, change);
    var owner := OfferedBySomeone(filtered, all, minutes, day, zone, resource, slot);
    CellOfRule(owner.rules, minutes, day, zone, BusyOf(all, resource), slot);
    FreeOfRows(all, resource, slot.startsAt, slot.endsAt);
  }

  lemma CellOfRule(rules: seq<Rule>, minutes: int, day: int, zone: Zone, busy: seq<Interval>, slot: Interval)
    requires minutes > 0 && SlotsFor(rules, minutes, day, zone, busy).Ok?
    requires slot in SlotsFor(rules, minutes, day, zone, busy).value
    ensures FirstRule(rules, Weekday(day)).Some?
    ensures var rule := FirstRule(rules, Weekday(day)).value;
            && ToUtc(zone, Opens(rule, day)).Ok? && ToUtc(zone, Closes(rule, day)).Ok?
            && ToUtc(zone, Opens(rule, day)).value <= slot.startsAt
            && slot.endsAt <= ToUtc(zone, Closes(rule, day)).value
            && slot.endsAt == slot.startsAt + minutes * MINUTE
            && IsFree(slot.startsAt, slot.endsAt, busy)
  {
    var rule := FirstRule(rules, Weekday(day)).value;
    var open, close := ToUtc(zone, Opens(rule, day)).value, ToUtc(zone, Closes(rule, day)).value;
    FreeCellsExact(open, minutes * MINUTE, close, busy, slot);
    FreeCellsApart(open, minutes * MINUTE, close, busy);
    var k: nat :| slot == Cell(open, minutes * MINUTE, k);
    assert (k + 1) * (minutes * MINUTE) == k * (minutes * MINUTE) + minutes * MINUTE;
  }

  /** The clocks do not go back during these instants. */
  ghost predicate NoClocksBack(zone: Zone, from: int, to: int) {
    forall t, u :: from <= t <= u <= to ==> zone(t) <= zone(u)
  }

  /** Unless the clocks go back during opening hours, a slot starts on the local day it is offered on. */
  lemma OfferedOnItsDay(rules: seq<Rule>, minutes: int, day: int, zone: Zone, change: Change, busy: seq<Interval>,
                        slot: Interval)
    requires minutes > 0 && ClockRules(rules) && OrdinaryDay(zone, change, day)
    requires SlotsFor(rules, minutes, day, zone, busy).Ok?
    requires slot in SlotsFor(rules, minutes, day, zone, busy).value
    requires var rule := FirstRule(rules, Weekday(day)).value;
             NoClocksBack(zone, ToUtc(zone, Opens(rule, day)).value, ToUtc(zone, Closes(rule, day)).value)
    ensures LocalDate(zone, slot.startsAt) == day
  {
    CellOfRule(rules, minutes, day, zone, busy, slot);
    var rule := FirstRule(rules, Weekday(day)).value;
    assert ClockTime(Opens(rule, 0)) && ClockTime(Closes(rule, 0)) by {
      FirstRuleIn(rules, Weekday(day));
    }
    RuleHoursConvert(rule, day, zone, change);
    BetweenHours(zone, ToUtc(zone, Opens(rule, day)).value, ToUtc(zone, Closes(rule, day)).value, slot.startsAt, day);
  }

  lemma BetweenHours(zone: Zone, open: int, close: int, start: int, day: int)
    requires open <= start < close && NoClocksBack(zone, open, close)
    requires day * DAY <= open + zone(open) && close + zone(close) < (day + 1) * DAY
    ensures LocalDate(zone, start) == day
  {
  }

  lemma RuleHoursConvert(rule: Rule, day: int, zone: Zone, change: Change)
    requires ClockTime(Opens(rule, 0)) && ClockTime(Closes(rule, 0)) && OrdinaryDay(zone, change, day)
    requires ToUtc(zone, Opens(rule, day)).Ok? && ToUtc(zone, Closes(rule, day)).Ok?
    ensures var open, close := ToUtc(zone, Opens(rule, day)).value, ToUtc(zone, Closes(rule, day)).value;
            day * DAY <= open + zone(open) && close + zone(close) < (day + 1) * DAY
  {
  }

}
