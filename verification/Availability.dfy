/**
 Open slots of one local day: a grid of the service's duration inside the weekday's opening hours,
 minus everything busy.
 */
module Availability {
  import opened Outcomes
  import opened LocalTime

  type Id = nat

  datatype Interval = Interval(startsAt: int, endsAt: int)

  datatype Rule = Rule(weekday: int, startHour: int, startMinute: int, endHour: int, endMinute: int)

  datatype Resource = Resource(id: Id, branch: Id, rules: seq<Rule>)

  /** A booked appointment or an availability exception, as far as slots are concerned. */
  datatype Occupied = Occupied(resource: Id, startsAt: int, endsAt: int)

  /** What the repository can show of one branch: its resources, its non-cancelled rows, the exceptions. */
  datatype Calendar = Calendar(resources: seq<Resource>, appointments: seq<Occupied>, exceptions: seq<Occupied>)

  datatype ResourceSlots = ResourceSlots(resource: Id, slots: seq<Interval>)

  predicate Overlap(aStart: int, aEnd: int, bStart: int, bEnd: int) {
    aStart < bEnd && aEnd > bStart
  }

  predicate IsFree(startsAt: int, endsAt: int, busy: seq<Interval>) {
    !exists i :: 0 <= i < |busy| && Overlap(startsAt, endsAt, busy[i].startsAt, busy[i].endsAt)
  }

  function FirstRule(rules: seq<Rule>, weekday: int): Option<Rule> {
    if rules == [] then None
    else if rules[0].weekday == weekday then Some(rules[0])
    else FirstRule(rules[1..], weekday)
  }

  function Opens(rule: Rule, day: int): Parts {
    Parts(day, rule.startHour, rule.startMinute)
  }

  function Closes(rule: Rule, day: int): Parts {
    Parts(day, rule.endHour, rule.endMinute)
  }

  function DayStart(day: int): Parts {
    Parts(day, 0, 0)
  }

  /** The free grid cells from `cursor` on that end by `close`. */
  function FreeCells(cursor: int, step: int, close: int, busy: seq<Interval>): seq<Interval>
    requires step > 0
    decreases close - cursor
  {
    if cursor + step > close then []
    else
      (if IsFree(cursor, cursor + step, busy) then [Interval(cursor, cursor + step)] else [])
      + FreeCells(cursor + step, step, close, busy)
  }

  function SlotsFor(rules: seq<Rule>, minutes: int, day: int, zone: Zone, busy: seq<Interval>): Result<seq<Interval>>
    requires minutes > 0
  {
    match FirstRule(rules, Weekday(day))
    case None => Ok([])
    case Some(rule) =>
      var open := ToUtc(zone, Opens(rule, day));
      var close := ToUtc(zone, Closes(rule, day));
      if open.Err? || close.Err? then Err(Unprocessable)
      else Ok(FreeCells(open.value, minutes * MINUTE, close.value, busy))
  }

  /** No rule is found exactly when there is none for the weekday. */
  lemma {:induction false} NoRuleExactly(rules: seq<Rule>, weekday: int)
    ensures FirstRule(rules, weekday).None? <==> forall i :: 0 <= i < |rules| ==> rules[i].weekday != weekday
  {
    if rules != [] {
      NoRuleExactly(rules[1..], weekday);
      assert forall i :: 0 < i < |rules| ==> rules[i] == rules[1..][i - 1];
    }
  }

  /** The rule found is the first of the weekday, wherever it stands. */
  lemma {:induction false} FirstRuleAt(rules: seq<Rule>, weekday: int, i: nat)
    requires i < |rules| && rules[i].weekday == weekday && forall j :: 0 <= j < i ==> rules[j].weekday != weekday
    ensures FirstRule(rules, weekday) == Some(rules[i])
  {
    if i > 0 {
      assert rules[0].weekday != weekday;
      FirstRuleAt(rules[1..], weekday, i - 1);
    }
  }

  /**
   In increasing order, exactly the cells of this length that start a whole number of lengths after the
   opening, end by the closing, and end before or start after everything busy.
   */
  ghost predicate IsGrid(slots: seq<Interval>, open: int, step: int, close: int, busy: seq<Interval>)
    requires step > 0
  {
    && (forall i, j :: 0 <= i < j < |slots| ==> slots[i].startsAt < slots[j].startsAt)
    && forall slot: Interval :: slot in slots
         <==> && slot.startsAt >= open && (slot.startsAt - open) % step == 0
              && slot.endsAt == slot.startsAt + step && slot.endsAt <= close
              && forall b :: 0 <= b < |busy| ==> busy[b].endsAt <= slot.startsAt || slot.endsAt <= busy[b].startsAt
  }

  /**
   Nothing is open for want of a rule of the weekday; otherwise the first rule of the weekday, wherever it
   stands, opens the grid between its hours and minutes, or the conversion of one of them fails.
   */
  ghost predicate FollowsRules(result: Result<seq<Interval>>, rules: seq<Rule>, minutes: int, day: int, zone: Zone,
                               busy: seq<Interval>)
    requires minutes > 0
  {
    && ((forall i :: 0 <= i < |rules| ==> rules[i].weekday != Weekday(day)) ==> result == Ok([]))
    && forall i :: 0 <= i < |rules| && rules[i].weekday == Weekday(day)
                   && (forall j :: 0 <= j < i ==> rules[j].weekday != Weekday(day)) ==>
         var open := ToUtc(zone, Parts(day, rules[i].startHour, rules[i].startMinute));
         var close := ToUtc(zone, Parts(day, rules[i].endHour, rules[i].endMinute));
         if open.Err? || close.Err? then result == Err(Unprocessable)
         else result.Ok? && IsGrid(result.value, open.value, minutes * 60_000, close.value, busy)
  }

  lemma SlotsFollowRules(rules: seq<Rule>, minutes: int, day: int, zone: Zone, busy: seq<Interval>)
    requires minutes > 0
    ensures FollowsRules(SlotsFor(rules, minutes, day, zone, busy), rules, minutes, day, zone, busy)
  {
    NoRuleExactly(rules, Weekday(day));
    forall i | 0 <= i < |rules| && rules[i].weekday == Weekday(day)
               && (forall j :: 0 <= j < i ==> rules[j].weekday != Weekday(day))
      ensures FirstRule(rules, Weekday(day)) == Some(rules[i])
    {
      FirstRuleAt(rules, Weekday(day), i);
    }
    var rule := FirstRule(rules, Weekday(day));
    if rule.Some? && ToUtc(zone, Opens(rule.value, day)).Ok? && ToUtc(zone, Closes(rule.value, day)).Ok? {
      FreeCellsAreGrid(ToUtc(zone, Opens(rule.value, day)).value, minutes * MINUTE,
                       ToUtc(zone, Closes(rule.value, day)).value, busy);
    }
  }

  method SlotsForResource(rules: seq<Rule>, minutes: int, day: int, zone: Zone, busy: seq<Interval>)
    returns (result: Result<seq<Interval>>)
    requires minutes > 0
    ensures result == SlotsFor(rules, minutes, day, zone, busy)
    ensures FollowsRules(result, rules, minutes, day, zone, busy)
  {
    SlotsFollowRules(rules, minutes, day, zone, busy);
    var rule := FirstRule(rules, Weekday(day));
    if rule.None? {
      return Ok([]);
    }
    var open := ZonedDateTimeToUtc(Some(zone), Some(day), Some(rule.value.startHour), Some(rule.value.startMinute));
    var close := ZonedDateTimeToUtc(Some(zone), Some(day), Some(rule.value.endHour), Some(rule.value.endMinute));
    if open.Err? || close.Err? {
      return Err(Unprocessable);
    }
    var slots := GridSlots(open.value, minutes * MINUTE, close.value, busy);
    return Ok(slots);
  }

  /** The cursor loop of `slotsForResource`. */
  method GridSlots(open: int, step: int, close: int, busy: seq<Interval>) returns (slots: seq<Interval>)
    requires step > 0
    ensures slots == FreeCells(open, step, close, busy)
  {
    slots := [];
    var cursor := open;
    while cursor + step <= close
      invariant slots + FreeCells(cursor, step, close, busy) == FreeCells(open, step, close, busy)
      decreases close - cursor
    {
      if IsFree(cursor, cursor + step, busy) {
        slots := slots + [Interval(cursor, cursor + step)];
      }
      cursor := cursor + step;
    }
    assert slots + [] == slots;
  }

  /** Rows that meet the half-open range, in table order. */
  function Meeting(rows: seq<Occupied>, from: int, to: int): seq<Occupied> {
    if rows == [] then []
    else
      var last := rows[|rows| - 1];
      Meeting(rows[..|rows| - 1], from, to) + (if last.startsAt < to && last.endsAt > from then [last] else [])
  }

  function BusyOf(rows: seq<Occupied>, resource: Id): seq<Interval> {
    if rows == [] then []
    else
      var last := rows[|rows| - 1];
      BusyOf(rows[..|rows| - 1], resource)
      + (if last.resource == resource then [Interval(last.startsAt, last.endsAt)] else [])
  }

  function Wanted(resources: seq<Resource>, resource: Option<Id>): seq<Resource> {
    if resources == [] then []
    else
      var last := resources[|resources| - 1];
      Wanted(resources[..|resources| - 1], resource)
      + (if resource.None? || last.id == resource.value then [last] else [])
  }

  function EachResource(resources: seq<Resource>, rows: seq<Occupied>, minutes: int, day: int, zone: Zone)
    : Result<seq<ResourceSlots>>
    requires minutes > 0
  {
    if resources == [] then Ok([])
    else
      var last := resources[|resources| - 1];
      var earlier := EachResource(resources[..|resources| - 1], rows, minutes, day, zone);
      var slots := SlotsFor(last.rules, minutes, day, zone, BusyOf(rows, last.id));
      if earlier.Err? then earlier
      else if slots.Err? then Err(slots.error)
      else Ok(earlier.value + [ResourceSlots(last.id, slots.value)])
  }

  function ComputedSlots(calendar: Calendar, resource: Option<Id>, minutes: int, day: int, zone: Zone)
    : Result<seq<ResourceSlots>>
    requires minutes > 0
  {
    var from := ToUtc(zone, DayStart(day));
    var to := ToUtc(zone, DayStart(day + 1));
    if from.Err? || to.Err? then Err(Unprocessable)
    else
      EachResource(Wanted(calendar.resources, resource),
                   Meeting(calendar.appointments, from.value, to.value)
                   + Meeting(calendar.exceptions, from.value, to.value),
                   minutes, day, zone)
  }

  function BusyIn(busy: map<Id, seq<Interval>>, resource: Id): seq<Interval> {
    if resource in busy then busy[resource] else []
  }

  /** Groups rows by resource, appending each to its resource's list. */
  method GroupByResource(rows: seq<Occupied>) returns (busy: map<Id, seq<Interval>>)
    ensures forall resource :: BusyIn(busy, resource) == BusyOf(rows, resource)
  {
    busy := map[];
    for i := 0 to |rows|
      invariant forall resource :: BusyIn(busy, resource) == BusyOf(rows[..i], resource)
    {
      assert rows[..i + 1][..i] == rows[..i];
      var row := rows[i];
      busy := busy[row.resource := BusyIn(busy, row.resource) + [Interval(row.startsAt, row.endsAt)]];
    }
    assert rows[..|rows|] == rows;
  }

  /** The loop over resources; the first conversion that fails ends it. */
  method SlotsOfEach(resources: seq<Resource>, rows: seq<Occupied>, minutes: int, day: int, zone: Zone)
    returns (result: Result<seq<ResourceSlots>>)
    requires minutes > 0
    ensures result == EachResource(resources, rows, minutes, day, zone)
  {
    var busy := GroupByResource(rows);
    var results := [];
    for i := 0 to |resources|
      invariant EachResource(resources[..i], rows, minutes, day, zone) == Ok(results)
    {
      assert resources[..i + 1][..i] == resources[..i];
      var resource := resources[i];
      var slots := SlotsForResource(resource.rules, minutes, day, zone, BusyIn(busy, resource.id));
      if slots.Err? {
        ErrorStays(resources, i + 1, rows, minutes, day, zone);
        return Err(slots.error);
      }
      results := results + [ResourceSlots(resource.id, slots.value)];
    }
    assert resources[..|resources|] == resources;
    return Ok(results);
  }

  method ComputeSlots(calendar: Calendar, resource: Option<Id>, minutes: int, day: int, zone: Zone)
    returns (result: Result<seq<ResourceSlots>>)
    requires minutes > 0
    ensures result == ComputedSlots(calendar, resource, minutes, day, zone)
    ensures ToUtc(zone, Parts(day, 0, 0)).Err? || ToUtc(zone, Parts(day + 1, 0, 0)).Err? ==> result == Err(Unprocessable)
  {
    var from := ZonedDateTimeToUtc(Some(zone), Some(day), Some(0), Some(0));
    var to := ZonedDateTimeToUtc(Some(zone), Some(day + 1), Some(0), Some(0));
    assert from == ToUtc(zone, DayStart(day)) && to == ToUtc(zone, DayStart(day + 1));
    if from.Err? || to.Err? {
      return Err(Unprocessable);
    }
    var rows := Meeting(calendar.appointments, from.value, to.value)
                + Meeting(calendar.exceptions, from.value, to.value);
    result := SlotsOfEach(Wanted(calendar.resources, resource), rows, minutes, day, zone);
  }

  lemma {:induction false} ErrorStays(resources: seq<Resource>, i: nat, rows: seq<Occupied>, minutes: int, day: int,
                                      zone: Zone)
    requires minutes > 0 && i <= |resources| && EachResource(resources[..i], rows, minutes, day, zone).Err?
    ensures EachResource(resources, rows, minutes, day, zone) == EachResource(resources[..i], rows, minutes, day, zone)
    decreases |resources|
  {
    if i < |resources| {
      var shorter := resources[..|resources| - 1];
      assert shorter[..i] == resources[..i];
      ErrorStays(shorter, i, rows, minutes, day, zone);
    } else {
      assert resources[..i] == resources;
    }
  }

  // ---------------------------------------------------------------------------------------------
  // The grid
  // ---------------------------------------------------------------------------------------------

  function Cell(open: int, step: int, k: nat): Interval {
    Interval(open + k * step, open + (k + 1) * step)
  }

  ghost predicate GridCell(open: int, step: int, close: int, slot: Interval) {
    slot.endsAt <= close && exists k: nat :: slot == Cell(open, step, k)
  }

  lemma CellShifts(open: int, step: int, k: nat)
    ensures Cell(open, step, k + 1) == Cell(open + step, step, k)
  {
  }

  /** The free cells are exactly the grid cells inside the window that overlap nothing busy. */
  lemma {:induction false} FreeCellsExact(open: int, step: int, close: int, busy: seq<Interval>, slot: Interval)
    requires step > 0
    ensures slot in FreeCells(open, step, close, busy)
            <==> GridCell(open, step, close, slot) && IsFree(slot.startsAt, slot.endsAt, busy)
    decreases close - open
  {
    if open + step > close {
      forall k: nat | slot == Cell(open, step, k) ensures slot.endsAt > close {
        assert k * step >= 0;
        assert (k + 1) * step == k * step + step;
      }
    } else {
      FreeCellsExact(open + step, step, close, busy, slot);
      assert Cell(open, step, 0) == Interval(open, open + step);
      if GridCell(open, step, close, slot) && slot != Cell(open, step, 0) {
        var k: nat :| slot == Cell(open, step, k);
        CellShifts(open, step, k - 1);
      }
      if GridCell(open + step, step, close, slot) {
        var k: nat :| slot == Cell(open + step, step, k);
        CellShifts(open, step, k);
      }
    }
  }

  predicate ApartFrom(cells: seq<Interval>, open: int, close: int) {
    && (forall i :: 0 <= i < |cells| ==> open <= cells[i].startsAt < cells[i].endsAt <= close)
    && (forall i, j :: 0 <= i < j < |cells| ==> cells[i].endsAt <= cells[j].startsAt)
  }

  lemma PrependApart(cell: Interval, cells: seq<Interval>, open: int, close: int)
    requires open <= cell.startsAt < cell.endsAt <= close && ApartFrom(cells, cell.endsAt, close)
    ensures ApartFrom([cell] + cells, open, close)
  {
    var all := [cell] + cells;
    forall i, j | 0 <= i < j < |all| ensures all[i].endsAt <= all[j].startsAt {
      assert all[j] == cells[j - 1];
      if i > 0 {
        assert all[i] == cells[i - 1];
      }
    }
  }

  lemma StepApart(free: bool, open: int, step: int, close: int, cells: seq<Interval>, rest: seq<Interval>)
    requires step > 0 && open + step <= close && ApartFrom(rest, open + step, close)
    requires cells == if free then [Interval(open, open + step)] + rest else rest
    ensures ApartFrom(cells, open, close)
  {
    if free {
      PrependApart(Interval(open, open + step), rest, open, close);
    }
  }

  /** They come in increasing order and never overlap one another. */
  lemma {:induction false} FreeCellsApart(open: int, step: int, close: int, busy: seq<Interval>)
    requires step > 0
    ensures ApartFrom(FreeCells(open, step, close, busy), open, close)
    decreases close - open
  {
    if open + step <= close {
      FreeCellsApart(open + step, step, close, busy);
      StepApart(IsFree(open, open + step, busy), open, step, close,
                FreeCells(open, step, close, busy), FreeCells(open + step, step, close, busy));
    }
  }

  lemma MultiplesOf(step: int, k: int)
    requires step > 0
    ensures (k * step) % step == 0
  {
    QuotientUnique(k * step, step, k, 0);
  }

  /** A cell of the grid, by its start and its length. */
  lemma GridCellExactly(open: int, step: int, close: int, slot: Interval)
    requires step > 0
    ensures GridCell(open, step, close, slot)
            <==> && slot.startsAt >= open && (slot.startsAt - open) % step == 0
                 && slot.endsAt == slot.startsAt + step && slot.endsAt <= close
  {
    if k: nat :| slot == Cell(open, step, k) {
      MultiplesOf(step, k);
      assert k * step >= 0 && (k + 1) * step == k * step + step;
    }
    if slot.startsAt >= open && (slot.startsAt - open) % step == 0 && slot.endsAt == slot.startsAt + step {
      var k := (slot.startsAt - open) / step;
      assert k >= 0 && slot.startsAt - open == k * step;
      assert (k + 1) * step == k * step + step;
      assert slot == Cell(open, step, k);
    }
  }

  lemma FreeCellsAreGrid(open: int, step: int, close: int, busy: seq<Interval>)
    requires step > 0
    ensures IsGrid(FreeCells(open, step, close, busy), open, step, close, busy)
  {
    FreeCellsApart(open, step, close, busy);
    forall slot: Interval
      ensures slot in FreeCells(open, step, close, busy)
              <==> GridCell(open, step, close, slot) && IsFree(slot.startsAt, slot.endsAt, busy)
      ensures GridCell(open, step, close, slot)
              <==> && slot.startsAt >= open && (slot.startsAt - open) % step == 0
                   && slot.endsAt == slot.startsAt + step && slot.endsAt <= close
      ensures IsFree(slot.startsAt, slot.endsAt, busy)
              <==> forall b :: 0 <= b < |busy| ==> busy[b].endsAt <= slot.startsAt || slot.endsAt <= busy[b].startsAt
    {
      FreeCellsExact(open, step, close, busy, slot);
      GridCellExactly(open, step, close, slot);
      FreeExactly(slot.startsAt, slot.endsAt, busy);
    }
  }

  /** Free is to end before or start after each busy interval; touching one is no overlap. */
  lemma FreeExactly(startsAt: int, endsAt: int, busy: seq<Interval>)
    ensures IsFree(startsAt, endsAt, busy)
            <==> forall b :: 0 <= b < |busy| ==> busy[b].endsAt <= startsAt || endsAt <= busy[b].startsAt
  {
  }

  predicate AnswerOf(slots: ResourceSlots, resource: Resource, rows: seq<Occupied>, minutes: int, day: int, zone: Zone)
    requires minutes > 0
  {
    slots.resource == resource.id && Ok(slots.slots) == SlotsFor(resource.rules, minutes, day, zone, BusyOf(rows, resource.id))
  }

  predicate FailsAt(resource: Resource, rows: seq<Occupied>, minutes: int, day: int, zone: Zone)
    requires minutes > 0
  {
    SlotsFor(resource.rules, minutes, day, zone, BusyOf(rows, resource.id)).Err?
  }

  /** An answer fails exactly if one of the resources fails. */
  lemma {:induction false} FailsExactly(resources: seq<Resource>, rows: seq<Occupied>, minutes: int, day: int, zone: Zone)
    requires minutes > 0
    ensures EachResource(resources, rows, minutes, day, zone).Err?
            <==> exists r :: r in resources && FailsAt(r, rows, minutes, day, zone)
  {
    if resources != [] {
      var n := |resources| - 1;
      FailsExactly(resources[..n], rows, minutes, day, zone);
      AnswersLast(resources, rows, minutes, day, zone);
      assert resources == resources[..n] + [resources[n]];
      assert resources[n] in resources && forall r :: r in resources[..n] ==> r in resources;
      assert EachResource(resources, rows, minutes, day, zone).Err?
        <==> EachResource(resources[..n], rows, minutes, day, zone).Err? || FailsAt(resources[n], rows, minutes, day, zone);
    }
  }

  /** Otherwise it lists every resource, in order, with its own slots. */
  lemma {:induction false} AnswersExactly(resources: seq<Resource>, rows: seq<Occupied>, minutes: int, day: int, zone: Zone,
                                          i: nat)
    requires minutes > 0 && i < |resources| && EachResource(resources, rows, minutes, day, zone).Ok?
    ensures var answer := EachResource(resources, rows, minutes, day, zone).value;
            |answer| == |resources| && AnswerOf(answer[i], resources[i], rows, minutes, day, zone)
  {
    var n := |resources| - 1;
    AnswersLast(resources, rows, minutes, day, zone);
    if i < n {
      AnswersExactly(resources[..n], rows, minutes, day, zone, i);
    } else if n > 0 {
      AnswersExactly(resources[..n], rows, minutes, day, zone, 0);
    }
  }

  lemma AnswersLast(resources: seq<Resource>, rows: seq<Occupied>, minutes: int, day: int, zone: Zone)
    requires minutes > 0 && resources != []
    ensures var n := |resources| - 1;
            var earlier := EachResource(resources[..n], rows, minutes, day, zone);
            var last := SlotsFor(resources[n].rules, minutes, day, zone, BusyOf(rows, resources[n].id));
            var answer := EachResource(resources, rows, minutes, day, zone);
            && (answer.Err? <==> earlier.Err? || last.Err?)
            && (answer.Ok? ==> answer.value == earlier.value + [ResourceSlots(resources[n].id, last.value)])
  {
  }
}
