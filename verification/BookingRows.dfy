/**
 What the appointment calls write, column by column and in plain milliseconds.
 */
module BookingRows {
  import opened Outcomes
  import opened LocalTime
  import opened ZoneConversion
  import opened Availability
  import opened SlotGuarantees
  import opened Recurrence
  import opened Bookings
  import opened AppointmentEngine
  import opened BookingGuarantees
  import opened BookingConflicts

  /** The constraint: a row no longer than nothing is an error, one over a booked or confirmed row a conflict. */
  lemma InsertExactly(t: Tables, row: Appointment)
    ensures row.endsAt <= row.startsAt ==> Insert(t, row) == Err(Internal)
    ensures row.startsAt < row.endsAt ==>
              if exists i :: && 0 <= i < |t.appointments|
                             && (t.appointments[i].status == Booked || t.appointments[i].status == Confirmed)
                             && t.appointments[i].resource == row.resource
                             && t.appointments[i].startsAt < row.endsAt && row.startsAt < t.appointments[i].endsAt
              then Insert(t, row) == Err(Conflict)
              else Insert(t, row) == Ok(t.(appointments := t.appointments + [row]))
  {
    if row.startsAt < row.endsAt {
      if i :| && 0 <= i < |t.appointments|
              && (t.appointments[i].status == Booked || t.appointments[i].status == Confirmed)
              && t.appointments[i].resource == row.resource
              && t.appointments[i].startsAt < row.endsAt && row.startsAt < t.appointments[i].endsAt
      {
        assert Active(t.appointments[i]) && Clash(t.appointments[i], row);
      }
    }
  }

  /** The rows a day's availability counts for a branch: its rows of any status but cancelled. */
  lemma {:induction false} BlockingExactly(appointments: seq<Appointment>, branch: Id, o: Occupied)
    ensures o in Blocking(appointments, branch)
            <==> exists i :: && 0 <= i < |appointments|
                             && appointments[i].branch == branch && appointments[i].status != Cancelled
                             && o == Occupied(appointments[i].resource, appointments[i].startsAt, appointments[i].endsAt)
  {
    if appointments != [] {
      var n := |appointments| - 1;
      BlockingExactly(appointments[..n], branch, o);
      assert forall i :: 0 <= i < n ==> appointments[..n][i] == appointments[i];
    }
  }

  /** The columns of a row booked for a request: who, what, where, when, how long, and its place in a series. */
  predicate BookedFor(a: Appointment, branch: Id, r: Request, minutes: Minutes, startsAt: int, parent: Option<nat>) {
    && a.branch == branch && a.resource == r.resource
    && a.contact == r.contact && a.service == r.service && a.timezone == r.timezone
    && a.startsAt == startsAt && a.endsAt == startsAt + minutes * 60_000
    && a.status == Booked && a.rescheduledFrom == None && a.recurrenceParent == parent
  }

  /** The distance of two occurrences. */
  function Spacing(rule: RecurrenceRule): int {
    (if rule.frequency.Daily? then 86_400_000 else 604_800_000)
    * (if rule.interval.Some? then rule.interval.value else 1)
  }

  lemma SpacingIsStep(rule: RecurrenceRule)
    ensures StepMs(rule) == Spacing(rule)
  {
    var interval := if rule.interval.Some? then rule.interval.value else 1;
    assert DAY == 86_400_000 && 7 * DAY == 604_800_000;
    assert StepMs(rule) == (if rule.frequency.Daily? then DAY else 7 * DAY) * interval;
  }

  lemma ChildStartsSpaced(r: Request)
    ensures r.recurrence.None? ==> ChildStarts(r) == []
    ensures r.recurrence.Some? ==>
              forall k :: 0 <= k < |ChildStarts(r)| ==>
                ChildStarts(r)[k] == r.startsAt + (k + 1) * Spacing(r.recurrence.value)
  {
    if r.recurrence.Some? {
      var rule := r.recurrence.value;
      ExpansionHolds(rule, r.startsAt);
      SpacingIsStep(rule);
      var all := OccurrencesFrom(rule, r.startsAt, 0);
      forall k | 0 <= k < |ChildStarts(r)| ensures ChildStarts(r)[k] == r.startsAt + (k + 1) * Spacing(rule) {
        assert ChildStarts(r)[k] == all[k + 1] && all[k + 1] == Nth(rule, r.startsAt, k + 1);
      }
    }
  }

  lemma NewRowFields(branch: Id, r: Request, minutes: Minutes)
    ensures BookedFor(NewRow(branch, r, minutes), branch, r, minutes, r.startsAt, None)
  {
  }

  lemma ChildRowFields(branch: Id, r: Request, minutes: Minutes, id: nat, startsAt: int)
    ensures BookedFor(ChildRow(NewRow(branch, r, minutes), id, startsAt, minutes), branch, r, minutes, startsAt, Some(id))
  {
  }

  lemma SeriesRows(branch: Id, r: Request, minutes: Minutes, id: nat, k: nat)
    requires k < |ChildStarts(r)|
    ensures r.recurrence.Some?
    ensures var children := Children(NewRow(branch, r, minutes), id, minutes, ChildStarts(r));
            && |children| == |ChildStarts(r)|
            && BookedFor(children[k], branch, r, minutes, r.startsAt + (k + 1) * Spacing(r.recurrence.value), Some(id))
  {
    ChildStartsSpaced(r);
    ChildRowFields(branch, r, minutes, id, ChildStarts(r)[k]);
  }

  /** After a booking succeeds the table holds its old rows and then the row of the request. */
  lemma BookedFields(t: Tables, branch: Id, r: Request, now: int, zones: Zones)
    requires r.service in t.durations && BookCall(t, branch, r, now, zones).1.Ok?
    ensures var after, n := BookCall(t, branch, r, now, zones).0.appointments, |t.appointments|;
            && BookCall(t, branch, r, now, zones).1.value == n
            && n < |after| && t.appointments == after[..n]
            && BookedFor(after[n], branch, r, t.durations[r.service], r.startsAt, None)
  {
    var row := NewRow(branch, r, t.durations[r.service]);
    BookedExactly(t, branch, r, now, zones);
    NewRowFields(branch, r, t.durations[r.service]);
    var after := BookCall(t, branch, r, now, zones).0.appointments;
    var children := Children(row, |t.appointments|, t.durations[r.service], ChildStarts(r));
    assert after == t.appointments + ([row] + children);
  }

  /**
   Any row after that is an occurrence of its series: the same but for its own start, which is a whole number
   of days or weeks later, and its link to the first row.
   */
  lemma BookedSeries(t: Tables, branch: Id, r: Request, now: int, zones: Zones, k: nat)
    requires r.service in t.durations && BookCall(t, branch, r, now, zones).1.Ok?
    requires |t.appointments| < k < |BookCall(t, branch, r, now, zones).0.appointments|
    ensures r.recurrence.Some?
    ensures var after, n := BookCall(t, branch, r, now, zones).0.appointments, |t.appointments|;
            BookedFor(after[k], branch, r, t.durations[r.service], r.startsAt + (k - n) * Spacing(r.recurrence.value),
                      Some(n))
  {
    var row, n := NewRow(branch, r, t.durations[r.service]), |t.appointments|;
    BookedExactly(t, branch, r, now, zones);
    var after := BookCall(t, branch, r, now, zones).0.appointments;
    var children := Children(row, n, t.durations[r.service], ChildStarts(r));
    assert after == (t.appointments + [row]) + children;
    assert after[k] == children[k - n - 1];
    SeriesRows(branch, r, t.durations[r.service], n, k - n - 1);
  }

  /** And only where the branch has the resource. */
  lemma BookedInBranch(t: Tables, branch: Id, r: Request, now: int, zones: Zones)
    requires r.service in t.durations && BookCall(t, branch, r, now, zones).1.Ok?
    ensures exists q :: q in t.resources && q.id == r.resource && q.branch == branch
  {
    BookedExactly(t, branch, r, now, zones);
    VerdictFindsResource(t, branch, r.resource, t.durations[r.service], r.startsAt, zones(r.timezone));
    var k :| 0 <= k < |t.resources| && t.resources[k].id == r.resource && t.resources[k].branch == branch;
    assert t.resources[k] in t.resources;
  }

  /** When a booking is refused before it writes anything. */
  lemma BookRefused(t: Tables, branch: Id, r: Request, now: int, zones: Zones)
    ensures r.service !in t.durations ==> BookCall(t, branch, r, now, zones) == (t, Err(NotFound))
    ensures r.service in t.durations
            && FreeVerdict(t, branch, r.resource, t.durations[r.service], r.startsAt, zones(r.timezone)) == Ok(false) ==>
              BookCall(t, branch, r, now, zones) == (t, Err(Conflict))
    ensures r.service in t.durations
            && FreeVerdict(t, branch, r.resource, t.durations[r.service], r.startsAt, zones(r.timezone)).Err? ==>
              BookCall(t, branch, r, now, zones).0 == t && BookCall(t, branch, r, now, zones).1.Err?
  {
  }

  /** The columns of the row a reschedule adds: the original's contact, service, resource and zone at the new time. */
  predicate MovedFrom(row: Appointment, a: Appointment, id: nat, branch: Id, minutes: Minutes, startsAt: int) {
    && row.branch == branch && row.contact == a.contact && row.service == a.service
    && row.resource == a.resource && row.timezone == a.timezone
    && row.startsAt == startsAt && row.endsAt == startsAt + minutes * 60_000
    && row.status == Booked && row.rescheduledFrom == Some(id) && row.recurrenceParent == None
  }

  lemma ReplacementMoved(a: Appointment, id: nat, branch: Id, minutes: Minutes, startsAt: int)
    ensures MovedFrom(Replacement(a, branch, startsAt, minutes).(rescheduledFrom := Some(id)), a, id, branch, minutes,
                      startsAt)
  {
  }

  lemma ReplacedRows(before: seq<Appointment>, id: nat, marked: Appointment, row: Appointment, after: seq<Appointment>)
    requires id < |before| && after == before[id := marked] + [row]
    ensures |after| == |before| + 1 && after[|before|] == row && after[id] == marked
    ensures forall i :: 0 <= i < |before| && i != id ==> after[i] == before[i]
  {
  }

  /** A finished reschedule adds one row at the new time, marks the original and leaves every other row. */
  lemma RescheduledFields(t: Tables, branch: Id, id: nat, startsAt: int, now: int, zones: Zones)
    requires id < |t.appointments| && RescheduleCall(t, branch, id, startsAt, now, zones).1.Ok?
    ensures var a, n := t.appointments[id], |t.appointments|;
            var (after, result) := RescheduleCall(t, branch, id, startsAt, now, zones);
            && result.value == n && |after.appointments| == n + 1 && a.service in t.durations
            && MovedFrom(after.appointments[n], a, id, branch, t.durations[a.service], startsAt)
            && after.appointments[id] == a.(status := Rescheduled)
            && forall i :: 0 <= i < n && i != id ==> after.appointments[i] == t.appointments[i]
  {
    RescheduledExactly(t, branch, id, startsAt, now, zones);
    var a := t.appointments[id];
    var row := Replacement(a, branch, startsAt, t.durations[a.service]).(rescheduledFrom := Some(id));
    ReplacementMoved(a, id, branch, t.durations[a.service], startsAt);
    ReplacedRows(t.appointments, id, a.(status := Rescheduled), row,
                 RescheduleCall(t, branch, id, startsAt, now, zones).0.appointments);
  }

  /** When a reschedule is refused before it writes anything. */
  lemma RescheduleRefused(t: Tables, branch: Id, id: nat, startsAt: int, now: int, zones: Zones)
    ensures id >= |t.appointments| ==> RescheduleCall(t, branch, id, startsAt, now, zones) == (t, Err(NotFound))
    ensures id < |t.appointments| && t.appointments[id].status == Cancelled ==>
              RescheduleCall(t, branch, id, startsAt, now, zones) == (t, Err(Conflict))
    ensures id < |t.appointments| && t.appointments[id].status != Cancelled
            && t.appointments[id].service in t.durations
            && FreeVerdict(t, branch, t.appointments[id].resource, t.durations[t.appointments[id].service], startsAt,
                           zones(t.appointments[id].timezone)) == Ok(false) ==>
              RescheduleCall(t, branch, id, startsAt, now, zones) == (t, Err(Conflict))
  {
  }

  /** The link back to the original is unique: a second one to the same original is an error, and nothing is linked. */
  lemma LinkedExactly(t: Tables, id: nat, original: nat)
    requires id < |t.appointments|
    ensures if exists i :: 0 <= i < |t.appointments| && i != id && t.appointments[i].rescheduledFrom == Some(original)
            then Link(t, id, original) == Err(Internal)
            else Link(t, id, original)
                 == Ok(t.(appointments := t.appointments[id := t.appointments[id].(rescheduledFrom := Some(original))]))
  {
  }

  /** A cancellation of any row: refused if there is none or it is cancelled already, and otherwise exact. */
  lemma CancelledExactly(t: Tables, id: nat)
    ensures id >= |t.appointments| ==> CancelCall(t, id) == (t, Err(NotFound))
    ensures id < |t.appointments| && t.appointments[id].status == Cancelled ==> CancelCall(t, id) == (t, Err(Conflict))
    ensures id < |t.appointments| && t.appointments[id].status != Cancelled ==>
              var (after, result) := CancelCall(t, id);
              && result == Ok(())
              && after == t.(appointments := after.appointments, reminders := after.reminders)
              && after.appointments == t.appointments[id := t.appointments[id].(status := Cancelled)]
              && |after.reminders| == |t.reminders|
              && forall k :: 0 <= k < |t.reminders| ==>
                   after.reminders[k]
                   == if t.reminders[k].appointment == id && t.reminders[k].status == Scheduled
                      then t.reminders[k].(status := Dropped) else t.reminders[k]
  {
  }

  /** A delivery settles one scheduled reminder as sent or failed, and touches nothing else. */
  lemma DeliveredExactly(t: Tables, reminder: nat, delivered: bool)
    ensures var after := SetReminderStatus(t, reminder, delivered);
            && after == t.(reminders := after.reminders) && |after.reminders| == |t.reminders|
            && forall k :: 0 <= k < |t.reminders| ==>
                 after.reminders[k]
                 == if k == reminder && t.reminders[k].status == Scheduled
                    then Reminder(t.reminders[k].appointment, t.reminders[k].sendAt, if delivered then Sent else Failed)
                    else t.reminders[k]
  {
  }

  /** Reminders a day and an hour ahead, each exactly when its moment is still to come. */
  lemma RemindedAt(id: nat, startsAt: int, now: int)
    ensures NewReminders(id, startsAt, now)
            == (if startsAt - 86_400_000 > now then [Reminder(id, startsAt - 86_400_000, Scheduled)] else [])
             + (if startsAt - 3_600_000 > now then [Reminder(id, startsAt - 3_600_000, Scheduled)] else [])
  {
  }

  /** The invariant of the calls, spelled out. */
  lemma HealthyMeans(t: Tables)
    requires Healthy(t)
    ensures forall i, j :: && 0 <= i < j < |t.appointments|
                           && (t.appointments[i].status == Booked || t.appointments[i].status == Confirmed)
                           && (t.appointments[j].status == Booked || t.appointments[j].status == Confirmed)
                           && t.appointments[i].resource == t.appointments[j].resource ==>
              t.appointments[i].endsAt <= t.appointments[j].startsAt || t.appointments[j].endsAt <= t.appointments[i].startsAt
    ensures forall k :: 0 <= k < |t.reminders| && t.reminders[k].status == Scheduled ==>
              && t.reminders[k].appointment < |t.appointments|
              && t.appointments[t.reminders[k].appointment].status != Cancelled
              && t.appointments[t.reminders[k].appointment].status != Rescheduled
  {
    forall i, j | && 0 <= i < j < |t.appointments|
                  && (t.appointments[i].status == Booked || t.appointments[i].status == Confirmed)
                  && (t.appointments[j].status == Booked || t.appointments[j].status == Confirmed)
                  && t.appointments[i].resource == t.appointments[j].resource
      ensures t.appointments[i].endsAt <= t.appointments[j].startsAt || t.appointments[j].endsAt <= t.appointments[i].startsAt
    {
      assert !Clash(t.appointments[i], t.appointments[j]);
    }
  }

  /** Its third part: every row is in the branch of a resource it names. */
  lemma HealthyBranches(t: Tables, i: nat)
    requires Healthy(t) && i < |t.appointments|
    ensures exists q :: && 0 <= q < |t.resources| && t.resources[q].id == t.appointments[i].resource
                        && t.resources[q].branch == t.appointments[i].branch
  {
    assert HasResource(t, t.appointments[i].resource, t.appointments[i].branch);
  }

  /** An open cell of a day, spelled out for the first rule of its weekday; without one there is none. */
  lemma OpenCellExactly(rules: seq<Rule>, minutes: Minutes, day: int, zone: Zone, slot: Interval)
    ensures (forall i :: 0 <= i < |rules| ==> rules[i].weekday != Weekday(day)) ==>
              !OpenCell(rules, minutes, day, zone, slot)
    ensures forall i :: (0 <= i < |rules| && rules[i].weekday == Weekday(day)
                         && forall j :: 0 <= j < i ==> rules[j].weekday != Weekday(day)) ==>
              (OpenCell(rules, minutes, day, zone, slot) <==> InOpening(rules[i], minutes, day, zone, slot))
  {
    NoRuleExactly(rules, Weekday(day));
    forall i | 0 <= i < |rules| && rules[i].weekday == Weekday(day)
               && forall j :: 0 <= j < i ==> rules[j].weekday != Weekday(day)
      ensures OpenCell(rules, minutes, day, zone, slot) <==> InOpening(rules[i], minutes, day, zone, slot)
    {
      FirstRuleAt(rules, Weekday(day), i);
      var open := ToUtc(zone, Opens(rules[i], day));
      var close := ToUtc(zone, Closes(rules[i], day));
      if open.Ok? && close.Ok? {
        GridCellExactly(open.value, minutes * MINUTE, close.value, slot);
      }
    }
  }

  /** A slot a whole number of its own lengths after the opening of a day that ends by the closing. */
  predicate InOpening(rule: Rule, minutes: Minutes, day: int, zone: Zone, slot: Interval) {
    && ToUtc(zone, Parts(day, 0, 0)).Ok? && ToUtc(zone, Parts(day + 1, 0, 0)).Ok?
    && var open := ToUtc(zone, Parts(day, rule.startHour, rule.startMinute));
       var close := ToUtc(zone, Parts(day, rule.endHour, rule.endMinute));
       && open.Ok? && close.Ok?
       && slot.startsAt >= open.value && (slot.startsAt - open.value) % (minutes * 60_000) == 0
       && slot.endsAt == slot.startsAt + minutes * 60_000 && slot.endsAt <= close.value
  }

  /** No row of the resource that is not cancelled, and no exception of it, overlaps the interval. */
  ghost predicate NothingOver(t: Tables, branch: Id, resource: Id, startsAt: int, endsAt: int) {
    && (forall i :: && 0 <= i < |t.appointments| && t.appointments[i].branch == branch
                    && t.appointments[i].resource == resource && t.appointments[i].status != Cancelled ==>
          t.appointments[i].endsAt <= startsAt || endsAt <= t.appointments[i].startsAt)
    && forall i :: 0 <= i < |t.exceptions| && t.exceptions[i].resource == resource ==>
         t.exceptions[i].endsAt <= startsAt || endsAt <= t.exceptions[i].startsAt
  }

  lemma RowFreeExactly(t: Tables, branch: Id, resource: Id, startsAt: int, endsAt: int)
    ensures var calendar := CalendarOf(t, branch);
            RowFree(calendar.appointments + calendar.exceptions, resource, startsAt, endsAt)
            <==> NothingOver(t, branch, resource, startsAt, endsAt)
  {
    var calendar := CalendarOf(t, branch);
    var rows := calendar.appointments + calendar.exceptions;
    if RowFree(rows, resource, startsAt, endsAt) {
      forall i | && 0 <= i < |t.appointments| && t.appointments[i].branch == branch
                 && t.appointments[i].resource == resource && t.appointments[i].status != Cancelled
        ensures t.appointments[i].endsAt <= startsAt || endsAt <= t.appointments[i].startsAt
      {
        BlockingExact(t.appointments, branch, i);
        assert Occupied(resource, t.appointments[i].startsAt, t.appointments[i].endsAt) in rows;
      }
      forall i | 0 <= i < |t.exceptions| && t.exceptions[i].resource == resource
        ensures t.exceptions[i].endsAt <= startsAt || endsAt <= t.exceptions[i].startsAt
      {
        assert t.exceptions[i] in rows;
      }
    }
    if NothingOver(t, branch, resource, startsAt, endsAt) {
      forall row | row in rows && row.resource == resource ensures !Overlap(startsAt, endsAt, row.startsAt, row.endsAt) {
        BlockingExactly(t.appointments, branch, row);
      }
    }
  }

  /**
   The availability check passes exactly for a cell of the opening hours of the start's local day that
   overlaps nothing of its resource.
   */
  lemma VerdictExactly(t: Tables, branch: Id, owner: Resource, minutes: Minutes, zone: Zone, change: Change, startsAt: int)
    requires Ordinary(t, branch, zone, change, LocalDate(zone, startsAt)) && owner in t.resources && owner.branch == branch
    ensures FreeVerdict(t, branch, owner.id, minutes, startsAt, zone) == Ok(true)
            <==> && OpenCell(owner.rules, minutes, LocalDate(zone, startsAt), zone,
                             Interval(startsAt, startsAt + minutes * 60_000))
                 && NothingOver(t, branch, owner.id, startsAt, startsAt + minutes * 60_000)
  {
    var calendar := CalendarOf(t, branch);
    var slot := Interval(startsAt, startsAt + minutes * 60_000);
    InBranchExact(t.resources, branch, owner);
    RowFreeExactly(t, branch, owner.id, startsAt, slot.endsAt);
    if RowFree(calendar.appointments + calendar.exceptions, owner.id, startsAt, slot.endsAt) {
      FreeVerdictExactly(t, branch, owner, minutes, zone, slot);
    } else if FreeVerdict(t, branch, owner.id, minutes, startsAt, zone) == Ok(true) {
      var found := VerdictSlot(t, branch, owner.id, minutes, startsAt, zone);
      OfferedIsFree(calendar, Some(owner.id), minutes, LocalDate(zone, startsAt), zone, change, owner.id, found);
    }
  }
}
