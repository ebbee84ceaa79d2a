/**
 Where availability and the exclusion constraint agree, and where they do not.

 A free verdict is never refused by the database and an offered slot can be booked. But the
 constraint ignores rescheduled, completed and no-show rows that availability counts as busy, so a
 series, whose children are not checked, can land on one.
 */
module BookingConflicts {
  import opened Outcomes
  import opened LocalTime
  import opened ZoneConversion
  import opened Availability
  import opened SlotGuarantees
  import opened Recurrence
  import opened Bookings
  import opened AppointmentEngine
  import opened BookingGuarantees

  /** What the theorems ask of the data: unique resources, clock-time rules, an ordinary local day. */
  ghost predicate Ordinary(t: Tables, branch: Id, zone: Zone, change: Change, day: int) {
    && ResourceKeys(t)
    && ClockResources(CalendarOf(t, branch))
    && OrdinaryDay(zone, change, day)
  }

  lemma SameBranch(t: Tables, resource: Id, b: Id, c: Id)
    requires ResourceKeys(t) && HasResource(t, resource, b) && HasResource(t, resource, c)
    ensures b == c
  {
  }

  /** A row on an offered slot overlaps no row of its resource that is not cancelled. */
  lemma OfferedMeansApart(t: Tables, branch: Id, wanted: Option<Id>, minutes: Minutes, day: int, zone: Zone,
                          change: Change, slot: Interval, row: Appointment)
    requires BranchesAgree(t) && Ordinary(t, branch, zone, change, day)
    requires ComputedSlots(CalendarOf(t, branch), wanted, minutes, day, zone).Ok?
    requires Offered(ComputedSlots(CalendarOf(t, branch), wanted, minutes, day, zone).value, row.resource, slot)
    requires row.startsAt == slot.startsAt && row.endsAt == row.startsAt + minutes * MINUTE
    ensures forall i :: 0 <= i < |t.appointments| && t.appointments[i].status != Cancelled ==>
              !Clash(t.appointments[i], row)
  {
    var calendar := CalendarOf(t, branch);
    OfferedIsFree(calendar, wanted, minutes, day, zone, change, row.resource, slot);
    var owner :| owner in calendar.resources && owner.id == row.resource;
    InBranchExact(t.resources, branch, owner);
    assert HasResource(t, row.resource, branch);
    forall i | 0 <= i < |t.appointments| && t.appointments[i].status != Cancelled
      ensures !Clash(t.appointments[i], row)
    {
      if t.appointments[i].resource == row.resource {
        assert HasResource(t, t.appointments[i].resource, t.appointments[i].branch);
        SameBranch(t, row.resource, branch, t.appointments[i].branch);
        BlockingExact(t.appointments, branch, i);
      }
    }
  }

  /** After a free verdict the new row overlaps no row of its resource that is not cancelled. */
  lemma FreeMeansApart(t: Tables, branch: Id, resource: Id, minutes: Minutes, startsAt: int, zone: Zone, change: Change,
                       row: Appointment)
    requires BranchesAgree(t) && Ordinary(t, branch, zone, change, LocalDate(zone, startsAt))
    requires FreeVerdict(t, branch, resource, minutes, startsAt, zone) == Ok(true)
    requires row.resource == resource && row.startsAt == startsAt && row.endsAt == startsAt + minutes * MINUTE
    ensures forall i :: 0 <= i < |t.appointments| && t.appointments[i].status != Cancelled ==>
              !Clash(t.appointments[i], row)
  {
    var slot := VerdictSlot(t, branch, resource, minutes, startsAt, zone);
    OfferedMeansApart(t, branch, Some(resource), minutes, LocalDate(zone, startsAt), zone, change, slot, row);
  }

  /** A free verdict rests on a slot offered for the resource on the local day of the start. */
  lemma VerdictSlot(t: Tables, branch: Id, resource: Id, minutes: Minutes, startsAt: int, zone: Zone)
    returns (slot: Interval)
    requires FreeVerdict(t, branch, resource, minutes, startsAt, zone) == Ok(true)
    ensures slot.startsAt == startsAt
    ensures var answer := ComputedSlots(CalendarOf(t, branch), Some(resource), minutes, LocalDate(zone, startsAt), zone);
            answer.Ok? && Offered(answer.value, resource, slot)
  {
    var calendar := CalendarOf(t, branch);
    var day := LocalDate(zone, startsAt);
    var answer := ComputedSlots(calendar, Some(resource), minutes, day, zone).value;
    var g :| 0 <= g < |answer| && exists j :: 0 <= j < |answer[g].slots| && answer[g].slots[j].startsAt == startsAt;
    var j :| 0 <= j < |answer[g].slots| && answer[g].slots[j].startsAt == startsAt;
    var owner := AnswerOwner(calendar, resource, minutes, day, zone, g);
    slot := answer[g].slots[j];
  }

  /** With a single writer, an insert after a free verdict is never refused. */
  lemma FreeNeverRefused(t: Tables, branch: Id, r: Request, zone: Zone, change: Change)
    requires BranchesAgree(t) && r.service in t.durations
    requires Ordinary(t, branch, zone, change, LocalDate(zone, r.startsAt))
    requires FreeVerdict(t, branch, r.resource, t.durations[r.service], r.startsAt, zone) == Ok(true)
    ensures Insert(t, NewRow(branch, r, t.durations[r.service])).Ok?
  {
    var minutes := t.durations[r.service];
    FreeMeansApart(t, branch, r.resource, minutes, r.startsAt, zone, change, NewRow(branch, r, minutes));
  }

  // ---------------------------------------------------------------------------------------------
  // Offered slots can be booked
  // ---------------------------------------------------------------------------------------------

  lemma {:induction false} AnswerRepeats(resources: seq<Resource>, rows: seq<Occupied>, minutes: Minutes, day: int,
                                         zone: Zone, owner: Resource)
    requires forall r :: r in resources ==> r == owner
    requires SlotsFor(owner.rules, minutes, day, zone, BusyOf(rows, owner.id)).Ok?
    ensures var answer := EachResource(resources, rows, minutes, day, zone);
            && answer.Ok? && |answer.value| == |resources|
            && forall i :: 0 <= i < |resources| ==>
                 answer.value[i]
                 == ResourceSlots(owner.id, SlotsFor(owner.rules, minutes, day, zone, BusyOf(rows, owner.id)).value)
  {
    if resources != [] {
      var init := resources[..|resources| - 1];
      assert forall r :: r in init ==> r in resources;
      assert resources[|resources| - 1] in resources;
      AnswerRepeats(init, rows, minutes, day, zone, owner);
    }
  }

  lemma AnswerHolds(resources: seq<Resource>, rows: seq<Occupied>, minutes: Minutes, day: int, zone: Zone,
                    owner: Resource, slot: Interval)
    requires owner in resources
    requires forall r :: r in resources ==> r == owner
    requires SlotsFor(owner.rules, minutes, day, zone, BusyOf(rows, owner.id)).Ok?
    requires slot in SlotsFor(owner.rules, minutes, day, zone, BusyOf(rows, owner.id)).value
    ensures EachResource(resources, rows, minutes, day, zone).Ok?
    ensures StartsIn(EachResource(resources, rows, minutes, day, zone).value, slot.startsAt)
  {
    AnswerRepeats(resources, rows, minutes, day, zone, owner);
    var answer := EachResource(resources, rows, minutes, day, zone).value;
    var slots := answer[0].slots;
    var j :| 0 <= j < |slots| && slots[j] == slot;
    assert answer[0].slots[j].startsAt == slot.startsAt;
  }

  /** A slot offered for a day is a free verdict on that day, when its start maps back to the day. */
  lemma OfferedIsFreeVerdict(t: Tables, branch: Id, wanted: Option<Id>, minutes: Minutes, day: int, zone: Zone,
                             resource: Id, slot: Interval)
    requires ResourceKeys(t)
    requires ComputedSlots(CalendarOf(t, branch), wanted, minutes, day, zone).Ok?
    requires Offered(ComputedSlots(CalendarOf(t, branch), wanted, minutes, day, zone).value, resource, slot)
    requires LocalDate(zone, slot.startsAt) == day
    ensures FreeVerdict(t, branch, resource, minutes, slot.startsAt, zone) == Ok(true)
  {
    var calendar := CalendarOf(t, branch);
    var from, to := ToUtc(zone, DayStart(day)).value, ToUtc(zone, DayStart(day + 1)).value;
    var rows := Meeting(calendar.appointments, from, to) + Meeting(calendar.exceptions, from, to);
    var owner := OfferedBySomeone(Wanted(calendar.resources, wanted), rows, minutes, day, zone, resource, slot);
    var own := Wanted(calendar.resources, Some(resource));
    WantedExact(calendar.resources, wanted, owner);
    OnlyOwner(t, branch, owner);
    AnswerHolds(own, rows, minutes, day, zone, owner, slot);
  }

  /** Every slot availability offers on its own local day is accepted by an immediate booking. */
  lemma OfferedIsBookable(t: Tables, branch: Id, wanted: Option<Id>, day: int, change: Change, slot: Interval,
                          r: Request, now: int, zones: Zones)
    requires BranchesAgree(t) && r.service in t.durations && Ordinary(t, branch, zones(r.timezone), change, day)
    requires var answer := ComputedSlots(CalendarOf(t, branch), wanted, t.durations[r.service], day, zones(r.timezone));
             answer.Ok? && Offered(answer.value, r.resource, slot)
    requires LocalDate(zones(r.timezone), slot.startsAt) == day
    requires r.startsAt == slot.startsAt && r.recurrence == None
    ensures BookCall(t, branch, r, now, zones).1 == Ok(|t.appointments|)
  {
    var zone := zones(r.timezone);
    OfferedIsFreeVerdict(t, branch, wanted, t.durations[r.service], day, zone, r.resource, slot);
    FreeNeverRefused(t, branch, r, zone, change);
  }

  /** A cell of the grid these rules open on the day, its hours and the day itself being convertible. */
  ghost predicate OpenCell(rules: seq<Rule>, minutes: Minutes, day: int, zone: Zone, slot: Interval) {
    && ToUtc(zone, DayStart(day)).Ok? && ToUtc(zone, DayStart(day + 1)).Ok?
    && FirstRule(rules, Weekday(day)).Some?
    && var rule := FirstRule(rules, Weekday(day)).value;
       && ToUtc(zone, Opens(rule, day)).Ok? && ToUtc(zone, Closes(rule, day)).Ok?
       && GridCell(ToUtc(zone, Opens(rule, day)).value, minutes * MINUTE, ToUtc(zone, Closes(rule, day)).value, slot)
  }

  /** An offered slot is an open cell of its day, one service long. */
  lemma OfferedIsOpenCell(rules: seq<Rule>, minutes: Minutes, day: int, zone: Zone, busy: seq<Interval>, slot: Interval)
    requires ToUtc(zone, DayStart(day)).Ok? && ToUtc(zone, DayStart(day + 1)).Ok?
    requires SlotsFor(rules, minutes, day, zone, busy).Ok? && slot in SlotsFor(rules, minutes, day, zone, busy).value
    ensures OpenCell(rules, minutes, day, zone, slot) && slot.endsAt == slot.startsAt + minutes * MINUTE
  {
    CellOfRule(rules, minutes, day, zone, busy, slot);
    var rule := FirstRule(rules, Weekday(day)).value;
    FreeCellsExact(ToUtc(zone, Opens(rule, day)).value, minutes * MINUTE, ToUtc(zone, Closes(rule, day)).value, busy, slot);
  }

  lemma OpenCellIsOffered(rules: seq<Rule>, minutes: Minutes, day: int, zone: Zone, busy: seq<Interval>, slot: Interval)
    requires OpenCell(rules, minutes, day, zone, slot) && IsFree(slot.startsAt, slot.endsAt, busy)
    ensures SlotsFor(rules, minutes, day, zone, busy).Ok? && slot in SlotsFor(rules, minutes, day, zone, busy).value
  {
    var rule := FirstRule(rules, Weekday(day)).value;
    FreeCellsExact(ToUtc(zone, Opens(rule, day)).value, minutes * MINUTE, ToUtc(zone, Closes(rule, day)).value, busy, slot);
  }

  /** What is free of all rows is free of those loaded for any range. */
  lemma FreeOfLoaded(calendar: Calendar, from: int, to: int, resource: Id, slot: Interval)
    requires RowFree(calendar.appointments + calendar.exceptions, resource, slot.startsAt, slot.endsAt)
    ensures IsFree(slot.startsAt, slot.endsAt,
                   BusyOf(Meeting(calendar.appointments, from, to) + Meeting(calendar.exceptions, from, to), resource))
  {
    var loaded := Meeting(calendar.appointments, from, to) + Meeting(calendar.exceptions, from, to);
    forall row | row in loaded ensures row in calendar.appointments + calendar.exceptions {
      MeetingExact(calendar.appointments, from, to, row);
      MeetingExact(calendar.exceptions, from, to, row);
    }
    FreeOfRows(loaded, resource, slot.startsAt, slot.endsAt);
  }

  /** For a slot nothing occupies, the verdict on its start is free exactly when it is an open cell of that local day. */
  lemma FreeVerdictExactly(t: Tables, branch: Id, owner: Resource, minutes: Minutes, zone: Zone, slot: Interval)
    requires ResourceKeys(t) && owner in CalendarOf(t, branch).resources
    requires slot.endsAt == slot.startsAt + minutes * MINUTE
    requires var calendar := CalendarOf(t, branch);
             RowFree(calendar.appointments + calendar.exceptions, owner.id, slot.startsAt, slot.endsAt)
    ensures FreeVerdict(t, branch, owner.id, minutes, slot.startsAt, zone) == Ok(true)
            <==> OpenCell(owner.rules, minutes, LocalDate(zone, slot.startsAt), zone, slot)
  {
    var calendar := CalendarOf(t, branch);
    var day := LocalDate(zone, slot.startsAt);
    if ToUtc(zone, DayStart(day)).Ok? && ToUtc(zone, DayStart(day + 1)).Ok? {
      var from, to := ToUtc(zone, DayStart(day)).value, ToUtc(zone, DayStart(day + 1)).value;
      var rows := Meeting(calendar.appointments, from, to) + Meeting(calendar.exceptions, from, to);
      var own := Wanted(calendar.resources, Some(owner.id));
      OnlyOwner(t, branch, owner);
      if OpenCell(owner.rules, minutes, day, zone, slot) {
        FreeOfLoaded(calendar, from, to, owner.id, slot);
        OpenCellIsOffered(owner.rules, minutes, day, zone, BusyOf(rows, owner.id), slot);
        AnswerHolds(own, rows, minutes, day, zone, owner, slot);
      }
      if FreeVerdict(t, branch, owner.id, minutes, slot.startsAt, zone) == Ok(true) {
        var found := VerdictSlot(t, branch, owner.id, minutes, slot.startsAt, zone);
        var other := OfferedBySomeone(own, rows, minutes, day, zone, owner.id, found);
        OfferedIsOpenCell(owner.rules, minutes, day, zone, BusyOf(rows, owner.id), found);
        assert found == slot;
      }
    }
  }

  lemma OnlyOwner(t: Tables, branch: Id, owner: Resource)
    requires ResourceKeys(t) && owner in CalendarOf(t, branch).resources
    ensures var own := Wanted(CalendarOf(t, branch).resources, Some(owner.id));
            owner in own && forall r :: r in own ==> r == owner
  {
    var resources := CalendarOf(t, branch).resources;
    var own := Wanted(resources, Some(owner.id));
    WantedExact(resources, Some(owner.id), owner);
    InBranchExact(t.resources, branch, owner);
    forall r | r in own ensures r == owner {
      WantedExact(resources, Some(owner.id), r);
      InBranchExact(t.resources, branch, r);
    }
  }

  /**
   An offered slot is accepted by an immediate booking exactly when it is also an open cell of the
   same resource on the local day its start falls on.
   */
  lemma OfferBookableExactly(t: Tables, branch: Id, wanted: Option<Id>, day: int, change: Change, slot: Interval,
                             owner: Resource, r: Request, now: int, zones: Zones)
    requires BranchesAgree(t) && r.service in t.durations && Ordinary(t, branch, zones(r.timezone), change, day)
    requires var answer := ComputedSlots(CalendarOf(t, branch), wanted, t.durations[r.service], day, zones(r.timezone));
             answer.Ok? && Offered(answer.value, r.resource, slot)
    requires owner in CalendarOf(t, branch).resources && owner.id == r.resource
    requires r.startsAt == slot.startsAt && r.recurrence == None
    ensures BookCall(t, branch, r, now, zones).1.Ok?
            <==> OpenCell(owner.rules, t.durations[r.service], LocalDate(zones(r.timezone), slot.startsAt),
                          zones(r.timezone), slot)
  {
    var minutes, zone := t.durations[r.service], zones(r.timezone);
    OfferedIsFree(CalendarOf(t, branch), wanted, minutes, day, zone, change, r.resource, slot);
    FreeVerdictExactly(t, branch, owner, minutes, zone, slot);
    OfferedMeansApart(t, branch, wanted, minutes, day, zone, change, slot, NewRow(branch, r, minutes));
    BookedExactly(t, branch, r, now, zones);
  }

  // ---------------------------------------------------------------------------------------------
  // Series
  // ---------------------------------------------------------------------------------------------

  function Children(parent: Appointment, id: nat, minutes: Minutes, starts: seq<int>): seq<Appointment> {
    seq(|starts|, i requires 0 <= i < |starts| => ChildRow(parent, id, starts[i], minutes))
  }

  /**
   A series books a prefix of its children: all of them, or those before the first refusal, which
   stay booked. Nothing else in the tables changes.
   */
  lemma {:induction false} SeriesBooksPrefix(t: Tables, parent: Appointment, id: nat, minutes: Minutes, starts: seq<int>)
    returns (booked: nat)
    ensures var (after, failure) := BookChildren(t, parent, id, minutes, starts);
            && booked <= |starts|
            && after == t.(appointments := t.appointments + Children(parent, id, minutes, starts[..booked]))
            && (failure.None? ==> booked == |starts|)
            && (failure.Some? ==> booked < |starts|
                                  && Insert(after, ChildRow(parent, id, starts[booked], minutes)) == Err(failure.value))
    decreases |starts|
  {
    booked := 0;
    assert t.appointments + Children(parent, id, minutes, starts[..0]) == t.appointments;
    if starts != [] {
      var child := ChildRow(parent, id, starts[0], minutes);
      var inserted := Insert(t, child);
      if inserted.Ok? {
        var later := SeriesBooksPrefix(inserted.value, parent, id, minutes, starts[1..]);
        booked := later + 1;
        assert Children(parent, id, minutes, starts[..booked])
            == [child] + Children(parent, id, minutes, starts[1..][..later]);
        assert t.appointments + [child] + Children(parent, id, minutes, starts[1..][..later])
            == t.appointments + Children(parent, id, minutes, starts[..booked]);
      }
    }
  }

  /** A reminder for this lead was among the new ones exactly when its moment is still to come. */
  ghost predicate RemindedAhead(added: seq<Reminder>, id: nat, startsAt: int, now: int, lead: int) {
    (exists k :: 0 <= k < |added| && added[k] == Reminder(id, startsAt - lead, Scheduled)) <==> startsAt - lead > now
  }

  lemma RemindersExactly(id: nat, startsAt: int, now: int)
    ensures var added := NewReminders(id, startsAt, now);
            && |added| <= 2
            && RemindedAhead(added, id, startsAt, now, 24 * HOUR) && RemindedAhead(added, id, startsAt, now, HOUR)
            && forall k :: 0 <= k < |added| ==>
                 added[k].appointment == id && added[k].status == Scheduled && added[k].sendAt > now
                 && (added[k].sendAt == startsAt - 24 * HOUR || added[k].sendAt == startsAt - HOUR)
  {
    var added := NewReminders(id, startsAt, now);
    if startsAt - 24 * HOUR > now {
      assert added[0] == Reminder(id, startsAt - 24 * HOUR, Scheduled);
    }
    if startsAt - HOUR > now {
      assert added[|added| - 1] == Reminder(id, startsAt - HOUR, Scheduled);
    }
  }

  /**
   A booking succeeds exactly when its slot is free, its own row is accepted and no child of the
   series is refused. It then adds that row, one child an occurrence linked to it, and its reminders.
   */
  lemma BookedExactly(t: Tables, branch: Id, r: Request, now: int, zones: Zones)
    requires r.service in t.durations
    ensures var minutes := t.durations[r.service];
            var row := NewRow(branch, r, minutes);
            var (after, result) := BookCall(t, branch, r, now, zones);
            var id := |t.appointments|;
            && (result.Ok?
                <==> && FreeVerdict(t, branch, r.resource, minutes, r.startsAt, zones(r.timezone)) == Ok(true)
                     && Insert(t, row).Ok?
                     && BookChildren(Insert(t, row).value, row, id, minutes, ChildStarts(r)).1.None?)
            && (result.Ok? ==>
                  && result.value == id
                  && after == t.(appointments := t.appointments + [row] + Children(row, id, minutes, ChildStarts(r)),
                                 reminders := t.reminders + NewReminders(id, r.startsAt, now)))
  {
    var minutes := t.durations[r.service];
    var row := NewRow(branch, r, minutes);
    var id := |t.appointments|;
    if Insert(t, row).Ok? {
      var inserted := Insert(t, row).value;
      var reminded := CreateReminders(inserted, id, r.startsAt, now);
      RemindersDoNotMatter(inserted, reminded.reminders, row, id, minutes, ChildStarts(r));
      var booked := SeriesBooksPrefix(reminded, row, id, minutes, ChildStarts(r));
      assert ChildStarts(r)[..|ChildStarts(r)|] == ChildStarts(r);
    }
  }

  lemma {:induction false} RemindersDoNotMatter(
    t: Tables, reminders: seq<Reminder>, parent: Appointment, id: nat, minutes: Minutes, starts: seq<int>)
    ensures BookChildren(t.(reminders := reminders), parent, id, minutes, starts).1
            == BookChildren(t, parent, id, minutes, starts).1
    decreases |starts|
  {
    if starts != [] {
      var inserted := Insert(t, ChildRow(parent, id, starts[0], minutes));
      if inserted.Ok? {
        RemindersDoNotMatter(inserted.value, reminders, parent, id, minutes, starts[1..]);
      }
    }
  }

  /**
   Cancelling a single booking undoes it: every availability verdict and every acceptance by the
   constraint is what it was before, and its reminders are dropped.
   */
  lemma CancelUndoesBooking(t: Tables, branch: Id, r: Request, now: int, zones: Zones)
    requires r.recurrence == None && BookCall(t, branch, r, now, zones).1.Ok?
    ensures var booked := BookCall(t, branch, r, now, zones).0;
            var (after, result) := CancelCall(booked, |t.appointments|);
            && result.Ok?
            && (forall b :: CalendarOf(after, b) == CalendarOf(t, b))
            && (forall row :: Excluded(after, row) <==> Excluded(t, row))
            && (forall k :: |t.reminders| <= k < |after.reminders| ==> after.reminders[k].status == Dropped)
            && CancelCall(after, |t.appointments|) == (after, Err(Conflict))
  {
    var row := NewRow(branch, r, t.durations[r.service]);
    var added := NewReminders(|t.appointments|, r.startsAt, now);
    BookedExactly(t, branch, r, now, zones);
    RemindersExactly(|t.appointments|, r.startsAt, now);
    var booked := BookCall(t, branch, r, now, zones).0;
    assert booked == t.(appointments := t.appointments + [row], reminders := t.reminders + added) by {
      assert t.appointments + [row] + [] == t.appointments + [row];
    }
    CancelLast(t, booked, row, added);
  }

  lemma CancelLast(t: Tables, booked: Tables, row: Appointment, added: seq<Reminder>)
    requires booked == t.(appointments := t.appointments + [row], reminders := t.reminders + added)
    requires row.status == Booked
    requires forall k :: 0 <= k < |added| ==> added[k].appointment == |t.appointments| && added[k].status == Scheduled
    ensures var (after, result) := CancelCall(booked, |t.appointments|);
            && result.Ok?
            && (forall b :: CalendarOf(after, b) == CalendarOf(t, b))
            && (forall other :: Excluded(after, other) <==> Excluded(t, other))
            && (forall k :: |t.reminders| <= k < |after.reminders| ==> after.reminders[k].status == Dropped)
            && CancelCall(after, |t.appointments|) == (after, Err(Conflict))
  {
    var id := |t.appointments|;
    var after := CancelCall(booked, id).0;
    assert after.appointments == t.appointments + [row.(status := Cancelled)];
    assert after.appointments[..id] == t.appointments;
    forall other ensures Excluded(after, other) <==> Excluded(t, other) {
      if Excluded(t, other) {
        var i :| 0 <= i < id && Active(t.appointments[i]) && Clash(t.appointments[i], other);
        assert Active(after.appointments[i]) && Clash(after.appointments[i], other);
      }
    }
  }

  /** A finished reschedule closes the original with its reminders and announces the linked replacement. */
  lemma RescheduledExactly(t: Tables, branch: Id, id: nat, startsAt: int, now: int, zones: Zones)
    requires id < |t.appointments| && RescheduleCall(t, branch, id, startsAt, now, zones).1.Ok?
    ensures var a := t.appointments[id];
            var (after, result) := RescheduleCall(t, branch, id, startsAt, now, zones);
            && a.status != Cancelled && a.service in t.durations
            && result.value == |t.appointments|
            && after.appointments
               == t.appointments[id := a.(status := Rescheduled)]
                  + [Replacement(a, branch, startsAt, t.durations[a.service]).(rescheduledFrom := Some(id))]
            && |after.reminders| >= |t.reminders|
            && (forall k :: 0 <= k < |t.reminders| ==>
                  && (t.reminders[k].appointment == id ==> after.reminders[k].status != Scheduled)
                  && (t.reminders[k].appointment != id ==> after.reminders[k] == t.reminders[k]))
            && after.reminders[|t.reminders|..] == NewReminders(|t.appointments|, startsAt, now)
  {
  }

  /** Active rows appended to blocking rows that are apart keep them apart exactly when none lands on an unguarded row. */
  lemma AppendKeepsBlocking(t: Tables, after: Tables)
    requires BlockingApart(t) && ActiveApart(after) && t.appointments <= after.appointments
    requires forall i :: |t.appointments| <= i < |after.appointments| ==> Active(after.appointments[i])
    ensures BlockingApart(after)
            <==> forall i :: |t.appointments| <= i < |after.appointments| ==> !LandsOnUnguarded(t, after.appointments[i])
  {
  }

  /** The rows a booking sets out to insert, known before the call: none without a free verdict. */
  function Planned(t: Tables, branch: Id, r: Request, zones: Zones): seq<Appointment> {
    if r.service !in t.durations then []
    else
      var minutes := t.durations[r.service];
      if FreeVerdict(t, branch, r.resource, minutes, r.startsAt, zones(r.timezone)) != Ok(true) then []
      else
        var row := NewRow(branch, r, minutes);
        [row] + Children(row, |t.appointments|, minutes, ChildStarts(r))
  }

  /** The rows the constraint accepts one after the other before its first refusal. */
  function Taken(t: Tables, rows: seq<Appointment>): (taken: seq<Appointment>)
    ensures taken <= rows
    decreases |rows|
  {
    if rows == [] then []
    else match Insert(t, rows[0])
         case Err(_) => []
         case Ok(after) => [rows[0]] + Taken(after, rows[1..])
  }

  lemma {:induction false} TakenWithoutReminders(t: Tables, reminders: seq<Reminder>, rows: seq<Appointment>)
    ensures Taken(t.(reminders := reminders), rows) == Taken(t, rows)
    decreases |rows|
  {
    if rows != [] && Insert(t, rows[0]).Ok? {
      TakenWithoutReminders(Insert(t, rows[0]).value, reminders, rows[1..]);
    }
  }

  lemma Regroups(a: seq<Appointment>, x: Appointment, b: seq<Appointment>)
    ensures a + ([x] + b) == (a + [x]) + b
  {
  }

  lemma TakenFirst(t: Tables, rows: seq<Appointment>)
    requires rows != [] && Insert(t, rows[0]).Ok?
    ensures Taken(t, rows) == [rows[0]] + Taken(Insert(t, rows[0]).value, rows[1..])
    ensures t.appointments + Taken(t, rows)
            == Insert(t, rows[0]).value.appointments + Taken(Insert(t, rows[0]).value, rows[1..])
  {
    Regroups(t.appointments, rows[0], Taken(Insert(t, rows[0]).value, rows[1..]));
  }

  lemma {:induction false} ChildrenTaken(t: Tables, parent: Appointment, id: nat, minutes: Minutes, starts: seq<int>)
    ensures var (after, failure) := BookChildren(t, parent, id, minutes, starts);
            var taken := Taken(t, Children(parent, id, minutes, starts));
            && after.appointments == t.appointments + taken
            && (failure.None? <==> |taken| == |starts|)
    decreases |starts|
  {
    if starts != [] {
      var child := ChildRow(parent, id, starts[0], minutes);
      var children := Children(parent, id, minutes, starts);
      assert children[0] == child && children[1..] == Children(parent, id, minutes, starts[1..]);
      if Insert(t, child).Ok? {
        ChildrenTaken(Insert(t, child).value, parent, id, minutes, starts[1..]);
        TakenFirst(t, children);
      }
    }
  }

  lemma SeriesTakes(t: Tables, row: Appointment, minutes: Minutes, starts: seq<int>, reminded: Tables,
                    planned: seq<Appointment>)
    requires Insert(t, row).Ok? && reminded == Insert(t, row).value.(reminders := reminded.reminders)
    requires planned == [row] + Children(row, |t.appointments|, minutes, starts)
    ensures var (after, failure) := BookChildren(reminded, row, |t.appointments|, minutes, starts);
            && after.appointments == t.appointments + Taken(t, planned)
            && (failure.None? <==> |Taken(t, planned)| == |planned|)
  {
    var inserted := Insert(t, row).value;
    var children := Children(row, |t.appointments|, minutes, starts);
    assert planned[0] == row && planned[1..] == children;
    ChildrenTaken(reminded, row, |t.appointments|, minutes, starts);
    TakenWithoutReminders(inserted, reminded.reminders, children);
    TakenFirst(t, planned);
  }

  /** What a call leaves behind once its first row is in. */
  predicate Continues(t: Tables, planned: seq<Appointment>, minutes: Minutes, starts: seq<int>, reminders: seq<Reminder>,
                      call: (Tables, Result<nat>))
  {
    && planned != [] && Insert(t, planned[0]).Ok?
    && planned == [planned[0]] + Children(planned[0], |t.appointments|, minutes, starts)
    && var (after, failure) := BookChildren(Insert(t, planned[0]).value.(reminders := reminders), planned[0],
                                            |t.appointments|, minutes, starts);
       call == (after, if failure.Some? then Err(failure.value) else Ok(|t.appointments|))
  }

  predicate Takes(t: Tables, planned: seq<Appointment>, call: (Tables, Result<nat>)) {
    && call.0.appointments == t.appointments + Taken(t, planned)
    && (call.1.Ok? <==> planned != [] && |Taken(t, planned)| == |planned|)
  }

  lemma ContinuingTakes(t: Tables, planned: seq<Appointment>, minutes: Minutes, starts: seq<int>,
                        reminders: seq<Reminder>, call: (Tables, Result<nat>))
    requires Continues(t, planned, minutes, starts, reminders, call)
    ensures Takes(t, planned, call)
  {
    var reminded := Insert(t, planned[0]).value.(reminders := reminders);
    var booked := BookChildren(reminded, planned[0], |t.appointments|, minutes, starts);
    SeriesTakes(t, planned[0], minutes, starts, reminded, planned);
    assert booked.0.appointments == t.appointments + Taken(t, planned);
    assert booked.1.None? <==> |Taken(t, planned)| == |planned|;
    assert call.1.Ok? <==> booked.1.None?;
  }

  lemma BookContinues(t: Tables, branch: Id, r: Request, now: int, zones: Zones)
    requires Planned(t, branch, r, zones) != [] && Insert(t, Planned(t, branch, r, zones)[0]).Ok?
    ensures r.service in t.durations
    ensures Continues(t, Planned(t, branch, r, zones), t.durations[r.service], ChildStarts(r),
                      t.reminders + NewReminders(|t.appointments|, r.startsAt, now), BookCall(t, branch, r, now, zones))
  {
  }

  lemma NothingTaken(t: Tables, branch: Id, r: Request, now: int, zones: Zones)
    requires Planned(t, branch, r, zones) == [] || Insert(t, Planned(t, branch, r, zones)[0]).Err?
    ensures Takes(t, Planned(t, branch, r, zones), BookCall(t, branch, r, now, zones))
  {
    assert Taken(t, Planned(t, branch, r, zones)) == [];
    assert t.appointments + [] == t.appointments;
  }

  /** A booking inserts the planned rows the constraint accepts; all of them exactly when it succeeds. */
  lemma BookTakes(t: Tables, branch: Id, r: Request, now: int, zones: Zones)
    ensures Takes(t, Planned(t, branch, r, zones), BookCall(t, branch, r, now, zones))
  {
    if Planned(t, branch, r, zones) == [] || Insert(t, Planned(t, branch, r, zones)[0]).Err? {
      NothingTaken(t, branch, r, now, zones);
    } else {
      BookContinues(t, branch, r, now, zones);
      ContinuingTakes(t, Planned(t, branch, r, zones), t.durations[r.service], ChildStarts(r),
                      t.reminders + NewReminders(|t.appointments|, r.startsAt, now), BookCall(t, branch, r, now, zones));
    }
  }

  lemma PlannedActive(t: Tables, branch: Id, r: Request, zones: Zones)
    ensures forall k :: 0 <= k < |Planned(t, branch, r, zones)| ==> Active(Planned(t, branch, r, zones)[k])
  {
  }

  /**
   One booking call, series included, keeps the blocking rows apart exactly when none of its planned
   rows that the constraint accepts falls on a rescheduled, completed or no-show row: for a booking
   that succeeds, none of its planned rows at all.
   */
  lemma BookKeepsBlocking(t: Tables, branch: Id, r: Request, now: int, zones: Zones)
    requires Healthy(t) && BlockingApart(t)
    ensures var (after, result) := BookCall(t, branch, r, now, zones);
            var planned := Planned(t, branch, r, zones);
            && (BlockingApart(after) <==> forall row :: row in Taken(t, planned) ==> !LandsOnUnguarded(t, row))
            && (result.Ok? ==>
                  (BlockingApart(after) <==> forall row :: row in planned ==> !LandsOnUnguarded(t, row)))
  {
    BookKeepsHealthy(t, branch, r, now, zones);
    BookTakes(t, branch, r, now, zones);
    PlannedActive(t, branch, r, zones);
    TakenKeepsBlocking(t, BookCall(t, branch, r, now, zones).0, Taken(t, Planned(t, branch, r, zones)));
  }

  lemma TakenKeepsBlocking(t: Tables, after: Tables, taken: seq<Appointment>)
    requires BlockingApart(t) && ActiveApart(after) && after.appointments == t.appointments + taken
    requires forall k :: 0 <= k < |taken| ==> Active(taken[k])
    ensures BlockingApart(after) <==> forall row :: row in taken ==> !LandsOnUnguarded(t, row)
  {
    var n := |t.appointments|;
    forall i | n <= i < |after.appointments| ensures after.appointments[i] == taken[i - n] && taken[i - n] in taken {
    }
    AppendKeepsBlocking(t, after);
    forall row | row in taken ensures exists i :: n <= i < |after.appointments| && after.appointments[i] == row {
      var k :| 0 <= k < |taken| && taken[k] == row;
      assert after.appointments[n + k] == row;
    }
  }

  /** Without a recurrence the checked slot keeps the blocking rows apart. */
  lemma SingleBookingKeepsBlocking(t: Tables, branch: Id, r: Request, now: int, zones: Zones, change: Change)
    requires Healthy(t) && BlockingApart(t) && r.recurrence == None
    requires Ordinary(t, branch, zones(r.timezone), change, LocalDate(zones(r.timezone), r.startsAt))
    ensures BlockingApart(BookCall(t, branch, r, now, zones).0)
  {
    if r.service in t.durations {
      var minutes := t.durations[r.service];
      var zone := zones(r.timezone);
      var row := NewRow(branch, r, minutes);
      if FreeVerdict(t, branch, r.resource, minutes, r.startsAt, zone) == Ok(true) && Insert(t, row).Ok? {
        assert !LandsOnUnguarded(t, row) by {
          FreeMeansApart(t, branch, r.resource, minutes, r.startsAt, zone, change, row);
        }
        InsertKeepsBlocking(t, row);
        SingleAppends(t, branch, r, now, zones);
      }
    }
  }

  lemma SingleAppends(t: Tables, branch: Id, r: Request, now: int, zones: Zones)
    requires r.recurrence == None && r.service in t.durations
    requires Insert(t, NewRow(branch, r, t.durations[r.service])).Ok?
    ensures var after := BookCall(t, branch, r, now, zones).0.appointments;
            after == t.appointments || after == Insert(t, NewRow(branch, r, t.durations[r.service])).value.appointments
  {
  }

  /** Rescheduling keeps the blocking rows apart too: the original stays busy until it is cancelled. */
  lemma RescheduleKeepsBlocking(t: Tables, branch: Id, id: nat, startsAt: int, now: int, zones: Zones, change: Change)
    requires Healthy(t) && BlockingApart(t) && id < |t.appointments|
    requires var zone := zones(t.appointments[id].timezone);
             Ordinary(t, branch, zone, change, LocalDate(zone, startsAt))
    ensures BlockingApart(RescheduleCall(t, branch, id, startsAt, now, zones).0)
  {
    var original := t.appointments[id];
    if original.status != Cancelled && original.service in t.durations {
      var minutes := t.durations[original.service];
      var zone := zones(original.timezone);
      var row := Replacement(original, branch, startsAt, minutes);
      if FreeVerdict(t, branch, original.resource, minutes, startsAt, zone) == Ok(true) && Insert(t, row).Ok? {
        FreeMeansApart(t, branch, original.resource, minutes, startsAt, zone, change, row);
        RescheduledApart(t, branch, id, startsAt, now, zones);
      }
    }
  }

  lemma RescheduledApart(t: Tables, branch: Id, id: nat, startsAt: int, now: int, zones: Zones)
    requires BlockingApart(t) && id < |t.appointments| && t.appointments[id].status != Cancelled
    requires t.appointments[id].service in t.durations
    requires var row := Replacement(t.appointments[id], branch, startsAt, t.durations[t.appointments[id].service]);
             forall i :: 0 <= i < |t.appointments| && t.appointments[i].status != Cancelled ==> !Clash(t.appointments[i], row)
    ensures BlockingApart(RescheduleCall(t, branch, id, startsAt, now, zones).0)
  {
    var after := RescheduleCall(t, branch, id, startsAt, now, zones).0.appointments;
    var row := Replacement(t.appointments[id], branch, startsAt, t.durations[t.appointments[id].service]);
    var n := |t.appointments|;
    assert forall i :: 0 <= i < n ==> (after[i].status != Cancelled ==> t.appointments[i].status != Cancelled);
    assert forall i :: 0 <= i < n ==> after[i].resource == t.appointments[i].resource
                                      && after[i].startsAt == t.appointments[i].startsAt
                                      && after[i].endsAt == t.appointments[i].endsAt;
    if |after| > n {
      assert after[n].resource == row.resource && after[n].startsAt == row.startsAt && after[n].endsAt == row.endsAt;
    }
    forall i, j | 0 <= i < j < |after| && after[i].status != Cancelled && after[j].status != Cancelled
      ensures !Clash(after[i], after[j])
    {
      if j < n {
        assert !Clash(t.appointments[i], t.appointments[j]);
      } else {
        assert !Clash(t.appointments[i], row);
      }
    }
  }

  // ---------------------------------------------------------------------------------------------
  // What the calls do not prevent
  // ---------------------------------------------------------------------------------------------

  lemma UtcConverts(parts: Parts)
    requires ClockTime(parts)
    ensures ToUtc(_ => 0, parts) == Ok(Wall(parts))
  {
    WallOnMinute(parts);
    PartsExact(Wall(parts));
    PartsOfWall(parts);
  }

  function OneHour(day: int, hour: int): Interval {
    Interval(Wall(Parts(day, hour, 0)), Wall(Parts(day, hour + 1, 0)))
  }

  /** One resource, open for one hour on the weekday of `day`; the same hour a week later was rescheduled away. */
  function RescheduledAway(day: int, hour: int): Tables {
    var later := OneHour(day + 7, hour);
    Tables([Resource(0, 0, [Rule(Weekday(day), hour, 0, hour + 1, 0)])], [], map[0 := 60],
           [Appointment(0, 0, 0, 0, later.startsAt, later.endsAt, 0, Rescheduled, None, None)], [])
  }

  function WeeklyTwice(day: int, hour: int): Request {
    Request(0, 0, 0, OneHour(day, hour).startsAt, 0, Some(RecurrenceRule(Weekly, None, Some(2), None)))
  }

  lemma AwayCalendar(day: int, hour: int)
    ensures var later := OneHour(day + 7, hour);
            CalendarOf(RescheduledAway(day, hour), 0)
            == Calendar(RescheduledAway(day, hour).resources, [Occupied(0, later.startsAt, later.endsAt)], [])
  {
    var t := RescheduledAway(day, hour);
    assert t.appointments[..0] == [] && Blocking([], 0) == [];
    assert t.resources[..0] == [] && InBranch([], 0) == [];
    assert InBranch(t.resources, 0) == [] + [t.resources[0]];
    assert Blocking(t.appointments, 0) == [] + [Occupied(0, t.appointments[0].startsAt, t.appointments[0].endsAt)];
  }

  lemma AwaySlots(day: int, hour: int, minutes: Minutes)
    requires 0 <= hour < 23 && minutes == 60
    ensures SlotsFor(RescheduledAway(day, hour).resources[0].rules, minutes, day, _ => 0, [])
            == Ok([OneHour(day, hour)])
  {
    var slot := OneHour(day, hour);
    UtcConverts(Parts(day, hour, 0));
    UtcConverts(Parts(day, hour + 1, 0));
    OneCell(slot.startsAt, minutes * MINUTE);
  }

  lemma OneCell(open: int, step: int)
    requires step > 0
    ensures FreeCells(open, step, open + step, []) == [Interval(open, open + step)]
  {
  }

  lemma AwayIsFree(day: int, hour: int, minutes: Minutes)
    requires 0 <= hour < 23 && minutes == 60
    ensures FreeVerdict(RescheduledAway(day, hour), 0, 0, minutes, OneHour(day, hour).startsAt, _ => 0) == Ok(true)
  {
    var zone: Zone := _ => 0;
    var t := RescheduledAway(day, hour);
    var owner := t.resources[0];
    var slot := OneHour(day, hour);
    var rows := CalendarOf(t, 0).appointments;
    AwayCalendar(day, hour);
    UtcConverts(DayStart(day));
    UtcConverts(DayStart(day + 1));
    PartsOfWall(Parts(day, hour, 0));
    assert LocalDate(zone, slot.startsAt) == day;
    assert rows[..0] == [] && t.resources[..0] == [];
    assert Meeting(rows, Wall(DayStart(day)), Wall(DayStart(day + 1))) == [];
    assert Wanted(t.resources, Some(0)) == [owner];
    AwaySlots(day, hour, minutes);
    assert BusyOf([], 0) == [];
    AnswerHolds([owner], [], minutes, day, zone, owner, slot);
  }

  lemma AwayChildren(day: int, hour: int)
    ensures ChildStarts(WeeklyTwice(day, hour)) == [OneHour(day + 7, hour).startsAt]
  {
  }

  /** A weekly series is accepted although its second hour overlaps a row that still blocks availability. */
  lemma SeriesLandsOnRescheduled(day: int, hour: int, zones: Zones, now: int)
    requires 0 <= hour < 23 && zones(0) == (_ => 0)
    ensures BlockingApart(RescheduledAway(day, hour))
    ensures var (after, result) := BookCall(RescheduledAway(day, hour), 0, WeeklyTwice(day, hour), now, zones);
            result.Ok? && !BlockingApart(after)
  {
    var t := RescheduledAway(day, hour);
    var r := WeeklyTwice(day, hour);
    var minutes := t.durations[0];
    AwayIsFree(day, hour, minutes);
    AwayChildren(day, hour);
    var row := NewRow(0, r, minutes);
    var child := ChildRow(row, 1, OneHour(day + 7, hour).startsAt, minutes);
    AwayInserts(t, row, child);
    var inserted := Insert(t, row).value;
    var reminded := CreateReminders(inserted, 1, r.startsAt, now);
    SeriesOfOne(reminded, row, 1, minutes, child.startsAt);
    var after := BookCall(t, 0, r, now, zones).0;
    assert after.appointments == t.appointments + [row, child];
    assert Clash(after.appointments[0], after.appointments[2]);
  }

  /** Nothing active is in the way of either row. */
  lemma AwayInserts(t: Tables, row: Appointment, child: Appointment)
    requires |t.appointments| == 1 && !Active(t.appointments[0])
    requires row.startsAt < row.endsAt <= child.startsAt < child.endsAt
    ensures Insert(t, row) == Ok(t.(appointments := t.appointments + [row]))
    ensures !Excluded(t.(appointments := t.appointments + [row]), child)
  {
  }

  lemma SeriesOfOne(t: Tables, parent: Appointment, id: nat, minutes: Minutes, start: int)
    requires !Excluded(t, ChildRow(parent, id, start, minutes))
    ensures BookChildren(t, parent, id, minutes, [start])
            == (t.(appointments := t.appointments + [ChildRow(parent, id, start, minutes)]), None)
  {
  }

  // America/St_Johns until 2011: at one minute past midnight the clocks went back to 23:01 of the day before.

  function FallBack(day: int): Change {
    Change(day * DAY + 151 * MINUTE, -150 * MINUTE, -210 * MINUTE)
  }

  /** Around the midnight that begins this day, the zone does that. */
  ghost predicate FallsBack(zone: Zone, day: int) {
    NearDay(zone, FallBack(day), Wall(DayStart(day - 1)), Wall(DayStart(day + 1)))
  }

  lemma FallBackConverts(zone: Zone, day: int, parts: Parts)
    requires FallsBack(zone, day) && ClockTime(parts) && Wall(DayStart(day - 1)) <= Wall(parts) <= Wall(DayStart(day + 1))
    ensures ToUtc(zone, parts)
            == Ok(Wall(parts) + (if Wall(parts) < day * DAY + MINUTE then 150 * MINUTE else 210 * MINUTE))
  {
    var wall := Wall(parts);
    var settled := wall + (if wall < day * DAY + MINUTE then 150 * MINUTE else 210 * MINUTE);
    WallOnMinute(parts);
    assert NearDay(zone, FallBack(day), wall, wall);
    SettlesOn(zone, FallBack(day), wall);
    assert Settled(zone, wall) == settled && zone(settled) == wall - settled;
    PartsOfWall(parts);
  }

  /** One resource, open from midnight until two. */
  function NightShift(day: int): Tables {
    Tables([Resource(0, 0, [Rule(Weekday(day), 0, 0, 2, 0)])], [], map[0 := 30], [], [])
  }

  lemma NightCalendar(day: int)
    ensures CalendarOf(NightShift(day), 0) == Calendar(NightShift(day).resources, [], [])
    ensures Wanted(NightShift(day).resources, Some(0)) == NightShift(day).resources
  {
    var resources := NightShift(day).resources;
    assert resources[..0] == [] && InBranch([], 0) == [] && Wanted([], Some(0)) == [];
    assert InBranch(resources, 0) == [] + [resources[0]];
    assert Wanted(resources, Some(0)) == [] + [resources[0]];
  }

  lemma NightAnswer(zone: Zone, day: int, asked: int, minutes: Minutes)
    requires FallsBack(zone, day) && (asked == day || asked == day - 1)
    ensures ComputedSlots(CalendarOf(NightShift(day), 0), Some(0), minutes, asked, zone)
            == EachResource(NightShift(day).resources, [], minutes, asked, zone)
  {
    NightCalendar(day);
    NightDays(zone, day, asked);
    EmptyAnswer(CalendarOf(NightShift(day), 0), 0, minutes, asked, zone);
  }

  lemma NightDays(zone: Zone, day: int, asked: int)
    requires FallsBack(zone, day) && (asked == day || asked == day - 1)
    ensures ToUtc(zone, DayStart(asked)).Ok? && ToUtc(zone, DayStart(asked + 1)).Ok?
  {
    FallBackConverts(zone, day, DayStart(asked));
    FallBackConverts(zone, day, DayStart(asked + 1));
  }

  lemma EmptyAnswer(calendar: Calendar, resource: Id, minutes: Minutes, day: int, zone: Zone)
    requires calendar.appointments == [] && calendar.exceptions == []
    requires ToUtc(zone, DayStart(day)).Ok? && ToUtc(zone, DayStart(day + 1)).Ok?
    ensures ComputedSlots(calendar, Some(resource), minutes, day, zone)
            == EachResource(Wanted(calendar.resources, Some(resource)), [], minutes, day, zone)
  {
    var from, to := ToUtc(zone, DayStart(day)).value, ToUtc(zone, DayStart(day + 1)).value;
    assert Meeting([], from, to) + Meeting([], from, to) == [];
  }

  /** The second half hour of that night: the wall clock shows half past eleven again. */
  function SecondCell(day: int): Interval {
    Interval(day * DAY + 180 * MINUTE, day * DAY + 210 * MINUTE)
  }

  /** It is offered for the day that just began, and an immediate booking refuses it. */
  lemma FallBackOfferRefused(zones: Zones, day: int, minutes: Minutes, now: int)
    requires FallsBack(zones(0), day) && minutes == 30
    ensures var answer := ComputedSlots(CalendarOf(NightShift(day), 0), Some(0), minutes, day, zones(0));
            answer.Ok? && Offered(answer.value, 0, SecondCell(day))
    ensures var r := Request(0, 0, 0, SecondCell(day).startsAt, 0, None);
            BookCall(NightShift(day), 0, r, now, zones) == (NightShift(day), Err(Conflict))
  {
    NightOffers(zones(0), day, minutes);
    NightRefuses(zones(0), day, NightShift(day).durations[0]);
  }

  lemma NightOffers(zone: Zone, day: int, minutes: Minutes)
    requires FallsBack(zone, day) && minutes == 30
    ensures var answer := ComputedSlots(CalendarOf(NightShift(day), 0), Some(0), minutes, day, zone);
            answer.Ok? && Offered(answer.value, 0, SecondCell(day))
  {
    var owner := NightShift(day).resources[0];
    NightAnswer(zone, day, day, minutes);
    NightCells(zone, day, minutes);
    AnswerRepeats([owner], [], minutes, day, zone, owner);
    assert EachResource([owner], [], minutes, day, zone).value[0].resource == 0;
  }

  lemma NightRefuses(zone: Zone, day: int, minutes: Minutes)
    requires FallsBack(zone, day)
    ensures FreeVerdict(NightShift(day), 0, 0, minutes, SecondCell(day).startsAt, zone) == Ok(false)
  {
    NightBefore(zone, day);
    NightAnswer(zone, day, day - 1, minutes);
    NoRuleNoStart(NightShift(day).resources[0], minutes, day - 1, zone, SecondCell(day).startsAt);
  }

  lemma NightBefore(zone: Zone, day: int)
    requires FallsBack(zone, day)
    ensures LocalDate(zone, SecondCell(day).startsAt) == day - 1
    ensures FirstRule(NightShift(day).resources[0].rules, Weekday(day - 1)) == None
  {
    assert zone(SecondCell(day).startsAt) == -210 * MINUTE;
    HalfPastEleven(day);
  }

  lemma HalfPastEleven(day: int)
    ensures PartsOf(day * DAY - 30 * MINUTE).day == day - 1
  {
  }

  lemma NoRuleNoStart(owner: Resource, minutes: Minutes, day: int, zone: Zone, start: int)
    requires FirstRule(owner.rules, Weekday(day)) == None
    ensures EachResource([owner], [], minutes, day, zone).Ok?
    ensures !StartsIn(EachResource([owner], [], minutes, day, zone).value, start)
  {
    AnswerRepeats([owner], [], minutes, day, zone, owner);
  }

  lemma NightCells(zone: Zone, day: int, minutes: Minutes)
    requires FallsBack(zone, day) && minutes == 30
    ensures var slots := SlotsFor(NightShift(day).resources[0].rules, minutes, day, zone, BusyOf([], 0));
            slots.Ok? && SecondCell(day) in slots.value
  {
    FallBackConverts(zone, day, Parts(day, 0, 0));
    FallBackConverts(zone, day, Parts(day, 2, 0));
    var open, step, close := day * DAY + 150 * MINUTE, minutes * MINUTE, day * DAY + 330 * MINUTE;
    assert SecondCell(day) == Cell(open, step, 1);
    assert GridCell(open, step, close, SecondCell(day));
    FreeCellsExact(open, step, close, BusyOf([], 0), SecondCell(day));
  }

  /**
   Rescheduling one appointment a second time books the new hour and then fails on the unique link:
   the call reports an error, the extra row stays booked, without link and without reminders.
   */
  lemma SecondRescheduleLeavesRow(t: Tables, branch: Id, id: nat, startsAt: int, now: int, zones: Zones)
    requires id < |t.appointments| && t.appointments[id].status != Cancelled && t.appointments[id].service in t.durations
    requires var a := t.appointments[id];
             var minutes := t.durations[a.service];
             && FreeVerdict(t, branch, a.resource, minutes, startsAt, zones(a.timezone)) == Ok(true)
             && Insert(t, Replacement(a, branch, startsAt, minutes)).Ok?
    ensures var (after, result) := RescheduleCall(t, branch, id, startsAt, now, zones);
            var row := Replacement(t.appointments[id], branch, startsAt, t.durations[t.appointments[id].service]);
            && (result.Err? <==> LinkTaken(t, |t.appointments|, id))
            && (result.Err? ==> after == t.(appointments := t.appointments + [row]))
            && (result.Ok? ==> after.appointments[id].status == Rescheduled
                               && after.appointments[|t.appointments|] == row.(rescheduledFrom := Some(id)))
  {
    var a := t.appointments[id];
    var row := Replacement(a, branch, startsAt, t.durations[a.service]);
    var inserted := Insert(t, row).value;
    var n := |t.appointments|;
    assert inserted.appointments == t.appointments + [row];
    if LinkTaken(t, n, id) {
      var i :| 0 <= i < n && t.appointments[i].rescheduledFrom == Some(id);
      assert inserted.appointments[i].rescheduledFrom == Some(id);
    }
  }
}
