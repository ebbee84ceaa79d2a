/**
 What the appointment calls keep, each call being one undisturbed sequence of repository writes:
 active rows apart, rows in their resource's branch, reminders only on open appointments.
 */
module BookingGuarantees {
  import opened Outcomes
  import opened LocalTime
  import opened Availability
  import opened SlotGuarantees
  import opened Bookings
  import opened AppointmentEngine

  ghost predicate Healthy(t: Tables) {
    ActiveApart(t) && BranchesAgree(t) && RemindersOpen(t)
  }

  lemma VerdictFindsResource(t: Tables, branch: Id, resource: Id, minutes: Minutes, startsAt: int, zone: Zone)
    requires FreeVerdict(t, branch, resource, minutes, startsAt, zone) == Ok(true)
    ensures HasResource(t, resource, branch)
  {
    var calendar := CalendarOf(t, branch);
    var answer := ComputedSlots(calendar, Some(resource), minutes, LocalDate(zone, startsAt), zone).value;
    var i :| 0 <= i < |answer| && exists j :: 0 <= j < |answer[i].slots| && answer[i].slots[j].startsAt == startsAt;
    var owner := AnswerOwner(calendar, resource, minutes, LocalDate(zone, startsAt), zone, i);
    InBranchExact(t.resources, branch, owner);
  }

  /** Every group of the answer belongs to a listed resource with the wanted id. */
  lemma AnswerOwner(calendar: Calendar, resource: Id, minutes: Minutes, day: int, zone: Zone, i: nat)
    returns (owner: Resource)
    requires ComputedSlots(calendar, Some(resource), minutes, day, zone).Ok?
    requires i < |ComputedSlots(calendar, Some(resource), minutes, day, zone).value|
    ensures owner in calendar.resources && owner.id == resource
    ensures ComputedSlots(calendar, Some(resource), minutes, day, zone).value[i].resource == resource
  {
    var from, to := ToUtc(zone, DayStart(day)).value, ToUtc(zone, DayStart(day + 1)).value;
    var rows := Meeting(calendar.appointments, from, to) + Meeting(calendar.exceptions, from, to);
    var filtered := Wanted(calendar.resources, Some(resource));
    AnswerAligned(filtered, rows, minutes, day, zone);
    owner := filtered[i];
    WantedExact(calendar.resources, Some(resource), owner);
  }

  lemma {:induction false} AnswerAligned(resources: seq<Resource>, rows: seq<Occupied>, minutes: Minutes, day: int,
                                         zone: Zone)
    requires EachResource(resources, rows, minutes, day, zone).Ok?
    ensures var answer := EachResource(resources, rows, minutes, day, zone).value;
            |answer| == |resources| && forall i :: 0 <= i < |answer| ==> answer[i].resource == resources[i].id
  {
    if resources != [] {
      AnswerAligned(resources[..|resources| - 1], rows, minutes, day, zone);
    }
  }

  lemma InsertKeepsHealthy(t: Tables, row: Appointment)
    requires Healthy(t) && Insert(t, row).Ok? && HasResource(t, row.resource, row.branch)
    ensures Healthy(Insert(t, row).value)
  {
  }

  lemma SameResources(t: Tables, after: Tables)
    requires after.resources == t.resources
    ensures forall resource, branch :: HasResource(t, resource, branch) <==> HasResource(after, resource, branch)
  {
  }

  lemma {:induction false} ChildrenKeepHealthy(t: Tables, parent: Appointment, id: nat, minutes: Minutes, starts: seq<int>)
    requires Healthy(t) && HasResource(t, parent.resource, parent.branch)
    ensures Healthy(BookChildren(t, parent, id, minutes, starts).0)
    decreases |starts|
  {
    if starts != [] {
      var child := ChildRow(parent, id, starts[0], minutes);
      var inserted := Insert(t, child);
      if inserted.Ok? {
        InsertKeepsHealthy(t, child);
        SameResources(t, inserted.value);
        ChildrenKeepHealthy(inserted.value, parent, id, minutes, starts[1..]);
      }
    }
  }

  lemma RemindersKeepHealthy(t: Tables, id: nat, startsAt: int, now: int)
    requires Healthy(t) && id < |t.appointments| && !Closed(t.appointments[id].status)
    ensures Healthy(CreateReminders(t, id, startsAt, now))
  {
  }

  lemma BookKeepsHealthy(t: Tables, branch: Id, r: Request, now: int, zones: Zones)
    requires Healthy(t)
    ensures Healthy(BookCall(t, branch, r, now, zones).0)
  {
    if r.service in t.durations {
      var minutes := t.durations[r.service];
      var verdict := FreeVerdict(t, branch, r.resource, minutes, r.startsAt, zones(r.timezone));
      var row := NewRow(branch, r, minutes);
      if verdict == Ok(true) && Insert(t, row).Ok? {
        VerdictFindsResource(t, branch, r.resource, minutes, r.startsAt, zones(r.timezone));
        InsertKeepsHealthy(t, row);
        var inserted := Insert(t, row).value;
        RemindersKeepHealthy(inserted, |t.appointments|, r.startsAt, now);
        var reminded := CreateReminders(inserted, |t.appointments|, r.startsAt, now);
        SameResources(t, reminded);
        ChildrenKeepHealthy(reminded, row, |t.appointments|, minutes, ChildStarts(r));
      }
    }
  }

  /** Closing an appointment together with its reminders. */
  lemma CloseKeepsHealthy(t: Tables, id: nat, status: Status)
    requires Healthy(t) && id < |t.appointments| && Closed(status)
    ensures Healthy(CancelReminders(SetStatus(t, id, status), id))
  {
  }

  lemma LinkKeepsHealthy(t: Tables, id: nat, original: nat)
    requires Healthy(t) && id < |t.appointments| && Link(t, id, original).Ok?
    ensures Healthy(Link(t, id, original).value)
  {
  }

  lemma RescheduleKeepsHealthy(t: Tables, branch: Id, id: nat, startsAt: int, now: int, zones: Zones)
    requires Healthy(t)
    ensures Healthy(RescheduleCall(t, branch, id, startsAt, now, zones).0)
  {
    if id < |t.appointments| && t.appointments[id].status != Cancelled && t.appointments[id].service in t.durations {
      var original := t.appointments[id];
      var minutes := t.durations[original.service];
      var zone := zones(original.timezone);
      var row := Replacement(original, branch, startsAt, minutes);
      var newId := |t.appointments|;
      if FreeVerdict(t, branch, original.resource, minutes, startsAt, zone) == Ok(true) && Insert(t, row).Ok? {
        VerdictFindsResource(t, branch, original.resource, minutes, startsAt, zone);
        InsertKeepsHealthy(t, row);
        var inserted := Insert(t, row).value;
        if Link(inserted, newId, id).Ok? {
          LinkKeepsHealthy(inserted, newId, id);
          var linked := Link(inserted, newId, id).value;
          CloseKeepsHealthy(linked, id, Rescheduled);
          RemindersKeepHealthy(CancelReminders(SetStatus(linked, id, Rescheduled), id), newId, startsAt, now);
        }
      }
    }
  }

  // ---------------------------------------------------------------------------------------------
  // Sequences of calls
  // ---------------------------------------------------------------------------------------------

  datatype Call =
    | Book(branch: Id, request: Request, now: int)
    | Cancel(id: nat)
    | Reschedule(branch: Id, id: nat, startsAt: int, now: int)
    | Deliver(reminder: nat, delivered: bool)

  function Apply(t: Tables, call: Call, zones: Zones): Tables {
    match call
    case Book(branch, request, now) => BookCall(t, branch, request, now, zones).0
    case Cancel(id) => CancelCall(t, id).0
    case Reschedule(branch, id, startsAt, now) => RescheduleCall(t, branch, id, startsAt, now, zones).0
    case Deliver(reminder, delivered) => SetReminderStatus(t, reminder, delivered)
  }

  function ApplyAll(t: Tables, calls: seq<Call>, zones: Zones): Tables
    decreases |calls|
  {
    if calls == [] then t else ApplyAll(Apply(t, calls[0], zones), calls[1..], zones)
  }

  lemma DeliverKeepsHealthy(t: Tables, reminder: nat, delivered: bool)
    requires Healthy(t)
    ensures Healthy(SetReminderStatus(t, reminder, delivered))
  {
  }

  /** Every sequence of calls keeps the tables healthy, whatever the calls return. */
  lemma {:induction false} CallsKeepHealthy(t: Tables, calls: seq<Call>, zones: Zones)
    requires Healthy(t)
    ensures Healthy(ApplyAll(t, calls, zones))
    decreases |calls|
  {
    if calls != [] {
      match calls[0] {
        case Book(branch, request, now) => BookKeepsHealthy(t, branch, request, now, zones);
        case Cancel(id) =>
          if id < |t.appointments| {
            CloseKeepsHealthy(t, id, Cancelled);
          }
        case Reschedule(branch, id, startsAt, now) => RescheduleKeepsHealthy(t, branch, id, startsAt, now, zones);
        case Deliver(reminder, delivered) => DeliverKeepsHealthy(t, reminder, delivered);
      }
      CallsKeepHealthy(Apply(t, calls[0], zones), calls[1..], zones);
    }
  }

  /** A reminder that has left `scheduled` never changes again; none disappears or moves. */
  ghost predicate RemindersSettle(before: seq<Reminder>, after: seq<Reminder>) {
    && |before| <= |after|
    && forall r :: 0 <= r < |before| ==>
         after[r] == if before[r].status == Scheduled then before[r].(status := after[r].status) else before[r]
  }

  lemma {:induction false} ChildrenKeepReminders(t: Tables, parent: Appointment, id: nat, minutes: Minutes,
                                                 starts: seq<int>)
    ensures BookChildren(t, parent, id, minutes, starts).0.reminders == t.reminders
    decreases |starts|
  {
    if starts != [] && Insert(t, ChildRow(parent, id, starts[0], minutes)).Ok? {
      ChildrenKeepReminders(Insert(t, ChildRow(parent, id, starts[0], minutes)).value, parent, id, minutes, starts[1..]);
    }
  }

  lemma BookSettlesReminders(t: Tables, branch: Id, r: Request, now: int, zones: Zones)
    ensures RemindersSettle(t.reminders, BookCall(t, branch, r, now, zones).0.reminders)
  {
    if r.service in t.durations {
      var minutes := t.durations[r.service];
      var inserted := Insert(t, NewRow(branch, r, minutes));
      if inserted.Ok? {
        var reminded := CreateReminders(inserted.value, |t.appointments|, r.startsAt, now);
        ChildrenKeepReminders(reminded, NewRow(branch, r, minutes), |t.appointments|, minutes, ChildStarts(r));
      }
    }
  }

  lemma RescheduleSettlesReminders(t: Tables, branch: Id, id: nat, startsAt: int, now: int, zones: Zones)
    ensures RemindersSettle(t.reminders, RescheduleCall(t, branch, id, startsAt, now, zones).0.reminders)
  {
    var after := RescheduleCall(t, branch, id, startsAt, now, zones).0.reminders;
    assert after == t.reminders
           || after == DropFor(t.reminders, id) + NewReminders(|t.appointments|, startsAt, now);
  }

  lemma CallSettlesReminders(t: Tables, call: Call, zones: Zones)
    ensures RemindersSettle(t.reminders, Apply(t, call, zones).reminders)
  {
    match call
    case Book(branch, request, now) => BookSettlesReminders(t, branch, request, now, zones);
    case Reschedule(branch, id, startsAt, now) => RescheduleSettlesReminders(t, branch, id, startsAt, now, zones);
    case Cancel(id) =>
    case Deliver(reminder, delivered) =>
  }

  lemma {:induction false} CallsSettleReminders(t: Tables, calls: seq<Call>, zones: Zones)
    ensures RemindersSettle(t.reminders, ApplyAll(t, calls, zones).reminders)
    decreases |calls|
  {
    if calls != [] {
      CallSettlesReminders(t, calls[0], zones);
      CallsSettleReminders(Apply(t, calls[0], zones), calls[1..], zones);
    }
  }
}
