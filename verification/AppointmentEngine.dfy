/**
 Booking, cancelling and rescheduling: the service calls over the appointment tables.

 The functions say what one undisturbed call writes and returns, its failures included; the class
 performs the calls in place.
 */
module AppointmentEngine {
  import opened Outcomes
  import opened LocalTime
  import opened Availability
  import opened Recurrence
  import opened Bookings

  datatype Request = Request(
    contact: Id,
    service: Id,
    resource: Id,
    startsAt: int,
    timezone: Id,
    recurrence: Option<RecurrenceRule>)

  /** The offset function of each timezone name. */
  type Zones = Id -> Zone

  predicate StartsIn(answer: seq<ResourceSlots>, startsAt: int) {
    exists i :: 0 <= i < |answer| && exists j :: 0 <= j < |answer[i].slots| && answer[i].slots[j].startsAt == startsAt
  }

  /** The availability check both booking and rescheduling make, on the local date of the start. */
  function FreeVerdict(t: Tables, branch: Id, resource: Id, minutes: Minutes, startsAt: int, zone: Zone): Result<bool> {
    match ComputedSlots(CalendarOf(t, branch), Some(resource), minutes, LocalDate(zone, startsAt), zone)
    case Err(error) => Err(error)
    case Ok(answer) => Ok(StartsIn(answer, startsAt))
  }

  function NewRow(branch: Id, r: Request, minutes: Minutes): Appointment {
    Appointment(branch, r.contact, r.service, r.resource, r.startsAt, r.startsAt + minutes * MINUTE, r.timezone,
                Booked, None, None)
  }

  function ChildRow(parent: Appointment, id: nat, startsAt: int, minutes: Minutes): Appointment {
    parent.(startsAt := startsAt, endsAt := startsAt + minutes * MINUTE, recurrenceParent := Some(id))
  }

  /** Books children one by one; the first refusal ends the loop and what was booked stays. */
  function BookChildren(t: Tables, parent: Appointment, id: nat, minutes: Minutes, starts: seq<int>)
    : (Tables, Option<Error>)
    decreases |starts|
  {
    if starts == [] then (t, None)
    else match Insert(t, ChildRow(parent, id, starts[0], minutes))
         case Err(error) => (t, Some(error))
         case Ok(after) => BookChildren(after, parent, id, minutes, starts[1..])
  }

  function ChildStarts(r: Request): seq<int> {
    if r.recurrence.None? then []
    else
      var all := OccurrencesFrom(r.recurrence.value, r.startsAt, 0);
      if all == [] then [] else all[1..]
  }

  function BookCall(t: Tables, branch: Id, r: Request, now: int, zones: Zones): (Tables, Result<nat>) {
    if r.service !in t.durations then (t, Err(NotFound))
    else
      var minutes := t.durations[r.service];
      match FreeVerdict(t, branch, r.resource, minutes, r.startsAt, zones(r.timezone))
      case Err(error) => (t, Err(error))
      case Ok(false) => (t, Err(Conflict))
      case Ok(true) =>
        match Insert(t, NewRow(branch, r, minutes))
        case Err(error) => (t, Err(error))
        case Ok(inserted) =>
          var id := |t.appointments|;
          var reminded := CreateReminders(inserted, id, r.startsAt, now);
          var (after, failure) := BookChildren(reminded, NewRow(branch, r, minutes), id, minutes, ChildStarts(r));
          (after, if failure.Some? then Err(failure.value) else Ok(id))
  }

  function CancelCall(t: Tables, id: nat): (Tables, Result<()>) {
    if id >= |t.appointments| then (t, Err(NotFound))
    else if t.appointments[id].status == Cancelled then (t, Err(Conflict))
    else (CancelReminders(SetStatus(t, id, Cancelled), id), Ok(()))
  }

  function Replacement(a: Appointment, branch: Id, startsAt: int, minutes: Minutes): Appointment {
    Appointment(branch, a.contact, a.service, a.resource, startsAt, startsAt + minutes * MINUTE, a.timezone,
                Booked, None, None)
  }

  function RescheduleCall(t: Tables, branch: Id, id: nat, startsAt: int, now: int, zones: Zones): (Tables, Result<nat>) {
    if id >= |t.appointments| then (t, Err(NotFound))
    else if t.appointments[id].status == Cancelled then (t, Err(Conflict))
    else if t.appointments[id].service !in t.durations then (t, Err(NotFound))
    else
      var original := t.appointments[id];
      var minutes := t.durations[original.service];
      match FreeVerdict(t, branch, original.resource, minutes, startsAt, zones(original.timezone))
      case Err(error) => (t, Err(error))
      case Ok(false) => (t, Err(Conflict))
      case Ok(true) =>
        match Insert(t, Replacement(original, branch, startsAt, minutes))
        case Err(error) => (t, Err(error))
        case Ok(inserted) =>
          var newId := |t.appointments|;
          match Link(inserted, newId, id)
          case Err(error) => (inserted, Err(error))
          case Ok(linked) =>
            var marked := SetStatus(linked, id, Rescheduled);
            (CreateReminders(CancelReminders(marked, id), newId, startsAt, now), Ok(newId))
  }

  /** The appointment tables, updated in place by the service. */
  class AppointmentStore {
    var resources: seq<Resource>
    var exceptions: seq<Occupied>
    var durations: map<Id, Minutes>
    var appointments: seq<Appointment>
    var reminders: seq<Reminder>

    function Contents(): Tables
      reads this
    {
      Tables(resources, exceptions, durations, appointments, reminders)
    }

    constructor (resources: seq<Resource>, exceptions: seq<Occupied>, durations: map<Id, Minutes>)
      ensures Contents() == Tables(resources, exceptions, durations, [], [])
    {
      this.resources, this.exceptions, this.durations := resources, exceptions, durations;
      appointments, reminders := [], [];
    }

    method InsertRow(row: Appointment) returns (result: Result<nat>)
      modifies this`appointments
      ensures match Insert(old(Contents()), row)
              case Ok(after) => result == Ok(|old(appointments)|) && Contents() == after
              case Err(error) => result == Err(error) && Contents() == old(Contents())
    {
      if row.endsAt <= row.startsAt {
        return Err(Internal);
      }
      for i := 0 to |appointments|
        invariant forall k :: 0 <= k < i ==> !(Active(appointments[k]) && Clash(appointments[k], row))
      {
        if Active(appointments[i]) && Clash(appointments[i], row) {
          return Err(Conflict);
        }
      }
      appointments := appointments + [row];
      return Ok(|appointments| - 1);
    }

    method CheckFree(branch: Id, resource: Id, minutes: Minutes, startsAt: int, zone: Zone) returns (verdict: Result<bool>)
      ensures verdict == FreeVerdict(Contents(), branch, resource, minutes, startsAt, zone)
    {
      var slots := ComputeSlots(CalendarOf(Contents(), branch), Some(resource), minutes, LocalDate(zone, startsAt), zone);
      if slots.Err? {
        return Err(slots.error);
      }
      return Ok(StartsIn(slots.value, startsAt));
    }

    method Book(branch: Id, r: Request, now: int, zones: Zones) returns (result: Result<nat>)
      modifies this`appointments, this`reminders
      ensures (Contents(), result) == BookCall(old(Contents()), branch, r, now, zones)
    {
      if r.service !in durations {
        return Err(NotFound);
      }
      var minutes := durations[r.service];
      var verdict := CheckFree(branch, r.resource, minutes, r.startsAt, zones(r.timezone));
      if verdict.Err? {
        return Err(verdict.error);
      }
      if !verdict.value {
        return Err(Conflict);
      }
      var row := NewRow(branch, r, minutes);
      var inserted := InsertRow(row);
      if inserted.Err? {
        return Err(inserted.error);
      }
      reminders := reminders + NewReminders(inserted.value, r.startsAt, now);
      if r.recurrence.Some? {
        var occurrences := ExpandRecurrence(r.recurrence.value, r.startsAt);
        var starts := if occurrences == [] then [] else occurrences[1..];
        var failure := BookEach(row, inserted.value, minutes, starts);
        if failure.Some? {
          return Err(failure.value);
        }
      }
      return Ok(inserted.value);
    }

    /** The loop over the children of a series. */
    method BookEach(parent: Appointment, id: nat, minutes: Minutes, starts: seq<int>) returns (failure: Option<Error>)
      modifies this`appointments
      ensures (Contents(), failure) == BookChildren(old(Contents()), parent, id, minutes, starts)
    {
      var i := 0;
      while i < |starts|
        invariant 0 <= i <= |starts|
        invariant BookChildren(Contents(), parent, id, minutes, starts[i..])
                  == BookChildren(old(Contents()), parent, id, minutes, starts)
        invariant Contents() == old(Contents()).(appointments := appointments)
      {
        var booked := InsertRow(ChildRow(parent, id, starts[i], minutes));
        assert starts[i..][1..] == starts[i + 1..];
        if booked.Err? {
          return Some(booked.error);
        }
        i := i + 1;
      }
      return None;
    }

    method Cancel(id: nat) returns (result: Result<()>)
      modifies this`appointments, this`reminders
      ensures (Contents(), result) == CancelCall(old(Contents()), id)
    {
      if id >= |appointments| {
        return Err(NotFound);
      }
      if appointments[id].status == Cancelled {
        return Err(Conflict);
      }
      appointments := appointments[id := appointments[id].(status := Cancelled)];
      reminders := DropFor(reminders, id);
      return Ok(());
    }

    method Reschedule(branch: Id, id: nat, startsAt: int, now: int, zones: Zones) returns (result: Result<nat>)
      modifies this`appointments, this`reminders
      ensures (Contents(), result) == RescheduleCall(old(Contents()), branch, id, startsAt, now, zones)
    {
      if id >= |appointments| {
        return Err(NotFound);
      }
      var original := appointments[id];
      if original.status == Cancelled {
        return Err(Conflict);
      }
      if original.service !in durations {
        return Err(NotFound);
      }
      var minutes := durations[original.service];
      var verdict := CheckFree(branch, original.resource, minutes, startsAt, zones(original.timezone));
      if verdict.Err? {
        return Err(verdict.error);
      }
      if !verdict.value {
        return Err(Conflict);
      }
      var inserted := InsertRow(Replacement(original, branch, startsAt, minutes));
      if inserted.Err? {
        return Err(inserted.error);
      }
      var newId := inserted.value;
      var linked := Link(Contents(), newId, id);
      if linked.Err? {
        return Err(linked.error);
      }
      appointments := linked.value.appointments;
      appointments := appointments[id := appointments[id].(status := Rescheduled)];
      reminders := DropFor(reminders, id);
      reminders := reminders + NewReminders(newId, startsAt, now);
      return Ok(newId);
    }

    /** `setReminderStatus`: only a reminder that is still scheduled changes. */
    method RecordDelivery(reminder: nat, delivered: bool)
      modifies this`reminders
      ensures Contents() == SetReminderStatus(old(Contents()), reminder, delivered)
    {
      if reminder < |reminders| && reminders[reminder].status == Scheduled {
        reminders := reminders[reminder := reminders[reminder].(status := if delivered then Sent else Failed)];
      }
    }
  }
}
