/**
 The appointment tables and what one repository call writes to them.

 Rows are numbered by position. An insert is refused by the database when it overlaps a booked or
 confirmed row of the same resource; rows with any other status do not take part in that rule,
 while availability treats every row that is not cancelled as busy.
 */
module Bookings {
  import opened Outcomes
  import opened LocalTime
  import opened Availability

  datatype Status = Booked | Confirmed | Cancelled | Rescheduled | Completed | NoShow

  datatype Appointment = Appointment(
    branch: Id,
    contact: Id,
    service: Id,
    resource: Id,
    startsAt: int,
    endsAt: int,
    timezone: Id,
    status: Status,
    rescheduledFrom: Option<nat>,
    recurrenceParent: Option<nat>)

  datatype ReminderStatus = Scheduled | Sent | Failed | Dropped

  datatype Reminder = Reminder(appointment: nat, sendAt: int, status: ReminderStatus)

  /** Service durations are validated to lie between 5 and 480 minutes. */
  type Minutes = n: nat | 5 <= n <= 480 witness 5

  datatype Tables = Tables(
    resources: seq<Resource>,
    exceptions: seq<Occupied>,
    durations: map<Id, Minutes>,
    appointments: seq<Appointment>,
    reminders: seq<Reminder>)

  predicate Active(a: Appointment) {
    a.status == Booked || a.status == Confirmed
  }

  predicate Clash(a: Appointment, b: Appointment) {
    a.resource == b.resource && Overlap(a.startsAt, a.endsAt, b.startsAt, b.endsAt)
  }

  /** The exclusion constraint of the database, for a row about to be inserted. */
  predicate Excluded(t: Tables, row: Appointment) {
    exists i :: 0 <= i < |t.appointments| && Active(t.appointments[i]) && Clash(t.appointments[i], row)
  }

  function Insert(t: Tables, row: Appointment): Result<Tables> {
    if row.endsAt <= row.startsAt then Err(Internal)
    else if Excluded(t, row) then Err(Conflict)
    else Ok(t.(appointments := t.appointments + [row]))
  }

  function SetStatus(t: Tables, id: nat, status: Status): Tables {
    if id < |t.appointments|
    then t.(appointments := t.appointments[id := t.appointments[id].(status := status)])
    else t
  }

  predicate LinkTaken(t: Tables, id: nat, original: nat) {
    exists i :: 0 <= i < |t.appointments| && i != id && t.appointments[i].rescheduledFrom == Some(original)
  }

  /** First half of `linkReschedule`; the link column is unique, so a second link to one original fails. */
  function Link(t: Tables, id: nat, original: nat): Result<Tables>
    requires id < |t.appointments|
  {
    if LinkTaken(t, id, original) then Err(Internal)
    else Ok(t.(appointments := t.appointments[id := t.appointments[id].(rescheduledFrom := Some(original))]))
  }

  function DropFor(reminders: seq<Reminder>, id: nat): seq<Reminder> {
    seq(|reminders|, i requires 0 <= i < |reminders| =>
      if reminders[i].appointment == id && reminders[i].status == Scheduled
      then reminders[i].(status := Dropped) else reminders[i])
  }

  function CancelReminders(t: Tables, id: nat): Tables {
    t.(reminders := DropFor(t.reminders, id))
  }

  const REMINDER_LEADS_MS: seq<int> := [24 * HOUR, HOUR]

  /** Reminders 24 hours and one hour ahead, as far as those moments are still to come. */
  function NewReminders(id: nat, startsAt: int, now: int): seq<Reminder> {
    (if startsAt - REMINDER_LEADS_MS[0] > now then [Reminder(id, startsAt - REMINDER_LEADS_MS[0], Scheduled)] else [])
    + (if startsAt - REMINDER_LEADS_MS[1] > now then [Reminder(id, startsAt - REMINDER_LEADS_MS[1], Scheduled)] else [])
  }

  function CreateReminders(t: Tables, id: nat, startsAt: int, now: int): Tables {
    t.(reminders := t.reminders + NewReminders(id, startsAt, now))
  }

  function SetReminderStatus(t: Tables, reminder: nat, delivered: bool): Tables {
    if reminder < |t.reminders| && t.reminders[reminder].status == Scheduled
    then t.(reminders := t.reminders[reminder := t.reminders[reminder].(status := if delivered then Sent else Failed)])
    else t
  }

  /** The rows `listAppointmentsInRange` draws from: the branch's rows that are not cancelled. */
  function Blocking(appointments: seq<Appointment>, branch: Id): seq<Occupied> {
    if appointments == [] then []
    else
      var last := appointments[|appointments| - 1];
      Blocking(appointments[..|appointments| - 1], branch)
      + (if last.branch == branch && last.status != Cancelled
         then [Occupied(last.resource, last.startsAt, last.endsAt)] else [])
  }

  function InBranch(resources: seq<Resource>, branch: Id): seq<Resource> {
    if resources == [] then []
    else
      var last := resources[|resources| - 1];
      InBranch(resources[..|resources| - 1], branch) + (if last.branch == branch then [last] else [])
  }

  function CalendarOf(t: Tables, branch: Id): Calendar {
    Calendar(InBranch(t.resources, branch), Blocking(t.appointments, branch), t.exceptions)
  }

  // ---------------------------------------------------------------------------------------------
  // Invariants of the tables
  // ---------------------------------------------------------------------------------------------

  ghost predicate ActiveApart(t: Tables) {
    forall i, j :: 0 <= i < j < |t.appointments| && Active(t.appointments[i]) && Active(t.appointments[j]) ==>
      !Clash(t.appointments[i], t.appointments[j])
  }

  ghost predicate HasResource(t: Tables, resource: Id, branch: Id) {
    exists k :: 0 <= k < |t.resources| && t.resources[k].id == resource && t.resources[k].branch == branch
  }

  /** Resource ids are primary keys. */
  ghost predicate ResourceKeys(t: Tables) {
    forall k, l :: 0 <= k < l < |t.resources| ==> t.resources[k].id != t.resources[l].id
  }

  ghost predicate BranchesAgree(t: Tables) {
    forall i :: 0 <= i < |t.appointments| ==> HasResource(t, t.appointments[i].resource, t.appointments[i].branch)
  }

  predicate Closed(status: Status) {
    status == Cancelled || status == Rescheduled
  }

  ghost predicate RemindersOpen(t: Tables) {
    forall r :: 0 <= r < |t.reminders| && t.reminders[r].status == Scheduled ==>
      t.reminders[r].appointment < |t.appointments|
      && !Closed(t.appointments[t.reminders[r].appointment].status)
  }

  /** No two rows that block availability overlap on one resource: stronger than the database rule. */
  ghost predicate BlockingApart(t: Tables) {
    forall i, j :: 0 <= i < j < |t.appointments|
                   && t.appointments[i].status != Cancelled && t.appointments[j].status != Cancelled ==>
      !Clash(t.appointments[i], t.appointments[j])
  }

  /** A row that availability counts as busy but the exclusion constraint ignores. */
  predicate Unguarded(a: Appointment) {
    a.status != Cancelled && !Active(a)
  }

  ghost predicate LandsOnUnguarded(t: Tables, row: Appointment) {
    exists i :: 0 <= i < |t.appointments| && Unguarded(t.appointments[i]) && Clash(t.appointments[i], row)
  }

  lemma InsertKeepsActive(t: Tables, row: Appointment)
    requires ActiveApart(t) && Insert(t, row).Ok?
    ensures ActiveApart(Insert(t, row).value)
  {
  }

  /**
   An accepted insert keeps the blocking rows apart exactly when it does not land on a row that is
   rescheduled, completed or a no-show.
   */
  lemma InsertKeepsBlocking(t: Tables, row: Appointment)
    requires BlockingApart(t) && Active(row) && Insert(t, row).Ok?
    ensures BlockingApart(Insert(t, row).value) <==> !LandsOnUnguarded(t, row)
  {
    var after := Insert(t, row).value;
    var n := |t.appointments|;
    assert forall i :: 0 <= i < n ==> after.appointments[i] == t.appointments[i];
    if LandsOnUnguarded(t, row) {
      var i :| 0 <= i < n && Unguarded(t.appointments[i]) && Clash(t.appointments[i], row);
      assert Clash(after.appointments[i], after.appointments[n]);
    }
  }

  lemma {:induction false} BlockingExact(appointments: seq<Appointment>, branch: Id, i: nat)
    requires i < |appointments| && appointments[i].branch == branch && appointments[i].status != Cancelled
    ensures Occupied(appointments[i].resource, appointments[i].startsAt, appointments[i].endsAt)
            in Blocking(appointments, branch)
  {
    if i < |appointments| - 1 {
      BlockingExact(appointments[..|appointments| - 1], branch, i);
    }
  }

  lemma {:induction false} InBranchExact(resources: seq<Resource>, branch: Id, r: Resource)
    ensures r in InBranch(resources, branch) <==> r in resources && r.branch == branch
  {
    if resources != [] {
      InBranchExact(resources[..|resources| - 1], branch, r);
      assert resources == resources[..|resources| - 1] + [resources[|resources| - 1]];
    }
  }
}
