/**
 An undisturbed service call is a run of single writes: what `AppointmentEngine` says of a call in one
 step is where the interleaved system arrives when nothing comes between the writes of one task.
 */
module BookingRefinement {
  import opened Outcomes
  import opened Availability
  import opened Bookings
  import opened AppointmentEngine
  import opened BookingGuarantees
  import opened BookingInterleavings

  lemma LeadsNowhere(s: System)
    ensures Leads(s, s)
  {
    assert Run(s, []) && After(s, []) == s;
  }

  /** The loop over the children. */
  lemma {:induction false} SeriesIsRun(s: System, d: System, task: Id, row: Appointment, id: nat, minutes: Minutes,
                                       starts: seq<int>, now: int) returns (after: System)
    requires Leads(s, d) && task in d.tasks && d.tasks[task] == Series(row, id, minutes, starts)
    requires id < |d.tables.appointments|
    ensures Leads(s, after)
    ensures after == System(BookChildren(d.tables, row, id, minutes, starts).0, d.tasks - {task})
    decreases |starts|
  {
    after := LeadsOn(s, d, Advance(task, now));
    if starts != [] && Insert(d.tables, ChildRow(row, id, starts[0], minutes)).Ok? {
      assert after.tasks - {task} == d.tasks - {task};
      after := SeriesIsRun(s, after, task, row, id, minutes, starts[1..], now);
    }
  }

  /** A booking whose check passed. */
  lemma BookIsRun(s: System, task: Id, branch: Id, r: Request, now: int, zones: Zones) returns (after: System)
    requires task !in s.tasks && r.service in s.tables.durations
    requires FreeVerdict(s.tables, branch, r.resource, s.tables.durations[r.service], r.startsAt, zones(r.timezone))
             == Ok(true)
    ensures Leads(s, after)
    ensures after == System(BookCall(s.tables, branch, r, now, zones).0, s.tasks)
  {
    var minutes := s.tables.durations[r.service];
    var row := NewRow(branch, r, minutes);
    VerdictFindsResource(s.tables, branch, r.resource, minutes, r.startsAt, zones(r.timezone));
    after := InsertingIsRun(s, task, row, minutes, ChildStarts(r), now);
  }

  function Inserted(t: Tables, row: Appointment, minutes: Minutes, starts: seq<int>, now: int): Tables {
    match Insert(t, row)
    case Err(_) => t
    case Ok(inserted) =>
      var id := |t.appointments|;
      BookChildren(CreateReminders(inserted, id, row.startsAt, now), row, id, minutes, starts).0
  }

  /** From the insert of the first row to the last child. */
  lemma InsertingIsRun(s: System, task: Id, row: Appointment, minutes: Minutes, starts: seq<int>, now: int)
    returns (after: System)
    requires task !in s.tasks && Enterable(s.tables, row)
    ensures Leads(s, after) && after == System(Inserted(s.tables, row, minutes, starts, now), s.tasks)
  {
    LeadsNowhere(s);
    after := LeadsOn(s, s, StartBook(task, row, minutes, starts));
    after := LeadsOn(s, after, Advance(task, now));
    if Insert(s.tables, row).Ok? {
      after := LeadsOn(s, after, Advance(task, now));
      after := SeriesIsRun(s, after, task, row, |s.tables.appointments|, minutes, starts, now);
    }
    assert after.tasks == s.tasks;
  }

  /** A cancellation of a row that is not cancelled. */
  lemma CancelIsRun(s: System, task: Id, id: nat, now: int) returns (after: System)
    requires task !in s.tasks && id < |s.tables.appointments| && s.tables.appointments[id].status != Cancelled
    ensures Leads(s, after) && after == System(CancelCall(s.tables, id).0, s.tasks)
  {
    LeadsNowhere(s);
    after := LeadsOn(s, s, StartCancel(task, id));
    after := LeadsOn(s, after, Advance(task, now));
    after := LeadsOn(s, after, Advance(task, now));
    assert after.tasks == s.tasks;
  }

  /** A reschedule whose check passed, up to where it stops. */
  lemma RescheduleIsRun(s: System, task: Id, branch: Id, id: nat, startsAt: int, now: int, zones: Zones)
    returns (after: System)
    requires task !in s.tasks && id < |s.tables.appointments| && s.tables.appointments[id].status != Cancelled
    requires s.tables.appointments[id].service in s.tables.durations
    requires var a := s.tables.appointments[id];
             FreeVerdict(s.tables, branch, a.resource, s.tables.durations[a.service], startsAt, zones(a.timezone))
             == Ok(true)
    ensures Leads(s, after)
    ensures after == System(RescheduleCall(s.tables, branch, id, startsAt, now, zones).0, s.tasks)
  {
    var a := s.tables.appointments[id];
    var minutes := s.tables.durations[a.service];
    var row := Replacement(a, branch, startsAt, minutes);
    VerdictFindsResource(s.tables, branch, a.resource, minutes, startsAt, zones(a.timezone));
    after := ReplacingIsRun(s, task, row, id, now);
  }

  function Linked(t: Tables, newId: nat, id: nat, startsAt: int, now: int): Tables
    requires newId < |t.appointments|
  {
    match Link(t, newId, id)
    case Err(_) => t
    case Ok(linked) => CreateReminders(CancelReminders(SetStatus(linked, id, Rescheduled), id), newId, startsAt, now)
  }

  /** From the insert of the replacement to its reminders. */
  lemma ReplacingIsRun(s: System, task: Id, row: Appointment, id: nat, now: int) returns (after: System)
    requires task !in s.tasks && Enterable(s.tables, row)
    requires id < |s.tables.appointments| && s.tables.appointments[id].status != Cancelled
    ensures Leads(s, after) && after.tasks == s.tasks
    ensures after.tables == match Insert(s.tables, row)
                            case Err(_) => s.tables
                            case Ok(inserted) => Linked(inserted, |s.tables.appointments|, id, row.startsAt, now)
  {
    after := InsertIsRun(s, task, row, id, now);
    if Insert(s.tables, row).Ok? {
      after := LinkingIsRun(s, after, task, id, row.startsAt, now);
    }
    assert after.tasks == s.tasks;
  }

  lemma InsertIsRun(s: System, task: Id, row: Appointment, id: nat, now: int) returns (after: System)
    requires task !in s.tasks && Enterable(s.tables, row)
    requires id < |s.tables.appointments| && s.tables.appointments[id].status != Cancelled
    ensures Leads(s, after)
    ensures after == match Insert(s.tables, row)
                     case Err(_) => s
                     case Ok(inserted) => System(inserted, s.tasks[task := Linking(|s.tables.appointments|, id)])
  {
    LeadsNowhere(s);
    after := LeadsOn(s, s, StartReschedule(task, row, id));
    after := LeadsOn(s, after, Advance(task, now));
    if Insert(s.tables, row).Err? {
      assert after.tasks == s.tasks;
    }
  }

  /** From the inserted replacement on. */
  lemma LinkingIsRun(s: System, d: System, task: Id, id: nat, startsAt: int, now: int) returns (after: System)
    requires Leads(s, d) && task in d.tasks && |d.tables.appointments| > 0
    requires d.tasks[task] == Linking(|d.tables.appointments| - 1, id) && id < |d.tables.appointments| - 1
    requires d.tables.appointments[|d.tables.appointments| - 1].startsAt == startsAt
    ensures Leads(s, after) && after.tasks == d.tasks - {task}
    ensures after.tables == Linked(d.tables, |d.tables.appointments| - 1, id, startsAt, now)
  {
    var newId := |d.tables.appointments| - 1;
    after := LeadsOn(s, d, Advance(task, now));
    if Link(d.tables, newId, id).Ok? {
      after := MarkingIsRun(s, after, task, newId, id, startsAt, now);
    }
  }

  lemma MarkingIsRun(s: System, d: System, task: Id, newId: nat, id: nat, startsAt: int, now: int) returns (after: System)
    requires Leads(s, d) && task in d.tasks && d.tasks[task] == Marking(newId, id)
    requires id < newId < |d.tables.appointments| && d.tables.appointments[newId].startsAt == startsAt
    ensures Leads(s, after) && after.tasks == d.tasks - {task}
    ensures after.tables == CreateReminders(CancelReminders(SetStatus(d.tables, id, Rescheduled), id), newId, startsAt, now)
  {
    after := LeadsOn(s, d, Advance(task, now));
    after := ClearingIsRun(s, after, task, newId, id, startsAt, now);
  }

  lemma ClearingIsRun(s: System, d: System, task: Id, newId: nat, id: nat, startsAt: int, now: int) returns (after: System)
    requires Leads(s, d) && task in d.tasks && d.tasks[task] == Clearing(newId, id)
    requires id < newId < |d.tables.appointments| && d.tables.appointments[newId].startsAt == startsAt
    ensures Leads(s, after) && after.tasks == d.tasks - {task}
    ensures after.tables == CreateReminders(CancelReminders(d.tables, id), newId, startsAt, now)
  {
    after := LeadsOn(s, d, Advance(task, now));
    after := LeadsOn(s, after, Advance(task, now));
  }
}
