/**
 Bookings, series, cancellations and reschedules interleaved one repository write at a time.

 A booking or a reschedule enters once its check has passed; the model lets it enter whenever its
 resource belongs to the branch, whatever the check read, because other writes may come between
 the check and the insert anyway. Any task may stop at any point.
 */
module BookingInterleavings {
  import opened Outcomes
  import opened Availability
  import opened Bookings
  import opened AppointmentEngine
  import opened BookingGuarantees

  /** What a service call still has to write. */
  datatype Task =
    | Inserting(row: Appointment, minutes: Minutes, starts: seq<int>)
    | Reminding(row: Appointment, id: nat, minutes: Minutes, starts: seq<int>)
    | Series(row: Appointment, id: nat, minutes: Minutes, starts: seq<int>)
    | Cancelling(id: nat)
    | Dropping(id: nat)
    | Replacing(row: Appointment, original: nat)
    | Linking(id: nat, original: nat)
    | Marking(id: nat, original: nat)
    | Clearing(id: nat, original: nat)
    | Announcing(id: nat)

  datatype System = System(tables: Tables, tasks: map<Id, Task>)

  datatype Step =
    | StartBook(task: Id, row: Appointment, minutes: Minutes, starts: seq<int>)
    | StartCancel(task: Id, id: nat)
    | StartReschedule(task: Id, row: Appointment, original: nat)
    | Advance(task: Id, now: int)
    | Stop(task: Id)
    | Deliver(reminder: nat, delivered: bool)

  ghost predicate Enterable(t: Tables, row: Appointment) {
    row.status == Booked && row.rescheduledFrom == None && HasResource(t, row.resource, row.branch)
  }

  ghost predicate Enabled(s: System, step: Step) {
    match step
    case StartBook(task, row, _, _) => task !in s.tasks && Enterable(s.tables, row)
    case StartCancel(task, id) =>
      task !in s.tasks && id < |s.tables.appointments| && s.tables.appointments[id].status != Cancelled
    case StartReschedule(task, row, original) =>
      && task !in s.tasks && Enterable(s.tables, row)
      && original < |s.tables.appointments| && s.tables.appointments[original].status != Cancelled
    case Advance(task, _) => task in s.tasks && IdsExist(s.tables, s.tasks[task])
    case Stop(task) => task in s.tasks
    case Deliver(_, _) => true
  }

  predicate IdsExist(t: Tables, task: Task) {
    match task
    case Inserting(_, _, _) => true
    case Replacing(_, original) => original < |t.appointments|
    case Linking(id, original) => id < |t.appointments| && original < |t.appointments|
    case Marking(id, original) => id < |t.appointments| && original < |t.appointments|
    case Clearing(id, original) => id < |t.appointments| && original < |t.appointments|
    case _ => task.id < |t.appointments|
  }

  /** The row a task is about to insert, if it is about to insert one. */
  function Insertion(task: Task): Option<Appointment> {
    match task
    case Inserting(row, _, _) => Some(row)
    case Replacing(row, _) => Some(row)
    case Series(row, id, minutes, starts) => if starts == [] then None else Some(ChildRow(row, id, starts[0], minutes))
    case _ => None
  }

  /** One write of one task, and what is left of the task; a refused write ends it. */
  function Written(t: Tables, task: Task, now: int): (Tables, Option<Task>)
    requires IdsExist(t, task)
  {
    match task
    case Inserting(row, minutes, starts) =>
      (match Insert(t, row)
       case Err(_) => (t, None)
       case Ok(after) => (after, Some(Reminding(row, |t.appointments|, minutes, starts))))
    case Reminding(row, id, minutes, starts) =>
      (CreateReminders(t, id, row.startsAt, now), Some(Series(row, id, minutes, starts)))
    case Series(row, id, minutes, starts) =>
      if starts == [] then (t, None)
      else (match Insert(t, ChildRow(row, id, starts[0], minutes))
            case Err(_) => (t, None)
            case Ok(after) => (after, Some(Series(row, id, minutes, starts[1..]))))
    case Cancelling(id) => (SetStatus(t, id, Cancelled), Some(Dropping(id)))
    case Dropping(id) => (CancelReminders(t, id), None)
    case Replacing(row, original) =>
      (match Insert(t, row)
       case Err(_) => (t, None)
       case Ok(after) => (after, Some(Linking(|t.appointments|, original))))
    case Linking(id, original) =>
      (match Link(t, id, original)
       case Err(_) => (t, None)
       case Ok(after) => (after, Some(Marking(id, original))))
    case Marking(id, original) => (SetStatus(t, original, Rescheduled), Some(Clearing(id, original)))
    case Clearing(id, original) => (CancelReminders(t, original), Some(Announcing(id)))
    case Announcing(id) => (CreateReminders(t, id, t.appointments[id].startsAt, now), None)
  }

  ghost function Next(s: System, step: Step): System
    requires Enabled(s, step)
  {
    match step
    case StartBook(task, row, minutes, starts) => s.(tasks := s.tasks[task := Inserting(row, minutes, starts)])
    case StartCancel(task, id) => s.(tasks := s.tasks[task := Cancelling(id)])
    case StartReschedule(task, row, original) => s.(tasks := s.tasks[task := Replacing(row, original)])
    case Advance(task, now) =>
      var (after, rest) := Written(s.tables, s.tasks[task], now);
      System(after, if rest.Some? then s.tasks[task := rest.value] else s.tasks - {task})
    case Stop(task) => s.(tasks := s.tasks - {task})
    case Deliver(reminder, delivered) => s.(tables := SetReminderStatus(s.tables, reminder, delivered))
  }

  ghost predicate Run(s: System, steps: seq<Step>)
    decreases |steps|
  {
    steps == [] || (Enabled(s, steps[0]) && Run(Next(s, steps[0]), steps[1..]))
  }

  ghost function After(s: System, steps: seq<Step>): System
    requires Run(s, steps)
    decreases |steps|
  {
    if steps == [] then s else After(Next(s, steps[0]), steps[1..])
  }

  // ---------------------------------------------------------------------------------------------
  // Safety
  // ---------------------------------------------------------------------------------------------

  /** At most one row replaces a given original. */
  ghost predicate LinksUnique(t: Tables) {
    forall i, j :: 0 <= i < j < |t.appointments| && t.appointments[i].rescheduledFrom.Some? ==>
      t.appointments[i].rescheduledFrom != t.appointments[j].rescheduledFrom
  }

  ghost predicate TaskSound(t: Tables, task: Task) {
    && IdsExist(t, task)
    && (task.Inserting? || task.Reminding? || task.Series? || task.Replacing? ==> Enterable(t, task.row))
  }

  ghost predicate Safe(s: System) {
    && ActiveApart(s.tables)
    && BranchesAgree(s.tables)
    && LinksUnique(s.tables)
    && forall task :: task in s.tasks ==> TaskSound(s.tables, s.tasks[task])
  }

  lemma WrittenKeepsActive(t: Tables, task: Task, now: int)
    requires ActiveApart(t) && IdsExist(t, task)
    ensures ActiveApart(Written(t, task, now).0)
  {
  }

  lemma WrittenKeepsLinks(t: Tables, task: Task, now: int)
    requires LinksUnique(t) && TaskSound(t, task)
    ensures LinksUnique(Written(t, task, now).0)
  {
  }

  /** A write keeps resources, and every row keeps its resource and branch; new rows are the inserted one. */
  lemma WrittenRows(t: Tables, task: Task, now: int)
    requires IdsExist(t, task)
    ensures var after := Written(t, task, now).0;
            && after.resources == t.resources
            && |t.appointments| <= |after.appointments| <= |t.appointments| + 1
            && (forall i :: 0 <= i < |t.appointments| ==>
                  && after.appointments[i].resource == t.appointments[i].resource
                  && after.appointments[i].branch == t.appointments[i].branch)
            && (|after.appointments| > |t.appointments| ==>
                  Insertion(task).Some? && after.appointments == t.appointments + [Insertion(task).value])
  {
  }

  lemma WrittenKeepsBranches(t: Tables, task: Task, now: int)
    requires BranchesAgree(t) && TaskSound(t, task)
    ensures BranchesAgree(Written(t, task, now).0)
  {
  }

  lemma TaskStaysSound(t: Tables, after: Tables, task: Task)
    requires TaskSound(t, task) && after.resources == t.resources && |t.appointments| <= |after.appointments|
    ensures TaskSound(after, task)
  {
  }

  lemma RestIsSound(t: Tables, task: Task, now: int)
    requires TaskSound(t, task) && Written(t, task, now).1.Some?
    ensures TaskSound(Written(t, task, now).0, Written(t, task, now).1.value)
  {
  }

  lemma DeliverKeepsSafe(s: System, reminder: nat, delivered: bool)
    requires Safe(s)
    ensures Safe(s.(tables := SetReminderStatus(s.tables, reminder, delivered)))
  {
  }

  lemma StepKeepsSafe(s: System, step: Step)
    requires Safe(s) && Enabled(s, step)
    ensures Safe(Next(s, step))
  {
    match step
    case Advance(task, now) =>
      var t := s.tables;
      WrittenKeepsActive(t, s.tasks[task], now);
      WrittenKeepsLinks(t, s.tasks[task], now);
      WrittenKeepsBranches(t, s.tasks[task], now);
      WrittenRows(t, s.tasks[task], now);
      var after := Next(s, step);
      forall other | other in after.tasks ensures TaskSound(after.tables, after.tasks[other]) {
        if other == task {
          RestIsSound(t, s.tasks[task], now);
        } else {
          TaskStaysSound(t, after.tables, s.tasks[other]);
        }
      }
    case Deliver(reminder, delivered) => DeliverKeepsSafe(s, reminder, delivered);
    case _ =>
  }

  /**
   In every interleaving no two booked or confirmed rows of one resource overlap, every row stays in
   the branch of its resource, and no original is replaced twice.
   */
  lemma {:induction false} RunKeepsSafe(s: System, steps: seq<Step>)
    requires Safe(s) && Run(s, steps)
    ensures Safe(After(s, steps))
    decreases |steps|
  {
    if steps != [] {
      StepKeepsSafe(s, steps[0]);
      RunKeepsSafe(Next(s, steps[0]), steps[1..]);
    }
  }

  // ---------------------------------------------------------------------------------------------
  // Blocking rows
  // ---------------------------------------------------------------------------------------------

  /** An accepted insert on top of a row that availability counts and the constraint does not. */
  ghost predicate LandsOnBlocked(s: System, step: Step)
    requires Enabled(s, step)
  {
    && step.Advance?
    && Insertion(s.tasks[step.task]).Some?
    && Insert(s.tables, Insertion(s.tasks[step.task]).value).Ok?
    && LandsOnUnguarded(s.tables, Insertion(s.tasks[step.task]).value)
  }

  /**
   A reschedule overwrites a cancellation that came between its check and its mark: the cancelled
   row blocks again, on top of whatever was booked there since.
   */
  ghost predicate RevivesOntoBlocking(s: System, step: Step)
    requires Enabled(s, step)
  {
    && step.Advance? && s.tasks[step.task].Marking?
    && ClashesIfRevived(s.tables, s.tasks[step.task].original)
  }

  ghost predicate ClashesIfRevived(t: Tables, id: nat)
    requires id < |t.appointments|
  {
    && t.appointments[id].status == Cancelled
    && exists i :: 0 <= i < |t.appointments| && i != id
                   && t.appointments[i].status != Cancelled && Clash(t.appointments[i], t.appointments[id])
  }

  lemma MarkingBlocks(t: Tables, id: nat, original: nat)
    requires BlockingApart(t) && original < |t.appointments|
    ensures BlockingApart(SetStatus(t, original, Rescheduled)) <==> !ClashesIfRevived(t, original)
  {
    var after := SetStatus(t, original, Rescheduled).appointments;
    if ClashesIfRevived(t, original) {
      var i :| 0 <= i < |after| && i != original
               && t.appointments[i].status != Cancelled && Clash(t.appointments[i], t.appointments[original]);
      assert Clash(after[i], after[original]) && Clash(after[original], after[i]);
    } else {
      forall i, j | 0 <= i < j < |after| && after[i].status != Cancelled && after[j].status != Cancelled
        ensures !Clash(after[i], after[j])
      {
        if i != original && j != original {
          assert !Clash(t.appointments[i], t.appointments[j]);
        } else if t.appointments[original].status != Cancelled {
          assert !Clash(t.appointments[i], t.appointments[j]);
        } else {
          var other := if i == original then j else i;
          assert !Clash(t.appointments[other], t.appointments[original]);
        }
      }
    }
  }

  lemma CancellingKeepsBlocking(t: Tables, task: Task, now: int)
    requires BlockingApart(t) && IdsExist(t, task) && (task.Cancelling? || task.Linking?)
    ensures BlockingApart(Written(t, task, now).0)
  {
  }

  /**
   In every interleaving the rows that block availability come to overlap exactly in two ways: an
   accepted insert lands on a row the constraint ignores, or a reschedule revives a cancelled row.
   */
  lemma OnlyTwoWaysToOverlap(s: System, step: Step)
    requires Safe(s) && BlockingApart(s.tables) && Enabled(s, step)
    ensures BlockingApart(Next(s, step).tables) <==> !LandsOnBlocked(s, step) && !RevivesOntoBlocking(s, step)
  {
    if step.Advance? {
      var task := s.tasks[step.task];
      assert TaskSound(s.tables, task);
      if Insertion(task).Some? {
        if Insert(s.tables, Insertion(task).value).Ok? {
          InsertKeepsBlocking(s.tables, Insertion(task).value);
        }
      } else if task.Marking? {
        MarkingBlocks(s.tables, task.id, task.original);
      } else if task.Cancelling? || task.Linking? {
        CancellingKeepsBlocking(s.tables, task, step.now);
      }
    }
  }

  // ---------------------------------------------------------------------------------------------
  // Reminders
  // ---------------------------------------------------------------------------------------------

  /** In every interleaving a reminder leaves `scheduled` at most once. */
  lemma {:induction false} RunSettlesReminders(s: System, steps: seq<Step>)
    requires Run(s, steps)
    ensures RemindersSettle(s.tables.reminders, After(s, steps).tables.reminders)
    decreases |steps|
  {
    if steps != [] {
      StepSettlesReminders(s, steps[0]);
      RunSettlesReminders(Next(s, steps[0]), steps[1..]);
    }
  }

  lemma StepSettlesReminders(s: System, step: Step)
    requires Enabled(s, step)
    ensures RemindersSettle(s.tables.reminders, Next(s, step).tables.reminders)
  {
    if step.Advance? {
      match s.tasks[step.task]
      case Dropping(_) =>
      case Clearing(_, _) =>
      case Reminding(_, _, _, _) =>
      case Announcing(_) =>
      case _ =>
    }
  }

  // ---------------------------------------------------------------------------------------------
  // Reminders of closed appointments
  // ---------------------------------------------------------------------------------------------

  /** The task is about to drop the reminders of this appointment. */
  predicate Clears(task: Task, id: nat) {
    task == Dropping(id) || (task.Clearing? && task.original == id)
  }

  ghost predicate ClearPending(tasks: map<Id, Task>, id: nat) {
    exists task :: task in tasks && Clears(tasks[task], id)
  }

  ghost predicate AccountedFor(s: System, r: Reminder) {
    r.status == Scheduled ==>
      && r.appointment < |s.tables.appointments|
      && (Closed(s.tables.appointments[r.appointment].status) ==> ClearPending(s.tasks, r.appointment))
  }

  /** Every reminder still scheduled is on an open appointment, or a task is about to drop it. */
  ghost predicate Accounted(s: System) {
    forall k :: 0 <= k < |s.tables.reminders| ==> AccountedFor(s, s.tables.reminders[k])
  }

  /** The reminders a write adds. */
  function Added(t: Tables, task: Task, now: int): seq<Reminder>
    requires IdsExist(t, task)
  {
    match task
    case Reminding(row, id, _, _) => NewReminders(id, row.startsAt, now)
    case Announcing(id) => NewReminders(id, t.appointments[id].startsAt, now)
    case _ => []
  }

  /** Reminders are added to an appointment that was closed meanwhile, and nobody is about to drop them. */
  ghost predicate RemindsClosed(s: System, step: Step)
    requires Enabled(s, step)
  {
    && step.Advance? && (s.tasks[step.task].Reminding? || s.tasks[step.task].Announcing?)
    && Added(s.tables, s.tasks[step.task], step.now) != []
    && Closed(s.tables.appointments[s.tasks[step.task].id].status)
    && !ClearPending(s.tasks, s.tasks[step.task].id)
  }

  ghost predicate ScheduledFor(t: Tables, id: nat) {
    exists k :: 0 <= k < |t.reminders| && t.reminders[k].status == Scheduled && t.reminders[k].appointment == id
  }

  /** A call stops between closing an appointment and dropping its reminders, and no other call will drop them. */
  ghost predicate StopsLastClear(s: System, step: Step)
    requires Enabled(s, step)
  {
    && step.Stop?
    && exists id: nat :: && id < |s.tables.appointments| && Clears(s.tasks[step.task], id)
                         && Closed(s.tables.appointments[id].status) && ScheduledFor(s.tables, id)
                         && !ClearPending(s.tasks - {step.task}, id)
  }

  ghost predicate LosesReminders(s: System, step: Step)
    requires Enabled(s, step)
  {
    RemindsClosed(s, step) || StopsLastClear(s, step)
  }

  /** What one write does to statuses, reminders and pending clears. */
  lemma WriteClears(t: Tables, task: Task, now: int)
    requires IdsExist(t, task)
    ensures var (after, rest) := Written(t, task, now);
            && |t.appointments| <= |after.appointments|
            && (forall i :: 0 <= i < |t.appointments| ==>
                  Closed(after.appointments[i].status) && !Closed(t.appointments[i].status) ==>
                    rest.Some? && Clears(rest.value, i))
            && (forall i :: 0 <= i < |t.appointments| ==>
                  Closed(t.appointments[i].status) ==> Closed(after.appointments[i].status))
  {
  }

  lemma WriteReminders(t: Tables, task: Task, now: int)
    requires IdsExist(t, task)
    ensures var after := Written(t, task, now).0.reminders;
            var added := Added(t, task, now);
            && |after| == |t.reminders| + |added|
            && (forall k :: 0 <= k < |t.reminders| ==>
                  after[k] == if Clears(task, t.reminders[k].appointment) && t.reminders[k].status == Scheduled
                              then t.reminders[k].(status := Dropped) else t.reminders[k])
            && (forall k :: 0 <= k < |added| ==> after[|t.reminders| + k] == added[k])
  {
  }

  predicate AllScheduledFor(added: seq<Reminder>, id: nat) {
    forall k :: 0 <= k < |added| ==> added[k].status == Scheduled && added[k].appointment == id
  }

  lemma NewAreScheduled(id: nat, startsAt: int, now: int)
    ensures AllScheduledFor(NewReminders(id, startsAt, now), id)
  {
  }

  lemma AddedAreScheduled(t: Tables, task: Task, now: int)
    requires IdsExist(t, task)
    ensures Added(t, task, now) != [] ==>
              (task.Reminding? || task.Announcing?) && AllScheduledFor(Added(t, task, now), task.id)
  {
    match task
    case Reminding(row, id, _, _) => NewAreScheduled(id, row.startsAt, now);
    case Announcing(id) => NewAreScheduled(id, t.appointments[id].startsAt, now);
    case _ =>
  }

  lemma AdvanceAccounts(s: System, step: Step)
    requires Accounted(s) && Enabled(s, step) && step.Advance?
    ensures Accounted(Next(s, step)) <==> !RemindsClosed(s, step)
  {
    var t, task := s.tables, s.tasks[step.task];
    var after := Next(s, step);
    var added := Added(t, task, step.now);
    WriteClears(t, task, step.now);
    WriteReminders(t, task, step.now);
    AddedAreScheduled(t, task, step.now);
    forall k | 0 <= k < |t.reminders| ensures AccountedFor(after, after.tables.reminders[k]) {
      var r := t.reminders[k];
      assert AccountedFor(s, r);
      if r.status == Scheduled && !Clears(task, r.appointment) {
        if Closed(t.appointments[r.appointment].status) {
          PendingStays(s, step, r.appointment);
        } else if Closed(after.tables.appointments[r.appointment].status) {
          assert step.task in after.tasks && Clears(after.tasks[step.task], r.appointment);
        }
      }
    }
    if added != [] {
      assert after.tables.reminders[|t.reminders|] == added[0];
      assert after.tables.appointments == t.appointments;
      PendingSame(s, step, task.id);
    }
    if !RemindsClosed(s, step) {
      forall k | |t.reminders| <= k < |after.tables.reminders| ensures AccountedFor(after, after.tables.reminders[k]) {
        assert after.tables.reminders[k] == added[k - |t.reminders|];
      }
    } else {
      assert !AccountedFor(after, after.tables.reminders[|t.reminders|]);
    }
  }

  /** A pending clear stays pending unless it is the one that was just done. */
  lemma PendingStays(s: System, step: Step, id: nat)
    requires Enabled(s, step) && step.Advance? && !Clears(s.tasks[step.task], id) && ClearPending(s.tasks, id)
    ensures ClearPending(Next(s, step).tasks, id)
  {
    var task :| task in s.tasks && Clears(s.tasks[task], id);
    assert task in Next(s, step).tasks && Clears(Next(s, step).tasks[task], id);
  }

  /** Adding reminders neither clears nor promises to. */
  lemma PendingSame(s: System, step: Step, id: nat)
    requires Enabled(s, step) && step.Advance? && (s.tasks[step.task].Reminding? || s.tasks[step.task].Announcing?)
    ensures ClearPending(Next(s, step).tasks, id) <==> ClearPending(s.tasks, id)
  {
    if ClearPending(s.tasks, id) {
      PendingStays(s, step, id);
    }
    if task :| task in Next(s, step).tasks && Clears(Next(s, step).tasks[task], id) {
      assert task in s.tasks && Clears(s.tasks[task], id);
    }
  }

  lemma StopAccounts(s: System, step: Step)
    requires Accounted(s) && Enabled(s, step) && step.Stop?
    ensures Accounted(Next(s, step)) <==> !StopsLastClear(s, step)
  {
    var after := Next(s, step);
    if StopsLastClear(s, step) {
      var id: nat :| id < |s.tables.appointments| && Clears(s.tasks[step.task], id)
                     && Closed(s.tables.appointments[id].status) && ScheduledFor(s.tables, id)
                     && !ClearPending(s.tasks - {step.task}, id);
      var k :| 0 <= k < |s.tables.reminders| && s.tables.reminders[k].status == Scheduled
               && s.tables.reminders[k].appointment == id;
      assert !AccountedFor(after, after.tables.reminders[k]);
    } else {
      forall k | 0 <= k < |s.tables.reminders| ensures AccountedFor(after, s.tables.reminders[k]) {
        var r := s.tables.reminders[k];
        assert AccountedFor(s, r);
        if r.status == Scheduled && Closed(s.tables.appointments[r.appointment].status) {
          assert ScheduledFor(s.tables, r.appointment);
          var task :| task in s.tasks && Clears(s.tasks[task], r.appointment);
          if task != step.task {
            assert task in after.tasks && Clears(after.tasks[task], r.appointment);
          }
        }
      }
    }
  }

  lemma StartAccounts(s: System, step: Step)
    requires Accounted(s) && Enabled(s, step)
    requires step.StartBook? || step.StartCancel? || step.StartReschedule? || step.Deliver?
    ensures Accounted(Next(s, step))
  {
    var after := Next(s, step);
    forall k | 0 <= k < |after.tables.reminders| ensures AccountedFor(after, after.tables.reminders[k]) {
      var r := s.tables.reminders[k];
      assert AccountedFor(s, r);
      if r.status == Scheduled && Closed(s.tables.appointments[r.appointment].status) {
        var task :| task in s.tasks && Clears(s.tasks[task], r.appointment);
        assert task in after.tasks && Clears(after.tasks[task], r.appointment);
      }
    }
  }

  /** A step leaves a scheduled reminder on a closed appointment with nobody to drop it in exactly those two ways. */
  lemma LosesRemindersExactly(s: System, step: Step)
    requires Accounted(s) && Enabled(s, step)
    ensures Accounted(Next(s, step)) <==> !LosesReminders(s, step)
  {
    if step.Advance? {
      AdvanceAccounts(s, step);
    } else if step.Stop? {
      StopAccounts(s, step);
    } else {
      StartAccounts(s, step);
    }
  }

  ghost predicate Undisturbed(s: System, steps: seq<Step>)
    requires Run(s, steps)
    decreases |steps|
  {
    steps == [] || (!LosesReminders(s, steps[0]) && Undisturbed(Next(s, steps[0]), steps[1..]))
  }

  ghost predicate AccountedThroughout(s: System, steps: seq<Step>)
    requires Run(s, steps)
    decreases |steps|
  {
    Accounted(s) && (steps == [] || AccountedThroughout(Next(s, steps[0]), steps[1..]))
  }

  /**
   In every interleaving from a state where they are, scheduled reminders stay accounted for throughout
   exactly when no step is one of the two; with no clear pending that means on open appointments only.
   */
  lemma {:induction false} RemindersAccounted(s: System, steps: seq<Step>)
    requires Accounted(s) && Run(s, steps)
    ensures AccountedThroughout(s, steps) <==> Undisturbed(s, steps)
    ensures Undisturbed(s, steps) && (forall id :: !ClearPending(After(s, steps).tasks, id)) ==>
              RemindersOpen(After(s, steps).tables)
    decreases |steps|
  {
    if steps == [] {
      NothingPendingOpen(s);
    } else {
      LosesRemindersExactly(s, steps[0]);
      if Accounted(Next(s, steps[0])) {
        RemindersAccounted(Next(s, steps[0]), steps[1..]);
      }
    }
  }

  lemma NothingPendingOpen(s: System)
    requires Accounted(s)
    ensures (forall id :: !ClearPending(s.tasks, id)) ==> RemindersOpen(s.tables)
  {
    forall k | 0 <= k < |s.tables.reminders| ensures AccountedFor(s, s.tables.reminders[k]) {
    }
  }

  // The failing run, from tables on which nothing is running.

  ghost predicate Leads(s: System, d: System) {
    exists steps :: Run(s, steps) && After(s, steps) == d
  }

  lemma {:induction false} RunExtends(s: System, steps: seq<Step>, step: Step)
    requires Run(s, steps) && Enabled(After(s, steps), step)
    ensures Run(s, steps + [step]) && After(s, steps + [step]) == Next(After(s, steps), step)
    decreases |steps|
  {
    if steps == [] {
      assert steps + [step] == [step] && [step][1..] == [];
    } else {
      RunExtends(Next(s, steps[0]), steps[1..], step);
      assert (steps + [step])[1..] == steps[1..] + [step];
    }
  }

  lemma LeadsOn(s: System, d: System, step: Step) returns (after: System)
    requires Leads(s, d) && Enabled(d, step)
    ensures after == Next(d, step) && Leads(s, after)
  {
    var steps :| Run(s, steps) && After(s, steps) == d;
    RunExtends(s, steps, step);
    after := Next(d, step);
    assert Run(s, steps + [step]) && After(s, steps + [step]) == after;
  }

  lemma BookedAlone(t: Tables, row: Appointment, minutes: Minutes, now: int) returns (after: System)
    requires Enterable(t, row) && Insert(t, row).Ok?
    ensures Leads(System(t, map[]), after)
    ensures after == System(Insert(t, row).value, map[0 := Reminding(row, |t.appointments|, minutes, [])])
  {
    var start := System(t, map[]);
    assert Run(start, []) && After(start, []) == start;
    after := LeadsOn(start, start, StartBook(0, row, minutes, []));
    after := LeadsOn(start, after, Advance(0, now));
  }

  lemma CancelledMeanwhile(start: System, s: System, booking: Task, id: nat, now: int) returns (after: System)
    requires Leads(start, s) && s.tasks == map[0 := booking]
    requires id < |s.tables.appointments| && s.tables.appointments[id].status != Cancelled
    ensures Leads(start, after) && after.tasks == map[0 := booking]
    ensures after.tables.appointments == s.tables.appointments[id := s.tables.appointments[id].(status := Cancelled)]
  {
    after := LeadsOn(start, s, StartCancel(1, id));
    after := LeadsOn(start, after, Advance(1, now));
    after := LeadsOn(start, after, Advance(1, now));
  }

  /**
   From any tables on which a booking can start: a cancellation that runs between the booking's insert
   and its reminders leaves them scheduled on the cancelled row, with nothing left to drop them.
   */
  lemma CancelInsideBooking(t: Tables, row: Appointment, minutes: Minutes, now: int) returns (after: System)
    requires Enterable(t, row) && Insert(t, row).Ok? && row.startsAt - REMINDER_LEADS_MS[1] > now
    ensures Leads(System(t, map[]), after)
    ensures !RemindersOpen(after.tables) && forall id :: !ClearPending(after.tasks, id)
  {
    var start, id := System(t, map[]), |t.appointments|;
    after := BookedAlone(t, row, minutes, now);
    after := CancelledMeanwhile(start, after, Reminding(row, id, minutes, []), id, now);
    after := LeadsOn(start, after, Advance(0, now));
    var last := |after.tables.reminders| - 1;
    assert after.tables.reminders[last].status == Scheduled && after.tables.reminders[last].appointment == id;
    assert after.tables.appointments[id].status == Cancelled;
  }

  // The other failing run: a reschedule that revives what was cancelled under it.

  lemma ReplacedAlone(t: Tables, row: Appointment, original: nat, now: int) returns (after: System)
    requires original < |t.appointments| && t.appointments[original].status != Cancelled
    requires Enterable(t, row) && Insert(t, row).Ok? && !LinkTaken(t, |t.appointments|, original)
    ensures Leads(System(t, map[]), after)
    ensures after.tasks == map[0 := Marking(|t.appointments|, original)]
    ensures after.tables
            == t.(appointments := t.appointments + [row.(rescheduledFrom := Some(original))])
  {
    var start, id := System(t, map[]), |t.appointments|;
    assert Run(start, []) && After(start, []) == start;
    after := LeadsOn(start, start, StartReschedule(0, row, original));
    after := LeadsOn(start, after, Advance(0, now));
    assert after.tables.appointments == t.appointments + [row];
    assert !LinkTaken(after.tables, id, original);
    after := LeadsOn(start, after, Advance(0, now));
    assert (t.appointments + [row])[id := row.(rescheduledFrom := Some(original))]
        == t.appointments + [row.(rescheduledFrom := Some(original))];
  }

  lemma CancelledUnder(start: System, s: System, original: nat, now: int) returns (after: System)
    requires Leads(start, s) && 1 !in s.tasks && original < |s.tables.appointments|
    requires s.tables.appointments[original].status != Cancelled
    ensures Leads(start, after) && after.tasks == s.tasks
    ensures after.tables.appointments
            == s.tables.appointments[original := s.tables.appointments[original].(status := Cancelled)]
    ensures after.tables.resources == s.tables.resources
  {
    after := LeadsOn(start, s, StartCancel(1, original));
    after := LeadsOn(start, after, Advance(1, now));
    after := LeadsOn(start, after, Advance(1, now));
    assert after.tasks == s.tasks;
  }

  lemma BookedOver(start: System, s: System, row: Appointment, minutes: Minutes, now: int) returns (after: System)
    requires Leads(start, s) && 2 !in s.tasks && Enterable(s.tables, row) && Insert(s.tables, row).Ok?
    ensures Leads(start, after) && forall task :: task in s.tasks ==> task in after.tasks && after.tasks[task] == s.tasks[task]
    ensures after.tables == s.tables.(appointments := s.tables.appointments + [row])
  {
    after := LeadsOn(start, s, StartBook(2, row, minutes, []));
    after := LeadsOn(start, after, Advance(2, now));
  }

  /** The same hour on the same resource, free once the original is cancelled. */
  lemma HourIsFree(t: Tables, moved: Appointment, original: nat, again: Appointment, after: seq<Appointment>)
    requires ActiveApart(t) && original < |t.appointments| && Active(t.appointments[original])
    requires !Clash(t.appointments[original], moved)
    requires after == (t.appointments + [moved])[original := t.appointments[original].(status := Cancelled)]
    requires again.resource == t.appointments[original].resource
    requires again.startsAt == t.appointments[original].startsAt && again.endsAt == t.appointments[original].endsAt
    ensures forall i :: 0 <= i < |after| && Active(after[i]) ==> !Clash(after[i], again)
  {
    forall i | 0 <= i < |after| && Active(after[i]) ensures !Clash(after[i], again) {
      if i < |t.appointments| {
        assert i != original && after[i] == t.appointments[i];
        if i < original {
          assert !Clash(t.appointments[i], t.appointments[original]);
        } else {
          assert !Clash(t.appointments[original], t.appointments[i]);
        }
      }
    }
  }

  /**
   From any tables with a booked appointment that can be rescheduled: it is cancelled after its
   replacement was linked, its hour is booked again, and marking it rescheduled puts it back on top.
   */
  lemma RescheduleRevives(t: Tables, row: Appointment, original: nat, again: Appointment, minutes: Minutes, now: int)
    returns (after: System)
    requires ActiveApart(t) && original < |t.appointments| && Active(t.appointments[original])
    requires Enterable(t, row) && Insert(t, row).Ok? && !LinkTaken(t, |t.appointments|, original)
    requires Enterable(t, again) && again.startsAt < again.endsAt && again.resource == t.appointments[original].resource
    requires again.startsAt == t.appointments[original].startsAt && again.endsAt == t.appointments[original].endsAt
    ensures Leads(System(t, map[]), after) && ActiveApart(after.tables) && !BlockingApart(after.tables)
  {
    var start, moved := System(t, map[]), row.(rescheduledFrom := Some(original));
    after := ReplacedAlone(t, row, original, now);
    var linked := after.tables;
    after := CancelledUnder(start, after, original, now);
    SameResources(t, after.tables);
    assert !Clash(t.appointments[original], row);
    HourIsFree(t, moved, original, again, after.tables.appointments);
    assert Insert(after.tables, again).Ok?;
    var free := after.tables.appointments;
    after := BookedOver(start, after, again, minutes, now);
    assert after.tasks[0] == Marking(|t.appointments|, original);
    after := LeadsOn(start, after, Advance(0, now));
    RevivedOverlaps(t, start, after, original, again);
  }

  lemma RevivedOverlaps(t: Tables, start: System, after: System, original: nat, again: Appointment)
    requires ActiveApart(t) && start == System(t, map[]) && Leads(start, after)
    requires original < |after.tables.appointments| - 1 && again.startsAt < again.endsAt && again.status == Booked
    requires var last := after.tables.appointments[|after.tables.appointments| - 1];
             last == again && Clash(after.tables.appointments[original], last)
    requires after.tables.appointments[original].status == Rescheduled
    ensures ActiveApart(after.tables) && !BlockingApart(after.tables)
  {
    var steps :| Run(start, steps) && After(start, steps) == after;
    RunKeepsActive(start, steps);
  }

  lemma {:induction false} RunKeepsActive(s: System, steps: seq<Step>)
    requires ActiveApart(s.tables) && Run(s, steps)
    ensures ActiveApart(After(s, steps).tables)
    decreases |steps|
  {
    if steps != [] {
      if steps[0].Advance? {
        WrittenKeepsActive(s.tables, s.tasks[steps[0].task], steps[0].now);
      }
      RunKeepsActive(Next(s, steps[0]), steps[1..]);
    }
  }
}
