/**
 What an availability check still rules out when other writes come between it and the insert.
 */
module BookingChecks {
  import opened Outcomes
  import opened LocalTime
  import opened ZoneConversion
  import opened Availability
  import opened Bookings
  import opened AppointmentEngine
  import opened BookingConflicts
  import opened BookingInterleavings

  /** Rows stay, each on its resource and in its hours. */
  predicate KeepsPlaces(before: Tables, after: Tables) {
    && |before.appointments| <= |after.appointments|
    && forall i :: 0 <= i < |before.appointments| ==>
         && after.appointments[i].resource == before.appointments[i].resource
         && after.appointments[i].startsAt == before.appointments[i].startsAt
         && after.appointments[i].endsAt == before.appointments[i].endsAt
  }

  lemma WriteKeepsPlaces(t: Tables, task: Task, now: int)
    requires IdsExist(t, task)
    ensures KeepsPlaces(t, Written(t, task, now).0)
  {
  }

  lemma {:induction false} RunKeepsPlaces(s: System, steps: seq<Step>)
    requires Run(s, steps)
    ensures KeepsPlaces(s.tables, After(s, steps).tables)
    decreases |steps|
  {
    if steps != [] {
      if steps[0].Advance? {
        WriteKeepsPlaces(s.tables, s.tasks[steps[0].task], steps[0].now);
      }
      RunKeepsPlaces(Next(s, steps[0]), steps[1..]);
    }
  }

  /**
   However long after its check a row is inserted and whatever ran meanwhile: it overlaps a row that is
   not cancelled only if that row was written after the check, or was cancelled then and revived since.
   */
  lemma CheckedMeetsOnlyNewer(s: System, steps: seq<Step>, branch: Id, minutes: Minutes, zone: Zone, change: Change,
                              row: Appointment, i: nat)
    requires Run(s, steps) && BranchesAgree(s.tables)
    requires Ordinary(s.tables, branch, zone, change, LocalDate(zone, row.startsAt))
    requires FreeVerdict(s.tables, branch, row.resource, minutes, row.startsAt, zone) == Ok(true)
    requires row.endsAt == row.startsAt + minutes * MINUTE
    requires var now := After(s, steps).tables.appointments;
             i < |now| && now[i].status != Cancelled && Clash(now[i], row)
    ensures i >= |s.tables.appointments| || s.tables.appointments[i].status == Cancelled
  {
    FreeMeansApart(s.tables, branch, row.resource, minutes, row.startsAt, zone, change, row);
    RunKeepsPlaces(s, steps);
  }
}
