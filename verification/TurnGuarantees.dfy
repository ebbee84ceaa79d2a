/**
 What the AI-turn protocol guarantees in every run, whether or not workers outlive their lease:
 final states stay, successes are linked, engine calls are bounded by claims, claims run out.
 */
module TurnGuarantees {
  import opened Outcomes
  import opened TurnJobs
  import opened TurnProtocol

  predicate Final(job: Job) {
    job.status == Succeeded || job.status == Failed
  }

  /** `succeeded` and `failed` are absorbing: no later step changes any column of the row. */
  lemma {:induction false} FinalForever(s: System, steps: seq<Step>, id: Id)
    requires Run(s, steps) && id in s.jobs && Final(s.jobs[id])
    ensures id in After(s, steps).jobs && After(s, steps).jobs[id] == s.jobs[id]
    decreases |steps|
  {
    if steps != [] {
      JobsGrow(s, steps[0]);
      RowChange(s, steps[0], id);
      FinalForever(Next(s, steps[0]), steps[1..], id);
    }
  }

  /** In every run from the empty database a succeeded job names its own id as its run, and that run exists. */
  lemma SucceededIsLinked(steps: seq<Step>, id: Id)
    requires Run(INITIAL, steps)
    requires id in After(INITIAL, steps).jobs && After(INITIAL, steps).jobs[id].status == Succeeded
    ensures After(INITIAL, steps).jobs[id].runId == Some(id) && id in After(INITIAL, steps).runs
  {
    InitialConsistent();
    RunKeepsConsistent(INITIAL, steps);
  }

  lemma {:induction false} TicketsBounded(tickets: set<Ticket>, id: Id, bound: nat)
    requires forall t :: t in tickets ==> t.job == id && 1 <= t.number <= bound
    ensures |tickets| <= bound
    decreases bound
  {
    if bound == 0 {
      assert tickets == {};
    } else {
      var last := Ticket(id, bound);
      TicketsBounded(tickets - {last}, id, bound - 1);
      assert |tickets| <= |tickets - {last}| + 1;
    }
  }

  /** Engine calls of a job never exceed its claims; its claims are its attempts, at most the maximum. */
  lemma CallsBounded(steps: seq<Step>, id: Id)
    requires Run(INITIAL, steps) && id in After(INITIAL, steps).jobs
    ensures var s := After(INITIAL, steps);
            s.calls[id] <= s.claims[id] == s.jobs[id].attempts <= s.jobs[id].maxAttempts
  {
    var s := After(INITIAL, steps);
    InitialConsistent();
    RunKeepsConsistent(INITIAL, steps);
    TicketsBounded(CallsOf(s.called, id), id, s.jobs[id].attempts);
  }

  /**
   A claim that can no longer reach the engine: the run of its job exists, it has not called,
   and whoever holds it is not between a lookup that found nothing and the call.
   */
  ghost predicate CannotCall(s: System, t: Ticket) {
    && t.job in s.runs
    && t !in s.called
    && forall w :: w in s.holders && TicketOf(s.holders[w]) == t ==>
         !s.holders[w].phase.Reading? && !s.holders[w].phase.Calling?
  }

  lemma StepKeepsCannotCall(s: System, step: Step, t: Ticket)
    requires Enabled(s, step) && CannotCall(s, t)
    ensures CannotCall(Next(s, step), t)
  {
    var after := Next(s, step);
    JobsGrow(s, step);
    forall w | w in after.holders && TicketOf(after.holders[w]) == t
      ensures !after.holders[w].phase.Reading? && !after.holders[w].phase.Calling?
    {
      HolderChange(s, step, w);
    }
  }

  lemma {:induction false} CannotCallForever(s: System, steps: seq<Step>, t: Ticket)
    requires Run(s, steps) && CannotCall(s, t)
    ensures t !in After(s, steps).called
    decreases |steps|
  {
    if steps != [] {
      StepKeepsCannotCall(s, steps[0], t);
      CannotCallForever(Next(s, steps[0]), steps[1..], t);
    }
  }

  /** A worker whose lookup finds the run never calls the engine under that claim. */
  lemma FoundRunNeverCalls(s: System, worker: Id, steps: seq<Step>)
    requires Consistent(s) && Enabled(s, FindRun(worker)) && s.holders[worker].job in s.runs
    requires Run(Next(s, FindRun(worker)), steps)
    ensures TicketOf(s.holders[worker]) !in After(Next(s, FindRun(worker)), steps).called
  {
    var t := TicketOf(s.holders[worker]);
    var after := Next(s, FindRun(worker));
    assert forall w :: w in s.holders ==> TicketsDiffer(s, worker, w);
    assert CannotCall(after, t);
    CannotCallForever(after, steps, t);
  }

  /** Once the run row exists, no claim made afterwards ever calls the engine again. */
  lemma LaterClaimsNeverCall(s: System, steps: seq<Step>, t: Ticket)
    requires Consistent(s) && Run(s, steps)
    requires t.job in s.runs && t.job in s.jobs && t.number > s.jobs[t.job].attempts
    ensures t !in After(s, steps).called
  {
    assert forall w :: w in s.holders ==> TicketFits(s, w);
    CannotCallForever(s, steps, t);
  }

  // ---------------------------------------------------------------------------------------------
  // Claims run out
  // ---------------------------------------------------------------------------------------------

  function Left(job: Job): int {
    job.maxAttempts - job.attempts
  }

  ghost function Remaining(jobs: Jobs): int {
    if jobs == map[] then 0
    else var id :| id in jobs; Left(jobs[id]) + Remaining(jobs - {id})
  }

  lemma {:induction false} RemainingSplits(jobs: Jobs, id: Id)
    requires id in jobs
    ensures Remaining(jobs) == Left(jobs[id]) + Remaining(jobs - {id})
    decreases |jobs|
  {
    var first :| first in jobs && Remaining(jobs) == Left(jobs[first]) + Remaining(jobs - {first});
    if first != id {
      RemainingSplits(jobs - {first}, id);
      RemainingSplits(jobs - {id}, first);
      assert jobs - {first} - {id} == jobs - {id} - {first};
    }
  }

  lemma RemainingUpdates(jobs: Jobs, id: Id, job: Job)
    ensures Remaining(jobs[id := job]) == Remaining(jobs) + Left(job) - (if id in jobs then Left(jobs[id]) else 0)
  {
    RemainingSplits(jobs[id := job], id);
    assert jobs[id := job] - {id} == jobs - {id};
    if id in jobs {
      RemainingSplits(jobs, id);
    } else {
      assert jobs - {id} == jobs;
    }
  }

  lemma StepRemaining(s: System, step: Step)
    requires Enabled(s, step)
    ensures Remaining(Next(s, step).jobs)
            == Remaining(s.jobs) - (if step.Claim? then 1 else 0)
               + (if step.Enqueue? then DEFAULT_MAX_ATTEMPTS else 0)
  {
    match step
    case Enqueue(id, organization, message) => RemainingUpdates(s.jobs, id, NewJob(organization, message, s.now));
    case Claim(_, id) => RemainingUpdates(s.jobs, id, ClaimRow(s.jobs[id], s.now));
    case Succeed(worker, _) =>
      var id := s.holders[worker].job;
      RemainingUpdates(s.jobs, id, SucceedRow(s.jobs[id], id));
    case WriteFailure(worker, error) =>
      var h := s.holders[worker];
      RemainingUpdates(s.jobs, h.job, FailRow(s.jobs[h.job], h.phase.exhausted, error));
    case _ =>
  }

  ghost function ClaimsIn(steps: seq<Step>): nat {
    if steps == [] then 0 else (if steps[0].Claim? then 1 else 0) + ClaimsIn(steps[1..])
  }

  ghost function EnqueuesIn(steps: seq<Step>): nat {
    if steps == [] then 0 else (if steps[0].Enqueue? then 1 else 0) + EnqueuesIn(steps[1..])
  }

  lemma {:induction false} RunRemaining(s: System, steps: seq<Step>)
    requires Run(s, steps)
    ensures Remaining(After(s, steps).jobs)
            == Remaining(s.jobs) + DEFAULT_MAX_ATTEMPTS * EnqueuesIn(steps) - ClaimsIn(steps)
    decreases |steps|
  {
    if steps != [] {
      StepRemaining(s, steps[0]);
      RunRemaining(Next(s, steps[0]), steps[1..]);
    }
  }

  lemma {:induction false} RemainingNonNegative(jobs: Jobs)
    requires forall id :: id in jobs ==> jobs[id].attempts <= jobs[id].maxAttempts
    ensures Remaining(jobs) >= 0
    decreases |jobs|
  {
    if jobs == map[] {
      assert Remaining(jobs) == 0;
    } else {
      var id :| id in jobs;
      RemainingSplits(jobs, id);
      RemainingNonNegative(jobs - {id});
    }
  }

  /** Every claim uses up one attempt of the whole table, so a run holds at most three claims per enqueued job. */
  lemma ClaimsRunOut(steps: seq<Step>)
    requires Run(INITIAL, steps)
    ensures Remaining(After(INITIAL, steps).jobs) == 3 * EnqueuesIn(steps) - ClaimsIn(steps)
    ensures ClaimsIn(steps) <= 3 * EnqueuesIn(steps)
  {
    InitialConsistent();
    RunKeepsConsistent(INITIAL, steps);
    RunRemaining(INITIAL, steps);
    RemainingNonNegative(After(INITIAL, steps).jobs);
  }

  /** A crash under the last attempt is never resolved: the row stays `running` in every continuation. */
  lemma {:induction false} LastAttemptCrashStays(s: System, steps: seq<Step>, id: Id)
    requires Run(s, steps) && id in s.jobs
    requires s.jobs[id].status == Running && Exhausted(s.jobs[id])
    requires forall w :: w in s.holders ==> s.holders[w].job != id
    ensures id in After(s, steps).jobs && After(s, steps).jobs[id] == s.jobs[id]
    decreases |steps|
  {
    if steps != [] {
      var after := Next(s, steps[0]);
      JobsGrow(s, steps[0]);
      RowChange(s, steps[0], id);
      forall w | w in after.holders ensures after.holders[w].job != id {
        HolderChange(s, steps[0], w);
      }
      LastAttemptCrashStays(after, steps[1..], id);
    }
  }
}
