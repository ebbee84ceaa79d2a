/**
 The AI-turn job table: one row per inbound message, claimed under a five-minute lease.

 The row functions are what the SQL and Prisma updates write; `JobStore` performs them in
 place, and `TurnProtocol` interleaves them between any number of workers.
 */
module TurnJobs {
  import opened Outcomes
  import opened Whitespace

  type Id = nat
  type Time = int

  const LEASE_MS: int := 5 * 60 * 1000
  const DEFAULT_MAX_ATTEMPTS: nat := 3
  const MAX_ERROR_CHARACTERS: nat := 1000

  datatype Status = Queued | Running | Succeeded | Failed

  datatype Job = Job(
    organization: Id,
    message: Id,
    createdAt: Time,
    status: Status,
    attempts: nat,
    maxAttempts: nat,
    lockedAt: Option<Time>,
    runId: Option<Id>,
    lastError: Option<string>)

  datatype Message = Message(id: Id, inbound: bool, fromContact: bool, body: Option<string>)

  type Jobs = map<Id, Job>

  /** Queued, or running under a lease that ran out; a null `locked_at` never counts as expired. */
  predicate Eligible(job: Job, now: Time) {
    && (job.status == Queued
        || (job.status == Running && job.lockedAt.Some? && job.lockedAt.value < now - LEASE_MS))
    && job.attempts < job.maxAttempts
  }

  function NewJob(organization: Id, message: Id, now: Time): Job {
    Job(organization, message, now, Queued, 0, DEFAULT_MAX_ATTEMPTS, None, None, None)
  }

  function ClaimRow(job: Job, now: Time): Job {
    job.(status := Running, attempts := job.attempts + 1, lockedAt := Some(now))
  }

  function SucceedRow(job: Job, run: Id): Job {
    if job.status == Running
    then job.(status := Succeeded, runId := Some(run), lockedAt := None, lastError := None)
    else job
  }

  predicate Exhausted(job: Job) {
    job.attempts >= job.maxAttempts
  }

  /** The second half of `fail`: `exhausted` was decided by an earlier read. */
  function FailRow(job: Job, exhausted: bool, error: string): Job {
    if job.status == Running
    then job.(status := if exhausted then Failed else Queued, lockedAt := None,
              lastError := Some(if |error| <= MAX_ERROR_CHARACTERS then error else error[..MAX_ERROR_CHARACTERS]))
    else job
  }

  /** What the four statements write, spelled out. */
  lemma RowsWritten(job: Job, organization: Id, message: Id, run: Id, exhausted: bool, error: string, now: Time)
    ensures Eligible(job, now)
            <==> && job.attempts < job.maxAttempts
                 && (|| job.status == Queued
                     || (job.status == Running && job.lockedAt.Some? && now - job.lockedAt.value > 300_000))
    ensures NewJob(organization, message, now) == Job(organization, message, now, Queued, 0, 3, None, None, None)
    ensures ClaimRow(job, now) == job.(status := Running, attempts := job.attempts + 1, lockedAt := Some(now))
    ensures SucceedRow(job, run)
            == if job.status != Running then job
               else job.(status := Succeeded, runId := Some(run), lockedAt := None, lastError := None)
    ensures FailRow(job, exhausted, error)
            == if job.status != Running then job
               else job.(status := if exhausted then Failed else Queued, lockedAt := None,
                         lastError := Some(if |error| <= 1000 then error else error[..1000]))
  {
  }

  ghost predicate OneJobPerMessage(jobs: Jobs) {
    forall i, j :: i in jobs && j in jobs && jobs[i].message == jobs[j].message ==> i == j
  }

  /** The rows one claim may take: eligible, in the organization, not locked by another claim. */
  function Candidates(jobs: Jobs, organization: Id, now: Time, skipped: set<Id>): set<Id> {
    set id | id in jobs && id !in skipped && jobs[id].organization == organization && Eligible(jobs[id], now)
  }

  ghost predicate Oldest(jobs: Jobs, candidates: set<Id>, id: Id)
    requires candidates <= jobs.Keys
  {
    id in candidates && forall other :: other in candidates ==> jobs[id].createdAt <= jobs[other].createdAt
  }

  lemma OldestExists(jobs: Jobs, candidates: set<Id>) returns (id: Id)
    requires candidates <= jobs.Keys && candidates != {}
    ensures Oldest(jobs, candidates, id)
    decreases candidates
  {
    var first :| first in candidates;
    var rest := candidates - {first};
    assert forall other :: other in candidates ==> other == first || other in rest;
    id := first;
    if rest != {} {
      var other := OldestExists(jobs, rest);
      if jobs[other].createdAt < jobs[first].createdAt {
        id := other;
      }
    }
  }

  /** How the engine call of one turn ends, with or without its run row written. */
  datatype EngineEnd = Replied | ThrewBeforeRun(error: string) | ThrewAfterRun(error: string)

  /** The job after one undisturbed turn: linked to its run, or ended as the engine ended. */
  predicate LinkedOrEnded(job: Job, id: Id, runExisted: bool, engine: EngineEnd) {
    if runExisted || engine.Replied?
    then job.status == Succeeded && job.runId == Some(id) && job.lastError == None
    else && job.status == (if job.attempts < job.maxAttempts then Queued else Failed)
         && job.lastError == Some(if |engine.error| <= 1000 then engine.error else engine.error[..1000])
  }

  /** The job table and the run table, updated in place by the repository and the worker. */
  class JobStore {
    var jobs: Jobs
    var runs: set<Id>

    constructor ()
      ensures jobs == map[] && runs == {}
    {
      jobs, runs := map[], {};
    }

    /** At most one job per message: a second enqueue returns the row that is already there. */
    method Enqueue(organization: Id, message: Option<Message>, newId: Id, now: Time) returns (result: Result<Id>)
      requires newId !in jobs && OneJobPerMessage(jobs)
      modifies this`jobs
      ensures OneJobPerMessage(jobs)
      ensures result == Err(NotFound) <==> message.None?
      ensures result == Err(Unprocessable)
              <==> && message.Some?
                   && !(&& message.value.inbound && message.value.fromContact && message.value.body.Some?
                        && exists k :: 0 <= k < |message.value.body.value| && !Space(message.value.body.value[k]))
      ensures result.Err? ==> jobs == old(jobs)
      ensures result.Ok? ==> result.value in jobs && jobs[result.value].message == message.value.id
      ensures result.Ok? && result.value in old(jobs) ==> jobs == old(jobs)
      ensures result.Ok? && result.value !in old(jobs) ==>
                && result.value == newId
                && jobs == old(jobs)[newId :=
                     Job(organization, message.value.id, now, Queued, 0, 3, None, None, None)]
    {
      if message.None? {
        return Err(NotFound);
      }
      if !message.value.inbound || !message.value.fromContact {
        return Err(Unprocessable);
      }
      if message.value.body.None? || Blank(message.value.body.value) {
        return Err(Unprocessable);
      }
      var existing := set id | id in jobs && jobs[id].message == message.value.id;
      if existing == {} {
        assert forall id :: id in jobs && jobs[id].message == message.value.id ==> id in existing;
        jobs := jobs[newId := NewJob(organization, message.value.id, now)];
        return Ok(newId);
      }
      var id :| id in existing;
      return Ok(id);
    }

    /**
     Claims the oldest candidate, or nothing exactly when there is none. A candidate belongs to the
     organization, is not locked by another claim, has an attempt left, and is queued or was claimed more
     than five minutes ago.
     */
    method Claim(organization: Id, now: Time, skipped: set<Id>) returns (claimed: Option<Id>)
      modifies this`jobs
      ensures claimed.None?
              <==> forall id :: id in old(jobs) ==>
                     !(&& old(jobs)[id].organization == organization && id !in skipped
                       && old(jobs)[id].attempts < old(jobs)[id].maxAttempts
                       && (|| old(jobs)[id].status == Queued
                           || (&& old(jobs)[id].status == Running && old(jobs)[id].lockedAt.Some?
                               && now - old(jobs)[id].lockedAt.value > 300_000)))
      ensures claimed.Some? ==>
                var id := claimed.value;
                && id in old(jobs) && id !in skipped
                && old(jobs)[id].organization == organization
                && old(jobs)[id].attempts < old(jobs)[id].maxAttempts
                && (|| old(jobs)[id].status == Queued
                    || (&& old(jobs)[id].status == Running && old(jobs)[id].lockedAt.Some?
                        && now - old(jobs)[id].lockedAt.value > 300_000))
                && jobs == old(jobs)[id := old(jobs)[id].(status := Running,
                                                          attempts := old(jobs)[id].attempts + 1,
                                                          lockedAt := Some(now))]
      ensures claimed.Some? ==>
                forall id :: && id in old(jobs)
                             && old(jobs)[id].organization == organization && id !in skipped
                             && old(jobs)[id].attempts < old(jobs)[id].maxAttempts
                             && (|| old(jobs)[id].status == Queued
                                 || (&& old(jobs)[id].status == Running && old(jobs)[id].lockedAt.Some?
                                     && now - old(jobs)[id].lockedAt.value > 300_000)) ==>
                  old(jobs)[claimed.value].createdAt <= old(jobs)[id].createdAt
      ensures claimed.None? <==> Candidates(old(jobs), organization, now, skipped) == {}
      ensures claimed.None? ==> jobs == old(jobs)
      ensures claimed.Some? ==>
                && Oldest(old(jobs), Candidates(old(jobs), organization, now, skipped), claimed.value)
                && jobs == old(jobs)[claimed.value := ClaimRow(old(jobs)[claimed.value], now)]
    {
      var candidates := Candidates(jobs, organization, now, skipped);
      forall id | id in jobs && Eligible(jobs[id], now) && jobs[id].organization == organization && id !in skipped
        ensures id in candidates
      {
      }
      if candidates == {} {
        return None;
      }
      ghost var oldest := OldestExists(jobs, candidates);
      var id :| id in candidates && forall other :: other in candidates ==> jobs[id].createdAt <= jobs[other].createdAt;
      jobs := jobs[id := ClaimRow(jobs[id], now)];
      return Some(id);
    }

    method GetInput(id: Id) returns (result: Result<Id>)
      ensures result == if id in jobs && jobs[id].status == Running then Ok(jobs[id].message) else Err(NotFound)
    {
      if id in jobs && jobs[id].status == Running {
        return Ok(jobs[id].message);
      }
      return Err(NotFound);
    }

    method Succeed(id: Id, run: Id)
      modifies this`jobs
      ensures jobs.Keys == old(jobs.Keys) && forall other :: other in jobs && other != id ==> jobs[other] == old(jobs)[other]
      ensures id in jobs ==>
                jobs[id] == if old(jobs)[id].status != Running then old(jobs)[id]
                            else old(jobs)[id].(status := Succeeded, runId := Some(run), lockedAt := None, lastError := None)
      ensures jobs == if id in old(jobs) then old(jobs)[id := SucceedRow(old(jobs)[id], run)] else old(jobs)
    {
      if id in jobs {
        jobs := jobs[id := SucceedRow(jobs[id], run)];
      }
    }

    /** `fail` with nothing between its read and its update. */
    method Fail(id: Id, error: string) returns (result: Result<()>)
      modifies this`jobs
      ensures result == if id in old(jobs) then Ok(()) else Err(NotFound)
      ensures jobs.Keys == old(jobs.Keys) && forall other :: other in jobs && other != id ==> jobs[other] == old(jobs)[other]
      ensures id in jobs ==>
                var job := old(jobs)[id];
                jobs[id] == if job.status != Running then job
                            else job.(status := if job.attempts < job.maxAttempts then Queued else Failed,
                                      lockedAt := None,
                                      lastError := Some(if |error| <= 1000 then error else error[..1000]))
      ensures jobs == if id in old(jobs)
                      then old(jobs)[id := FailRow(old(jobs)[id], Exhausted(old(jobs)[id]), error)]
                      else old(jobs)
    {
      if id !in jobs {
        return Err(NotFound);
      }
      var exhausted := jobs[id].attempts >= jobs[id].maxAttempts;
      jobs := jobs[id := FailRow(jobs[id], exhausted, error)];
      return Ok(());
    }

    /**
     One undisturbed turn of the worker. The provider is called exactly when no run row carries the
     job's id; the job always leaves `running`, and it is retried only while attempts are left.
     */
    method ProcessNext(organization: Id, now: Time, engine: EngineEnd) returns (job: Option<Id>, engineCalls: nat)
      modifies this
      ensures job.None? <==> Candidates(old(jobs), organization, now, {}) == {}
      ensures job.None? ==> jobs == old(jobs) && runs == old(runs) && engineCalls == 0
      ensures job.Some? ==>
                var id := job.value;
                && Oldest(old(jobs), Candidates(old(jobs), organization, now, {}), id)
                && old(jobs)[id].organization == organization && old(jobs)[id].attempts < old(jobs)[id].maxAttempts
                && jobs.Keys == old(jobs).Keys
                && (forall other :: other in jobs && other != id ==> jobs[other] == old(jobs)[other])
                && jobs[id].attempts == old(jobs)[id].attempts + 1
                && jobs[id].status != Running && jobs[id].lockedAt == None
                && engineCalls == (if id in old(runs) then 0 else 1)
                && LinkedOrEnded(jobs[id], id, id in old(runs), engine)
                && runs == if id !in old(runs) && !engine.ThrewBeforeRun? then old(runs) + {id} else old(runs)
    {
      engineCalls := 0;
      job := Claim(organization, now, {});
      if job.None? {
        return;
      }
      var id := job.value;
      if id in runs {
        Succeed(id, id);
        return;
      }
      var input := GetInput(id);
      engineCalls := 1;
      match engine
      case Replied =>
        runs := runs + {id};
        Succeed(id, id);
      case ThrewBeforeRun(error) =>
        var _ := Fail(id, error);
      case ThrewAfterRun(error) =>
        runs := runs + {id};
        var _ := Fail(id, error);
    }
  }
}
