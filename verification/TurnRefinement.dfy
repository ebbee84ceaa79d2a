/**
 One undisturbed turn of a worker as a run of the protocol's single steps, for every way it can end: the
 turn that `JobStore.ProcessNext` performs in place.
 */
module TurnRefinement {
  import opened Outcomes
  import opened TurnJobs
  import opened TurnProtocol
  import opened TurnStalls

  /** What an undisturbed turn leaves of the claimed row. */
  ghost predicate TurnLeaves(job: Job, before: Job, id: Id, runExisted: bool, engine: EngineEnd) {
    && job.attempts == before.attempts + 1 && job.maxAttempts == before.maxAttempts
    && job.organization == before.organization && job.message == before.message && job.createdAt == before.createdAt
    && job.status != Running && job.lockedAt == None
    && LinkedOrEnded(job, id, runExisted, engine)
  }

  /** From a claimed row whose run was found. */
  lemma FoundIsRun(s: System, d: System, w: Id) returns (after: System)
    requires Leads(s, d) && Holding(d, w) && d.holders[w].phase.Linking?
    ensures Leads(s, after) && after.holders == d.holders - {w} && after.runs == d.runs && after.calls == d.calls
    ensures var id := d.holders[w].job; after.jobs == d.jobs[id := SucceedRow(d.jobs[id], id)]
  {
    after := LeadsOn(s, d, Succeed(w, true));
  }

  /** From a thrown error: the read of `fail` and its update. */
  lemma FailureIsRun(s: System, d: System, w: Id, error: string) returns (after: System)
    requires Leads(s, d) && Holding(d, w) && d.holders[w].phase.Failing?
    ensures Leads(s, after) && after.holders == d.holders - {w} && after.runs == d.runs && after.calls == d.calls
    ensures var id := d.holders[w].job; after.jobs == d.jobs[id := FailRow(d.jobs[id], Exhausted(d.jobs[id]), error)]
  {
    after := LeadsOn(s, d, ReadAttempts(w));
    after := LeadsOn(s, after, WriteFailure(w, error));
  }

  /** From the start of the engine to the worker's end. */
  lemma EngineIsRun(s: System, d: System, w: Id, engine: EngineEnd) returns (after: System)
    requires Leads(s, d) && Holding(d, w) && d.holders[w].phase.Drafting? && d.holders[w].job !in d.runs
    ensures Leads(s, after) && after.holders == d.holders - {w} && after.calls == d.calls
    ensures var id := d.holders[w].job;
            && after.runs == (if engine.ThrewBeforeRun? then d.runs else d.runs + {id})
            && after.jobs == d.jobs[id := if engine.Replied? then SucceedRow(d.jobs[id], id)
                                          else FailRow(d.jobs[id], Exhausted(d.jobs[id]), engine.error)]
  {
    match engine
    case Replied =>
      after := LeadsOn(s, d, WriteRun(w));
      after := LeadsOn(s, after, EngineReturns(w));
      after := LeadsOn(s, after, Succeed(w, true));
    case ThrewBeforeRun(error) =>
      after := LeadsOn(s, d, Throw(w));
      after := FailureIsRun(s, after, w, error);
    case ThrewAfterRun(error) =>
      after := LeadsOn(s, d, WriteRun(w));
      after := LeadsOn(s, after, Throw(w));
      after := FailureIsRun(s, after, w, error);
  }

  /** From the claim to the lookup's answer. */
  lemma ClaimIsRun(s: System, w: Id, id: Id) returns (after: System)
    requires w !in s.holders && id in s.jobs && Eligible(s.jobs[id], s.now)
    ensures Leads(s, after) && after.jobs == s.jobs[id := ClaimRow(s.jobs[id], s.now)]
    ensures after.runs == s.runs && after.calls == s.calls
    ensures after.holders
            == s.holders[w := Holder(id, s.jobs[id].attempts + 1, s.now, if id in s.runs then Linking else Reading)]
  {
    LeadsNowhere(s);
    after := LeadsOn(s, s, Claim(w, id));
    after := LeadsOn(s, after, FindRun(w));
  }

  /** A whole turn: one claim, no call over an existing run and one call without it, and the row ended as it should. */
  lemma TurnIsRun(s: System, w: Id, id: Id, engine: EngineEnd) returns (after: System)
    requires w !in s.holders && id in s.jobs && Eligible(s.jobs[id], s.now)
    ensures Leads(s, after) && after.holders == s.holders
    ensures after.calls == s.calls + (if id in s.runs then multiset{} else multiset{id})
    ensures after.runs == if id !in s.runs && !engine.ThrewBeforeRun? then s.runs + {id} else s.runs
    ensures after.jobs.Keys == s.jobs.Keys
            && (forall other :: other in s.jobs && other != id ==> after.jobs[other] == s.jobs[other])
            && TurnLeaves(after.jobs[id], s.jobs[id], id, id in s.runs, engine)
  {
    after := ClaimIsRun(s, w, id);
    if id in s.runs {
      after := FoundIsRun(s, after, w);
    } else {
      after := LeadsOn(s, after, ReadInput(w));
      after := LeadsOn(s, after, CallEngine(w));
      after := EngineIsRun(s, after, w, engine);
    }
    assert after.holders == s.holders;
  }
}
