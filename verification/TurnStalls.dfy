/**
 Which jobs can still get anywhere: for every reachable state, exactly the rows that some
 continuation changes.
 */
module TurnStalls {
  import opened Outcomes
  import opened TurnJobs
  import opened TurnProtocol
  import opened TurnGuarantees
  import opened TurnLeases

  /** No attempt is left, and nobody holds the job who could still end it. */
  predicate Stuck(s: System, id: Id)
    requires id in s.jobs
  {
    && Exhausted(s.jobs[id])
    && (|| s.jobs[id].status == Queued
        || (s.jobs[id].status == Running && forall w :: w in s.holders ==> s.holders[w].job != id))
  }

  ghost predicate Leads(s: System, d: System) {
    exists steps :: Run(s, steps) && After(s, steps) == d
  }

  /** Some continuation changes the row. */
  ghost predicate CanChange(s: System, id: Id)
    requires id in s.jobs
  {
    exists d :: Leads(s, d) && id in d.jobs && d.jobs[id] != s.jobs[id]
  }

  /** A running job carries the time of its claim. */
  ghost predicate Locked(s: System) {
    forall id :: id in s.jobs && s.jobs[id].status == Running ==> s.jobs[id].lockedAt.Some?
  }

  lemma {:induction false} RunKeepsLocked(s: System, steps: seq<Step>)
    requires Locked(s) && Run(s, steps)
    ensures Locked(After(s, steps))
    decreases |steps|
  {
    if steps != [] {
      forall id | id in Next(s, steps[0]).jobs && Next(s, steps[0]).jobs[id].status == Running
        ensures Next(s, steps[0]).jobs[id].lockedAt.Some?
      {
        RowChange(s, steps[0], id);
      }
      RunKeepsLocked(Next(s, steps[0]), steps[1..]);
    }
  }

  lemma {:induction false} StuckForever(s: System, steps: seq<Step>, id: Id)
    requires Run(s, steps) && id in s.jobs && Stuck(s, id)
    ensures id in After(s, steps).jobs && After(s, steps).jobs[id] == s.jobs[id]
    decreases |steps|
  {
    if steps != [] {
      var after := Next(s, steps[0]);
      JobsGrow(s, steps[0]);
      RowChange(s, steps[0], id);
      if s.jobs[id].status == Running {
        forall w | w in after.holders ensures after.holders[w].job != id {
          HolderChange(s, steps[0], w);
        }
      }
      StuckForever(after, steps[1..], id);
    }
  }

  lemma LeadsOn(s: System, d: System, step: Step) returns (after: System)
    requires Leads(s, d) && Enabled(d, step)
    ensures after == Next(d, step) && Leads(s, after)
  {
    var steps :| Run(s, steps) && After(s, steps) == d;
    RunExtends(s, steps, step);
    after := Next(d, step);
    assert Run(s, steps + [step]) && After(s, steps + [step]) == after;
  }

  lemma LeadsNowhere(s: System)
    ensures Leads(s, s)
  {
    assert Run(s, []) && After(s, []) == s;
  }

  lemma {:induction false} FreshWorker(workers: set<Id>) returns (w: Id)
    ensures w !in workers && forall v :: v in workers ==> v < w
    decreases workers
  {
    if workers == {} {
      w := 0;
    } else {
      var v :| v in workers;
      var rest := FreshWorker(workers - {v});
      w := if rest > v then rest else v + 1;
      forall u | u in workers ensures u < w {
        assert u == v || u in workers - {v};
      }
    }
  }

  /** With an attempt left the job can be claimed, once its lease is over if it runs. */
  lemma ClaimableChanges(s: System, id: Id)
    requires id in s.jobs && !Final(s.jobs[id]) && !Exhausted(s.jobs[id]) && Locked(s)
    ensures CanChange(s, id)
  {
    LeadsNowhere(s);
    var w := FreshWorker(s.holders.Keys);
    var d := s;
    if s.jobs[id].status == Running {
      var over := s.jobs[id].lockedAt.value + LEASE_MS + 1 - s.now;
      d := LeadsOn(s, d, Tick(if over < 0 then 0 else over));
    }
    d := LeadsOn(s, d, Claim(w, id));
    assert d.jobs[id].attempts == s.jobs[id].attempts + 1;
  }

  /** Whoever holds a running job can still fail it. */
  lemma HeldChanges(s: System, id: Id, w: Id)
    requires id in s.jobs && s.jobs[id].status == Running && w in s.holders && s.holders[w].job == id
    ensures CanChange(s, id)
  {
    LeadsNowhere(s);
    var d := s;
    if Trying(d.holders[w].phase) {
      d := LeadsOn(s, d, Throw(w));
    }
    if d.holders[w].phase.Failing? {
      d := LeadsOn(s, d, ReadAttempts(w));
    }
    d := LeadsOn(s, d, WriteFailure(w, ""));
    assert d.jobs[id].status != Running;
  }

  /**
   In every reachable state a row can still change exactly when it is neither final nor stuck: with no
   attempt left and queued, or running without a holder.
   */
  lemma ChangesExactlyUnlessStuck(steps: seq<Step>, id: Id)
    requires Run(INITIAL, steps) && id in After(INITIAL, steps).jobs
    ensures var s := After(INITIAL, steps);
            CanChange(s, id) <==> !Final(s.jobs[id]) && !Stuck(s, id)
  {
    RunKeepsLocked(INITIAL, steps);
    var s := After(INITIAL, steps);
    if !Final(s.jobs[id]) && !Stuck(s, id) {
      if !Exhausted(s.jobs[id]) {
        ClaimableChanges(s, id);
      } else {
        var w :| w in s.holders && s.holders[w].job == id;
        HeldChanges(s, id, w);
      }
    } else {
      forall d | Leads(s, d) ensures id in d.jobs && d.jobs[id] == s.jobs[id] {
        var more :| Run(s, more) && After(s, more) == d;
        if Final(s.jobs[id]) {
          FinalForever(s, more, id);
        } else {
          StuckForever(s, more, id);
        }
      }
    }
  }
}
