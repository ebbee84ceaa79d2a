/**
 What the AI-turn protocol guarantees when no worker outlives its lease, and what it loses otherwise.

 A leased run is one where a worker acts on its job only within five minutes of its claim; after
 that it can only crash. Nothing in the code enforces this, so the last section gives the runs
 where a slow worker breaks each guarantee.
 */
module TurnLeases {
  import opened Outcomes
  import opened TurnJobs
  import opened TurnProtocol

  predicate Live(s: System, w: Id) {
    w in s.holders && s.now <= s.holders[w].claimedAt + LEASE_MS
  }

  predicate InLease(s: System, step: Step) {
    match step
    case Tick(_) | Enqueue(_, _, _) | Claim(_, _) | Crash(_) => true
    case _ => Live(s, step.worker)
  }

  ghost predicate LeasedRun(s: System, steps: seq<Step>)
    decreases |steps|
  {
    steps == []
    || (Enabled(s, steps[0]) && InLease(s, steps[0]) && LeasedRun(Next(s, steps[0]), steps[1..]))
  }

  lemma {:induction false} LeasedRunIsRun(s: System, steps: seq<Step>)
    requires LeasedRun(s, steps)
    ensures Run(s, steps)
    decreases |steps|
  {
    if steps != [] {
      LeasedRunIsRun(Next(s, steps[0]), steps[1..]);
    }
  }

  predicate SearchedNotWritten(phase: Phase) {
    phase.Reading? || phase.Calling? || phase.Drafting?
  }

  /** What a worker inside its lease may rely on about its job. */
  predicate LeaseHonoured(s: System, w: Id)
    requires w in s.holders && s.holders[w].job in s.jobs
  {
    var h := s.holders[w];
    var job := s.jobs[h.job];
    && h.claimedAt <= s.now
    && (Live(s, w) ==>
          && job.attempts == h.ticket
          && ((job.status == Running && job.lockedAt == Some(h.claimedAt))
              || (job.status == Succeeded && !Trying(h.phase)))
          && (SearchedNotWritten(h.phase) ==> h.job !in s.runs)
          && (h.phase.Deciding? && job.status == Running ==> (h.phase.exhausted <==> Exhausted(job))))
  }

  predicate Retryable(job: Job) {
    job.status == Queued ==> job.attempts < job.maxAttempts
  }

  ghost predicate QueuedRetryable(s: System) {
    forall id :: id in s.jobs ==> Retryable(s.jobs[id])
  }

  ghost predicate Leased(s: System) {
    && Ticketed(s)
    && (forall w :: w in s.holders ==> LeaseHonoured(s, w))
    && QueuedRetryable(s)
  }

  /** At most one live worker holds a given job. */
  lemma LiveHoldersAgree(s: System, v: Id, w: Id)
    requires Leased(s) && Live(s, v) && Live(s, w) && s.holders[v].job == s.holders[w].job
    ensures v == w
  {
  }

  lemma OwnStepHonours(s: System, step: Step, w: Id)
    requires Leased(s) && Enabled(s, step) && InLease(s, step)
    requires w in Next(s, step).holders && Ticketed(Next(s, step))
    requires !step.Tick? && !step.Enqueue? && step.worker == w
    ensures TicketFits(Next(s, step), w) && LeaseHonoured(Next(s, step), w)
  {
    assert TicketFits(Next(s, step), w);
    if !step.Claim? {
      assert LeaseHonoured(s, w);
    }
  }

  lemma OtherStepHonours(s: System, step: Step, w: Id)
    requires Leased(s) && Enabled(s, step) && InLease(s, step)
    requires w in Next(s, step).holders && w in s.holders && Ticketed(Next(s, step))
    requires step.Tick? || step.Enqueue? || step.worker != w
    ensures TicketFits(Next(s, step), w) && LeaseHonoured(Next(s, step), w)
  {
    assert TicketFits(Next(s, step), w) && TicketFits(s, w) && LeaseHonoured(s, w);
    HolderChange(s, step, w);
    RowChange(s, step, s.holders[w].job);
    if Live(s, w) && !step.Tick? && !step.Enqueue? && !step.Claim? && !step.Crash? {
      if s.holders[step.worker].job == s.holders[w].job {
        LiveHoldersAgree(s, step.worker, w);
      }
    }
  }

  lemma StepKeepsRetryable(s: System, step: Step)
    requires Leased(s) && Enabled(s, step) && InLease(s, step)
    ensures QueuedRetryable(Next(s, step))
  {
  }

  lemma StepKeepsLeased(s: System, step: Step)
    requires Leased(s) && Enabled(s, step) && InLease(s, step)
    ensures Leased(Next(s, step))
  {
    StepKeepsTickets(s, step);
    StepKeepsRetryable(s, step);
    forall w | w in Next(s, step).holders
      ensures TicketFits(Next(s, step), w) && LeaseHonoured(Next(s, step), w)
    {
      HolderChange(s, step, w);
      if !step.Tick? && !step.Enqueue? && step.worker == w {
        OwnStepHonours(s, step, w);
      } else {
        OtherStepHonours(s, step, w);
      }
    }
  }

  lemma {:induction false} LeasedRunKeepsLeased(s: System, steps: seq<Step>)
    requires Leased(s) && LeasedRun(s, steps)
    ensures Run(s, steps) && Leased(After(s, steps))
    decreases |steps|
  {
    LeasedRunIsRun(s, steps);
    if steps != [] {
      StepKeepsLeased(s, steps[0]);
      LeasedRunKeepsLeased(Next(s, steps[0]), steps[1..]);
    }
  }

  /** In every leased run, one live worker per job, and every queued job has an attempt left. */
  lemma LeasedSafety(steps: seq<Step>)
    requires LeasedRun(INITIAL, steps)
    ensures Run(INITIAL, steps)
    ensures var s := After(INITIAL, steps);
            && (forall v, w :: Live(s, v) && Live(s, w) && s.holders[v].job == s.holders[w].job ==> v == w)
            && (forall id :: id in s.jobs && s.jobs[id].status == Queued ==> s.jobs[id].attempts < s.jobs[id].maxAttempts)
  {
    LeasedRunKeepsLeased(INITIAL, steps);
    var s := After(INITIAL, steps);
    forall v, w | Live(s, v) && Live(s, w) && s.holders[v].job == s.holders[w].job ensures v == w {
      LiveHoldersAgree(s, v, w);
    }
    forall id | id in s.jobs && s.jobs[id].status == Queued ensures s.jobs[id].attempts < s.jobs[id].maxAttempts {
      assert Retryable(s.jobs[id]);
    }
  }

  /**
   In every leased run the provider is called only while the job has no run row, and the run row
   that a live worker is about to insert is never already there.
   */
  lemma LeasedCallsPrecedeRun(steps: seq<Step>, w: Id)
    requires LeasedRun(INITIAL, steps)
    ensures Run(INITIAL, steps)
    ensures var s := After(INITIAL, steps);
            && (Enabled(s, CallEngine(w)) && InLease(s, CallEngine(w)) ==> s.holders[w].job !in s.runs)
            && (Live(s, w) && s.holders[w].phase.Drafting? ==> Enabled(s, WriteRun(w)))
  {
    LeasedRunKeepsLeased(INITIAL, steps);
    var s := After(INITIAL, steps);
    if w in s.holders {
      assert TicketFits(s, w) && LeaseHonoured(s, w);
    }
  }

  /** In every leased run a live worker whose lookup found no run finds its input: `getInput` never fails. */
  lemma LeasedInputFound(steps: seq<Step>, w: Id)
    requires LeasedRun(INITIAL, steps)
    ensures Run(INITIAL, steps)
    ensures var s := After(INITIAL, steps);
            Live(s, w) && s.holders[w].phase.Reading? ==> Enabled(s, ReadInput(w))
  {
    LeasedRunKeepsLeased(INITIAL, steps);
    var s := After(INITIAL, steps);
    if w in s.holders {
      assert TicketFits(s, w) && LeaseHonoured(s, w);
    }
  }

  // ---------------------------------------------------------------------------------------------
  // Without the lease discipline
  // ---------------------------------------------------------------------------------------------

  /** A retry decided from a count that later claims have since used up. */
  predicate StaleRequeue(s: System, step: Step)
    requires Enabled(s, step)
  {
    && step.WriteFailure?
    && s.holders[step.worker].phase == Deciding(false)
    && s.jobs[s.holders[step.worker].job].status == Running
    && Exhausted(s.jobs[s.holders[step.worker].job])
  }

  /** In any run at all, the stale requeue is the one step that leaves a queued job without attempts. */
  lemma OnlyStaleRequeueStrands(s: System, step: Step)
    requires Enabled(s, step) && QueuedRetryable(s)
    ensures QueuedRetryable(Next(s, step)) <==> !StaleRequeue(s, step)
  {
    var after := Next(s, step);
    if StaleRequeue(s, step) {
      var id := s.holders[step.worker].job;
      assert id in after.jobs && !Retryable(after.jobs[id]);
    } else {
      forall id | id in after.jobs ensures Retryable(after.jobs[id]) {
        RowChange(s, step, id);
        assert id in s.jobs ==> Retryable(s.jobs[id]);
      }
    }
  }

  /** In any run, a worker loses its input exactly when another holder of the job ends it first. */
  lemma InputLostExactly(s: System, step: Step, w: Id)
    requires Enabled(s, ReadInput(w)) && Enabled(s, step)
    requires w in Next(s, step).holders && Next(s, step).holders[w] == s.holders[w]
    ensures !Enabled(Next(s, step), ReadInput(w))
            <==> && (step.Succeed? || step.WriteFailure?)
                 && step.worker != w && s.holders[step.worker].job == s.holders[w].job
  {
    JobsGrow(s, step);
    RowChange(s, step, s.holders[w].job);
  }

  predicate SearchedInVain(phase: Phase) {
    phase.Reading? || phase.Calling?
  }

  /** A worker that found no run and is still to call, although the run is there. */
  predicate StandsOverRun(s: System, w: Id, t: Ticket) {
    w in s.holders && TicketOf(s.holders[w]) == t && SearchedInVain(s.holders[w].phase) && t.job in s.runs
  }

  /** Another worker writes the run of the job between this worker's vain lookup and its call. */
  predicate Crosses(s: System, step: Step, w: Id, t: Ticket) {
    && w in s.holders && TicketOf(s.holders[w]) == t && SearchedInVain(s.holders[w].phase)
    && step.WriteRun? && step.worker != w && Enabled(s, step) && s.holders[step.worker].job == t.job
  }

  lemma CrossedExactly(s: System, step: Step, w: Id, t: Ticket)
    requires Enabled(s, step) && !StandsOverRun(s, w, t)
    ensures StandsOverRun(Next(s, step), w, t) <==> Crosses(s, step, w, t)
  {
    if w in Next(s, step).holders {
      HolderChange(s, step, w);
    }
  }

  ghost predicate CrossedAt(s: System, steps: seq<Step>, k: nat, w: Id, t: Ticket) {
    k < |steps| && Run(s, steps[..k]) && Crosses(After(s, steps[..k]), steps[k], w, t)
  }

  lemma {:induction false} StandsOnceCrossed(s: System, steps: seq<Step>, w: Id, t: Ticket) returns (k: nat)
    requires Run(s, steps) && !StandsOverRun(s, w, t) && StandsOverRun(After(s, steps), w, t)
    ensures CrossedAt(s, steps, k, w, t)
    decreases |steps|
  {
    CrossedExactly(s, steps[0], w, t);
    if Crosses(s, steps[0], w, t) {
      k := 0;
      assert steps[..0] == [];
    } else {
      var j := StandsOnceCrossed(Next(s, steps[0]), steps[1..], w, t);
      k := j + 1;
      assert steps[..k][1..] == steps[1..][..j] && steps[..k][0] == steps[0];
    }
  }

  lemma {:induction false} CrossingStays(s: System, steps: seq<Step>, k: nat, w: Id, t: Ticket)
    requires Run(s, steps) && CrossedAt(s, steps, k, w, t)
    ensures t.job in After(s, steps).runs
    decreases |steps|
  {
    if k == 0 {
      assert steps[..0] == [];
      RunsGrow(Next(s, steps[0]), steps[1..]);
    } else {
      assert steps[..k][1..] == steps[1..][..k - 1] && steps[..k][0] == steps[0];
      CrossingStays(Next(s, steps[0]), steps[1..], k - 1, w, t);
    }
  }

  lemma {:induction false} RunsGrow(s: System, steps: seq<Step>)
    requires Run(s, steps)
    ensures s.runs <= After(s, steps).runs
    decreases |steps|
  {
    if steps != [] {
      JobsGrow(s, steps[0]);
      RunsGrow(Next(s, steps[0]), steps[1..]);
    }
  }

  /**
   In any run, the provider is called for a job that already has its run row exactly when another
   worker wrote that row between this claim's vain lookup and its call.
   */
  lemma SecondCallExactly(steps: seq<Step>, w: Id)
    requires Run(INITIAL, steps) && Enabled(After(INITIAL, steps), CallEngine(w))
    ensures var s := After(INITIAL, steps);
            s.holders[w].job in s.runs <==> exists k :: CrossedAt(INITIAL, steps, k, w, TicketOf(s.holders[w]))
  {
    var s := After(INITIAL, steps);
    var t := TicketOf(s.holders[w]);
    if s.holders[w].job in s.runs {
      var k := StandsOnceCrossed(INITIAL, steps, w, t);
    }
    if k :| CrossedAt(INITIAL, steps, k, w, t) {
      CrossingStays(INITIAL, steps, k, w, t);
    }
  }

  /** As long as everyone has acted within its lease, a crossing means one of the two has outlived its own. */
  lemma CrossingOutlivesLease(steps: seq<Step>, step: Step, w: Id, t: Ticket)
    requires LeasedRun(INITIAL, steps)
    ensures Run(INITIAL, steps)
    ensures var s := After(INITIAL, steps);
            Crosses(s, step, w, t) ==> !Live(s, w) || !Live(s, step.worker)
  {
    LeasedRunKeepsLeased(INITIAL, steps);
    var s := After(INITIAL, steps);
    if Crosses(s, step, w, t) && Live(s, w) && Live(s, step.worker) {
      LiveHoldersAgree(s, w, step.worker);
    }
  }

  lemma {:induction false} RunExtends(s: System, steps: seq<Step>, step: Step)
    requires Run(s, steps) && Enabled(After(s, steps), step)
    ensures Run(s, steps + [step]) && After(s, steps + [step]) == Next(After(s, steps), step)
    decreases |steps|
  {
    if steps == [] {
      assert steps + [step] == [step];
      assert [step][1..] == [];
    } else {
      RunExtends(Next(s, steps[0]), steps[1..], step);
      assert (steps + [step])[1..] == steps[1..] + [step];
    }
  }

  ghost predicate Reachable(s: System) {
    exists steps :: Run(INITIAL, steps) && After(INITIAL, steps) == s
  }

  lemma ReachableStep(s: System, step: Step) returns (after: System)
    requires Reachable(s) && Enabled(s, step)
    ensures after == Next(s, step) && Reachable(after)
  {
    var steps :| Run(INITIAL, steps) && After(INITIAL, steps) == s;
    RunExtends(INITIAL, steps, step);
    after := Next(s, step);
    assert Run(INITIAL, steps + [step]) && After(INITIAL, steps + [step]) == after;
  }

  const EXPIRED: Step := Tick(LEASE_MS + 1)

  /** Some run enqueues job 0 and lets worker 1 claim it. */
  lemma FirstClaim() returns (s: System)
    ensures Reachable(s) && s.now == 0 && s.runs == {}
    ensures s.jobs == map[0 := ClaimRow(NewJob(0, 0, 0), 0)]
    ensures s.holders == map[1 := Holder(0, 1, 0, Looking)]
  {
    assert Run(INITIAL, []) && After(INITIAL, []) == INITIAL;
    s := ReachableStep(INITIAL, Enqueue(0, 0, 0));
    s := ReachableStep(s, Claim(1, 0));
  }

  /** Once the lease is over, another worker may claim the job while attempts are left. */
  lemma ClaimExpired(s: System, worker: Id) returns (after: System)
    requires Reachable(s) && worker !in s.holders && 0 in s.jobs
    requires s.jobs[0].status == Running && s.jobs[0].lockedAt == Some(s.now) && !Exhausted(s.jobs[0])
    ensures Reachable(after) && after.runs == s.runs && after.now == s.now + LEASE_MS + 1
    ensures after.jobs == s.jobs[0 := ClaimRow(s.jobs[0], after.now)]
    ensures after.holders == s.holders[worker := Holder(0, s.jobs[0].attempts + 1, after.now, Looking)]
  {
    after := ReachableStep(s, EXPIRED);
    after := ReachableStep(after, Claim(worker, 0));
  }

  /** Worker 1 outlives its lease between the two halves of `fail` and requeues an exhausted job. */
  lemma SlowFailureStrandsJob() returns (s: System)
    ensures Reachable(s) && 0 in s.jobs
    ensures s.jobs[0].status == Queued && s.jobs[0].attempts == s.jobs[0].maxAttempts
  {
    s := FirstClaim();
    s := ReachableStep(s, Throw(1));
    s := ReachableStep(s, ReadAttempts(1));
    s := ClaimExpired(s, 2);
    s := ClaimExpired(s, 3);
    s := ReachableStep(s, WriteFailure(1, ""));
  }

  lemma SearchInVain(s: System, worker: Id) returns (after: System)
    requires Reachable(s) && Holding(s, worker) && s.holders[worker].phase == Looking
    requires s.holders[worker].job !in s.runs && s.jobs[s.holders[worker].job].status == Running
    ensures Reachable(after) && after.runs == s.runs && after.jobs == s.jobs && after.now == s.now
    ensures after.holders == s.holders[worker := s.holders[worker].(phase := Calling)]
  {
    after := ReachableStep(s, FindRun(worker));
    after := ReachableStep(after, ReadInput(worker));
  }

  /** Worker 1 outlives its lease before its call: the provider is called although the run row exists. */
  lemma SlowWorkerCallsTwice() returns (s: System)
    ensures Reachable(s) && Enabled(s, CallEngine(1)) && s.holders[1].job == 0 && 0 in s.runs
  {
    s := FirstClaim();
    s := SearchInVain(s, 1);
    s := ClaimExpired(s, 2);
    s := SearchInVain(s, 2);
    s := ReachableStep(s, CallEngine(2));
    s := ReachableStep(s, WriteRun(2));
  }
}
