/**
 The AI-turn worker protocol: any number of workers, one database clock, a crash at any point.

 A step is one database statement or one provider call of one worker. `fail` is two steps, its
 read and its update. No step checks who owns the lease, exactly as in the repository.
 */
module TurnProtocol {
  import opened Outcomes
  import opened TurnJobs

  /** Where a worker stands inside `processNextAiTurn`. */
  datatype Phase =
    | Looking                     // claimed; the run lookup has not been made
    | Linking                     // the lookup found the run; `succeed` is next
    | Reading                     // the lookup found nothing; `getInput` is next
    | Calling                     // the input is read; the engine is next
    | Drafting                    // the engine runs; its run row is not written
    | Recorded                    // the run row is written; the engine has not returned
    | Returned                    // the engine returned; `succeed` is next
    | Failing                     // something threw; the read of `fail` is next
    | Deciding(exhausted: bool)   // the read of `fail` is done; its update is next

  predicate Trying(phase: Phase) {
    !phase.Failing? && !phase.Deciding?
  }

  /** A worker holding a job. The ticket is the value of `attempts` that its claim wrote. */
  datatype Holder = Holder(job: Id, ticket: nat, claimedAt: Time, phase: Phase)

  datatype Ticket = Ticket(job: Id, number: nat)

  /**
   The database, the workers, and three histories: the claims and engine calls per job, the
   tickets that called the engine, and the tickets whose lookup found the run.
   */
  datatype System = System(
    now: Time,
    jobs: Jobs,
    runs: set<Id>,
    holders: map<Id, Holder>,
    claims: multiset<Id>,
    calls: multiset<Id>,
    called: set<Ticket>,
    linked: set<Ticket>)

  datatype Step =
    | Tick(elapsed: nat)
    | Enqueue(id: Id, organization: Id, message: Id)
    | Claim(worker: Id, id: Id)
    | FindRun(worker: Id)
    | ReadInput(worker: Id)
    | CallEngine(worker: Id)
    | WriteRun(worker: Id)
    | EngineReturns(worker: Id)
    | Succeed(worker: Id, acknowledged: bool)
    | Throw(worker: Id)
    | ReadAttempts(worker: Id)
    | WriteFailure(worker: Id, error: string)
    | Crash(worker: Id)

  const INITIAL: System := System(0, map[], {}, map[], multiset{}, multiset{}, {}, {})

  predicate Holding(s: System, worker: Id) {
    worker in s.holders && s.holders[worker].job in s.jobs
  }

  predicate Enabled(s: System, step: Step) {
    match step
    case Tick(_) => true
    case Enqueue(id, _, message) =>
      id !in s.jobs && forall other :: other in s.jobs ==> s.jobs[other].message != message
    case Claim(worker, id) => worker !in s.holders && id in s.jobs && Eligible(s.jobs[id], s.now)
    case FindRun(worker) => Holding(s, worker) && s.holders[worker].phase.Looking?
    case ReadInput(worker) =>
      Holding(s, worker) && s.holders[worker].phase.Reading? && s.jobs[s.holders[worker].job].status == Running
    case CallEngine(worker) => Holding(s, worker) && s.holders[worker].phase.Calling?
    case WriteRun(worker) => Holding(s, worker) && s.holders[worker].phase.Drafting? && s.holders[worker].job !in s.runs
    case EngineReturns(worker) => Holding(s, worker) && s.holders[worker].phase.Recorded?
    case Succeed(worker, _) => Holding(s, worker) && (s.holders[worker].phase.Linking? || s.holders[worker].phase.Returned?)
    case Throw(worker) => Holding(s, worker) && Trying(s.holders[worker].phase)
    case ReadAttempts(worker) => Holding(s, worker) && s.holders[worker].phase.Failing?
    case WriteFailure(worker, _) => Holding(s, worker) && s.holders[worker].phase.Deciding?
    case Crash(worker) => worker in s.holders
  }

  function Move(s: System, worker: Id, phase: Phase): System
    requires worker in s.holders
  {
    s.(holders := s.holders[worker := s.holders[worker].(phase := phase)])
  }

  function Leave(s: System, worker: Id): System {
    s.(holders := s.holders - {worker})
  }

  function Next(s: System, step: Step): System
    requires Enabled(s, step)
  {
    match step
    case Tick(elapsed) => s.(now := s.now + elapsed)
    case Enqueue(id, organization, message) => s.(jobs := s.jobs[id := NewJob(organization, message, s.now)])
    case Claim(worker, id) =>
      var claimed := ClaimRow(s.jobs[id], s.now);
      s.(jobs := s.jobs[id := claimed],
         claims := s.claims + multiset{id},
         holders := s.holders[worker := Holder(id, claimed.attempts, s.now, Looking)])
    case FindRun(worker) =>
      var holder := s.holders[worker];
      if holder.job in s.runs
      then Move(s.(linked := s.linked + {Ticket(holder.job, holder.ticket)}), worker, Linking)
      else Move(s, worker, Reading)
    case ReadInput(worker) => Move(s, worker, Calling)
    case CallEngine(worker) =>
      var holder := s.holders[worker];
      Move(s.(calls := s.calls + multiset{holder.job},
              called := s.called + {Ticket(holder.job, holder.ticket)}), worker, Drafting)
    case WriteRun(worker) => Move(s.(runs := s.runs + {s.holders[worker].job}), worker, Recorded)
    case EngineReturns(worker) => Move(s, worker, Returned)
    case Succeed(worker, acknowledged) =>
      var id := s.holders[worker].job;
      var written := s.(jobs := s.jobs[id := SucceedRow(s.jobs[id], id)]);
      if acknowledged then Leave(written, worker) else Move(written, worker, Failing)
    case Throw(worker) => Move(s, worker, Failing)
    case ReadAttempts(worker) => Move(s, worker, Deciding(Exhausted(s.jobs[s.holders[worker].job])))
    case WriteFailure(worker, error) =>
      var holder := s.holders[worker];
      Leave(s.(jobs := s.jobs[holder.job := FailRow(s.jobs[holder.job], holder.phase.exhausted, error)]), worker)
    case Crash(worker) => Leave(s, worker)
  }

  ghost predicate Run(s: System, steps: seq<Step>)
    decreases |steps|
  {
    steps == [] || (Enabled(s, steps[0]) && Run(Next(s, steps[0]), steps[1..]))
  }

  ghost function After(s: System, steps: seq<Step>): System
    requires Run(s, steps)
    decreases |steps|
  {
    if steps == [] then s else After(Next(s, steps[0]), steps[1..])
  }

  // ---------------------------------------------------------------------------------------------
  // What every step keeps, leases or not
  // ---------------------------------------------------------------------------------------------

  ghost predicate CountedClaims(s: System) {
    && (forall id :: id in s.jobs ==> s.jobs[id].attempts == s.claims[id])
    && (forall id :: id in s.jobs ==> s.jobs[id].attempts <= s.jobs[id].maxAttempts)
    && (forall id :: id in s.claims ==> id in s.jobs)
  }

  ghost predicate LinkedSuccess(s: System) {
    forall id :: id in s.jobs && s.jobs[id].status == Succeeded ==> s.jobs[id].runId == Some(id) && id in s.runs
  }

  predicate TicketFits(s: System, w: Id)
    requires w in s.holders
  {
    && s.holders[w].job in s.jobs
    && 1 <= s.holders[w].ticket <= s.jobs[s.holders[w].job].attempts
  }

  predicate TicketsDiffer(s: System, v: Id, w: Id)
    requires v in s.holders && w in s.holders
  {
    v != w ==> s.holders[v].job != s.holders[w].job || s.holders[v].ticket != s.holders[w].ticket
  }

  ghost predicate Ticketed(s: System) {
    && (forall w :: w in s.holders ==> TicketFits(s, w))
    && (forall v, w :: v in s.holders && w in s.holders ==> TicketsDiffer(s, v, w))
  }

  function TicketOf(holder: Holder): Ticket {
    Ticket(holder.job, holder.ticket)
  }

  predicate BeforeEngine(phase: Phase) {
    phase.Looking? || phase.Linking? || phase.Reading? || phase.Calling?
  }

  predicate PastRun(phase: Phase) {
    phase.Linking? || phase.Recorded? || phase.Returned?
  }

  ghost predicate Phased(s: System)
    requires Ticketed(s)
  {
    forall w :: w in s.holders ==>
      var h := s.holders[w];
      && (BeforeEngine(h.phase) ==> TicketOf(h) !in s.called)
      && (h.phase.Looking? || h.phase.Reading? || h.phase.Calling? ==> TicketOf(h) !in s.linked)
      && (PastRun(h.phase) ==> h.job in s.runs)
  }

  ghost predicate Histories(s: System) {
    && s.called !! s.linked
    && TicketsHeld(s.called, s.jobs) && TicketsHeld(s.linked, s.jobs)
    && CallsCounted(s.calls, s.called)
  }

  predicate TicketsHeld(tickets: set<Ticket>, jobs: Jobs) {
    forall t :: t in tickets ==> t.job in jobs && 1 <= t.number <= jobs[t.job].attempts
  }

  ghost predicate CallsCounted(calls: multiset<Id>, called: set<Ticket>) {
    forall id :: calls[id] == |CallsOf(called, id)|
  }

  function CallsOf(called: set<Ticket>, id: Id): set<Ticket> {
    set t | t in called && t.job == id
  }

  ghost predicate Consistent(s: System) {
    && CountedClaims(s)
    && LinkedSuccess(s)
    && Ticketed(s)
    && Phased(s)
    && Histories(s)
    && OneJobPerMessage(s.jobs)
  }

  lemma CallRecorded(called: set<Ticket>, t: Ticket, id: Id)
    requires t !in called
    ensures |CallsOf(called + {t}, id)| == |CallsOf(called, id)| + (if t.job == id then 1 else 0)
  {
    if t.job == id {
      assert CallsOf(called + {t}, id) == CallsOf(called, id) + {t};
    } else {
      assert CallsOf(called + {t}, id) == CallsOf(called, id);
    }
  }

  /** The only ways a step changes a row: creation, a claim, a success or a failure. */
  lemma RowChange(s: System, step: Step, id: Id)
    requires Enabled(s, step) && id in Next(s, step).jobs
    ensures id !in s.jobs ==> step.Enqueue? && step.id == id
    ensures id in s.jobs && Next(s, step).jobs[id] != s.jobs[id] ==>
              || (step.Claim? && step.id == id && Next(s, step).jobs[id] == ClaimRow(s.jobs[id], s.now))
              || (step.Succeed? && s.holders[step.worker].job == id
                  && Next(s, step).jobs[id] == SucceedRow(s.jobs[id], id))
              || (step.WriteFailure? && s.holders[step.worker].job == id
                  && Next(s, step).jobs[id]
                     == FailRow(s.jobs[id], s.holders[step.worker].phase.exhausted, step.error))
  {
  }

  lemma JobsGrow(s: System, step: Step)
    requires Enabled(s, step)
    ensures s.jobs.Keys <= Next(s, step).jobs.Keys && s.runs <= Next(s, step).runs
    ensures forall id :: id in s.jobs ==> s.jobs[id].attempts <= Next(s, step).jobs[id].attempts
  {
  }

  lemma StepKeepsCounts(s: System, step: Step)
    requires CountedClaims(s) && Enabled(s, step)
    ensures CountedClaims(Next(s, step))
  {
    var after := Next(s, step);
    assert after.claims == if step.Claim? then s.claims + multiset{step.id} else s.claims;
    forall id | id in after.jobs
      ensures after.jobs[id].attempts == after.claims[id] && after.jobs[id].attempts <= after.jobs[id].maxAttempts
    {
      RowChange(s, step, id);
    }
    JobsGrow(s, step);
  }

  lemma StepKeepsSuccess(s: System, step: Step)
    requires LinkedSuccess(s) && Ticketed(s) && Phased(s) && Enabled(s, step)
    ensures LinkedSuccess(Next(s, step))
  {
    var after := Next(s, step);
    JobsGrow(s, step);
    forall id | id in after.jobs && after.jobs[id].status == Succeeded
      ensures after.jobs[id].runId == Some(id) && id in after.runs
    {
      RowChange(s, step, id);
    }
  }

  lemma StepKeepsMessages(s: System, step: Step)
    requires OneJobPerMessage(s.jobs) && Enabled(s, step)
    ensures OneJobPerMessage(Next(s, step).jobs)
  {
    var after := Next(s, step).jobs;
    forall i, j | i in after && j in after && after[i].message == after[j].message
      ensures i == j
    {
      RowChange(s, step, i);
      RowChange(s, step, j);
    }
  }

  /** The only ways a step changes a holder: its own claim, or a move of its phase. */
  lemma HolderChange(s: System, step: Step, w: Id)
    requires Enabled(s, step) && w in Next(s, step).holders
    ensures w !in s.holders ==>
              && step.Claim? && step.worker == w
              && Next(s, step).holders[w] == Holder(step.id, s.jobs[step.id].attempts + 1, s.now, Looking)
    ensures w in s.holders ==>
              && Next(s, step).holders[w] == s.holders[w].(phase := Next(s, step).holders[w].phase)
              && (Next(s, step).holders[w].phase != s.holders[w].phase ==>
                    !step.Tick? && !step.Enqueue? && !step.Claim? && step.worker == w)
  {
  }

  lemma StepKeepsTicketFits(s: System, step: Step, w: Id)
    requires Ticketed(s) && Enabled(s, step) && w in Next(s, step).holders
    ensures TicketFits(Next(s, step), w)
  {
    HolderChange(s, step, w);
    JobsGrow(s, step);
  }

  lemma StepKeepsTicketsDiffer(s: System, step: Step, v: Id, w: Id)
    requires Ticketed(s) && Enabled(s, step)
    requires v in Next(s, step).holders && w in Next(s, step).holders
    ensures TicketsDiffer(Next(s, step), v, w)
  {
    HolderChange(s, step, v);
    HolderChange(s, step, w);
    assert v in s.holders && w in s.holders ==> TicketsDiffer(s, v, w);
    assert v in s.holders ==> TicketFits(s, v);
    assert w in s.holders ==> TicketFits(s, w);
  }

  lemma StepKeepsTickets(s: System, step: Step)
    requires Ticketed(s) && Enabled(s, step)
    ensures Ticketed(Next(s, step))
  {
    forall w | w in Next(s, step).holders {
      StepKeepsTicketFits(s, step, w);
    }
    forall v, w | v in Next(s, step).holders && w in Next(s, step).holders {
      StepKeepsTicketsDiffer(s, step, v, w);
    }
  }

  lemma StepKeepsPhase(s: System, step: Step, w: Id)
    requires Ticketed(s) && Phased(s) && Histories(s) && Enabled(s, step)
    requires w in Next(s, step).holders
    ensures var after := Next(s, step);
            var h := after.holders[w];
            && (BeforeEngine(h.phase) ==> TicketOf(h) !in after.called)
            && (h.phase.Looking? || h.phase.Reading? || h.phase.Calling? ==> TicketOf(h) !in after.linked)
            && (PastRun(h.phase) ==> h.job in after.runs)
  {
    HolderChange(s, step, w);
    JobsGrow(s, step);
    if !step.Tick? && !step.Enqueue? && step.worker == w {
      match step
      case FindRun(_) =>
      case ReadInput(_) =>
      case CallEngine(_) =>
      case _ =>
    }
  }

  lemma StepKeepsPhases(s: System, step: Step)
    requires Ticketed(s) && Phased(s) && Histories(s) && Enabled(s, step) && Ticketed(Next(s, step))
    ensures Phased(Next(s, step))
  {
    forall w | w in Next(s, step).holders {
      StepKeepsPhase(s, step, w);
    }
  }

  lemma StepCountsCalls(s: System, step: Step)
    requires Consistent(s) && Enabled(s, step)
    ensures CallsCounted(Next(s, step).calls, Next(s, step).called)
  {
    if step.CallEngine? {
      var t := TicketOf(s.holders[step.worker]);
      forall id ensures Next(s, step).calls[id] == |CallsOf(Next(s, step).called, id)| {
        CallRecorded(s.called, t, id);
      }
    } else {
      assert Next(s, step).calls == s.calls && Next(s, step).called == s.called;
    }
  }

  /** A step adds no ticket but the acting worker's own. */
  lemma TicketsAdded(s: System, step: Step)
    requires Enabled(s, step)
    ensures Next(s, step).called == s.called + (if step.CallEngine? then {TicketOf(s.holders[step.worker])} else {})
    ensures step.FindRun? || Next(s, step).linked == s.linked
    ensures step.FindRun? ==> Next(s, step).linked <= s.linked + {TicketOf(s.holders[step.worker])}
  {
  }

  lemma TicketsStayHeld(tickets: set<Ticket>, more: set<Ticket>, before: Jobs, after: Jobs)
    requires TicketsHeld(tickets, before) && TicketsHeld(more, before)
    requires before.Keys <= after.Keys && forall id :: id in before ==> before[id].attempts <= after[id].attempts
    ensures TicketsHeld(tickets + more, after)
  {
  }

  lemma StepKeepsHeldTickets(s: System, step: Step)
    requires Ticketed(s) && Histories(s) && Enabled(s, step)
    ensures TicketsHeld(Next(s, step).called, Next(s, step).jobs) && TicketsHeld(Next(s, step).linked, Next(s, step).jobs)
  {
    JobsGrow(s, step);
    TicketsAdded(s, step);
    var own := if step.CallEngine? || step.FindRun? then {TicketOf(s.holders[step.worker])} else {};
    if own != {} {
      assert TicketFits(s, step.worker);
    }
    TicketsStayHeld(s.called, own, s.jobs, Next(s, step).jobs);
    TicketsStayHeld(s.linked, own, s.jobs, Next(s, step).jobs);
  }

  lemma StepKeepsHistories(s: System, step: Step)
    requires Consistent(s) && Enabled(s, step)
    ensures Histories(Next(s, step))
  {
    StepCountsCalls(s, step);
    StepKeepsHeldTickets(s, step);
    assert Next(s, step).called !! Next(s, step).linked;
  }

  lemma StepKeepsConsistent(s: System, step: Step)
    requires Consistent(s) && Enabled(s, step)
    ensures Consistent(Next(s, step))
  {
    StepKeepsCounts(s, step);
    StepKeepsSuccess(s, step);
    StepKeepsMessages(s, step);
    StepKeepsTickets(s, step);
    StepKeepsPhases(s, step);
    StepKeepsHistories(s, step);
  }

  lemma {:induction false} RunKeepsConsistent(s: System, steps: seq<Step>)
    requires Consistent(s) && Run(s, steps)
    ensures Consistent(After(s, steps))
    decreases |steps|
  {
    if steps != [] {
      StepKeepsConsistent(s, steps[0]);
      RunKeepsConsistent(Next(s, steps[0]), steps[1..]);
    }
  }

  lemma InitialConsistent()
    ensures Consistent(INITIAL)
  {
  }
}
