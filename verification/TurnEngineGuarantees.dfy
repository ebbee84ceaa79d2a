/**
 The escalation latch over interleaved turns, the bound on drafting, and what the budget gate can
 and cannot catch.
 */
module TurnEngineGuarantees {
  import opened Outcomes
  import opened Whitespace
  import opened TurnEngine

  // ---------------------------------------------------------------------------------------------
  // Drafting
  // ---------------------------------------------------------------------------------------------

  /** The retries stop at the first usable answer, or give up after the last with its complaint. */
  lemma {:induction false} RetriesStopAtFirstUsable(answers: nat -> Draft, from: nat, attempts: nat, complaint: string)
    ensures var (drafting, calls) := FirstUsable(answers, from, attempts, complaint);
            && calls <= attempts
            && (drafting.Drafted? ==>
                  && calls >= 1 && Usable(answers(from + calls - 1))
                  && drafting.reply == answers(from + calls - 1).text
                  && forall k: nat :: from <= k < from + calls - 1 ==> !Usable(answers(k)))
            && (drafting.GaveUp? ==>
                  && calls == attempts
                  && (forall k: nat :: from <= k < from + attempts ==> !Usable(answers(k)))
                  && drafting.message == if attempts == 0 then complaint else Complaint(answers(from + attempts - 1)))
    decreases attempts
  {
    if attempts != 0 && !Usable(answers(from)) {
      RetriesStopAtFirstUsable(answers, from + 1, attempts - 1, Complaint(answers(from)));
    }
  }

  /** What makes a draft usable, and what an unusable one leaves to report. */
  lemma UsableExactly(draft: Draft)
    ensures Usable(draft) <==> draft.Draft? && exists i :: 0 <= i < |draft.text| && !Space(draft.text[i])
    ensures draft.Draft? ==> Complaint(draft) == "AI provider returned an empty reply."
    ensures draft.Threw? ==>
              Complaint(draft) == if draft.message.Some? then draft.message.value else "AI provider failed."
  {
    assert draft.Draft? ==> (Trimmed(draft.text) == "" <==> Blank(draft.text));
  }

  /** A turn fails exactly when three answers in a row are unusable, and never asks for a fourth. */
  lemma FailsAfterThree(answers: nat -> Draft, from: nat)
    ensures Asked(answers, from).1 <= 3
    ensures Asked(answers, from).0.GaveUp?
            <==> !Usable(answers(from)) && !Usable(answers(from + 1)) && !Usable(answers(from + 2))
  {
  }

  // ---------------------------------------------------------------------------------------------
  // Budget
  // ---------------------------------------------------------------------------------------------

  /** Within the token ceiling, a reply of at most a thousand characters costs at most 27,000 micro-dollars. */
  lemma CostWithinTokens(inputLength: nat, output: string, ceiling: nat)
    requires |output| <= MAX_REPLY_CHARACTERS
    requires var b := CalculateTurnBudget(inputLength, output); b.inputTokens + b.outputTokens <= ceiling
    ensures CalculateTurnBudget(inputLength, output).costMicros <= 3 * ceiling + 3000
  {
  }

  lemma RepliesAreShort(c: Circumstances, drafting: Drafting)
    ensures |DraftedReply(c, drafting)| <= MAX_REPLY_CHARACTERS
  {
  }

  /** The cost gate never decides: a drafted turn is over budget exactly when it is over the token ceiling. */
  lemma CostGateNeverDecides(c: Circumstances, drafting: Drafting)
    ensures var budget := CalculateTurnBudget(PromptLength(c), DraftedReply(c, drafting));
            && (IsOverTurnBudget(budget) <==> budget.inputTokens + budget.outputTokens > 8000)
            && (!IsOverTurnBudget(budget) ==> budget.costMicros <= 27_000)
  {
  }

  /** The bound is met: the ceiling is reached by a full-length reply after 31,000 characters of prompt. */
  lemma CostBoundIsMet(output: string)
    requires |output| == MAX_REPLY_CHARACTERS
    ensures var budget := CalculateTurnBudget(31_000, output);
            budget.inputTokens + budget.outputTokens == MAX_TURN_TOKENS && budget.costMicros == 27_000
  {
  }

  /**
   A turn answers exactly when nothing guarded it, a draft was usable, no tool escalated, the answer
   is supported and confident, and the tokens fit; what it sends is the sanitized draft. It refuses
   exactly when only support is missing, and fails exactly when drafting gave up within the budget.
   Every reply is short.
   */
  lemma OutcomesExactly(conversation: Conversation, c: Circumstances, drafting: Drafting)
    ensures var turn := Turn(conversation, c, drafting);
            var open := conversation.assigneeId.None? && !conversation.isEscalated && !c.injection && !c.hardEscalation;
            var supported := c.toolText != "" || c.intent.name in {"general", "booking", "availability"};
            var fits := turn.inputTokens + turn.outputTokens <= 8000;
            && |turn.reply| <= 1000
            && (turn.outcome == Answered
                <==> open && fits && drafting.Drafted? && !c.toolEscalated && supported && c.intent.confidence >= 0.45)
            && (turn.outcome == Refused
                <==> open && fits && drafting.Drafted? && !c.toolEscalated && !supported)
            && (turn.outcome == Failed <==> open && fits && drafting.GaveUp?)
            && (turn.outcome == Answered ==> turn.reply == SanitizeReply(c.redact, drafting.reply))
  {
    RepliesAreShort(c, drafting);
    CostGateNeverDecides(c, drafting);
    assert |HOLDING_REPLY| <= 100;
  }

  // ---------------------------------------------------------------------------------------------
  // The flag after one turn
  // ---------------------------------------------------------------------------------------------

  /**
   After a turn the flag is set exactly if it was before, or the turn ended escalated or failed with
   nobody assigned. The one escalated turn that leaves it unset is the one an assignee guarded.
   */
  lemma FlagExactly(conversation: Conversation, c: Circumstances, drafting: Drafting)
    ensures var turn := Turn(conversation, c, drafting);
            var after := After(conversation, c, drafting);
            && after.assigneeId == conversation.assigneeId
            && (after.isEscalated
                <==> conversation.isEscalated || (turn.outcome in {Escalated, Failed} && conversation.assigneeId.None?))
            && (turn.outcome in {Escalated, Failed} ==> Guarded(after))
            && (turn.outcome in {Answered, Refused} ==> after == conversation && !Guarded(conversation))
  {
  }

  /** A refusal tells the customer a teammate will take over, yet hands nothing over: the next turn is drafted. */
  lemma RefusalHandsNothingOver(conversation: Conversation, c: Circumstances, drafting: Drafting, next: Circumstances)
    requires Turn(conversation, c, drafting).outcome == Refused
    ensures Turn(conversation, c, drafting).reply == REFUSAL_REPLY
    ensures After(conversation, c, drafting) == conversation
    ensures Drafts(After(conversation, c, drafting), next) <==> !next.injection && !next.hardEscalation
  {
  }

  // ---------------------------------------------------------------------------------------------
  // Interleaved turns
  // ---------------------------------------------------------------------------------------------

  /** Turns read the conversation when they start and write when they end; people act in between. */
  datatype Step =
    | Start(turn: nat)
    | End(turn: nat, circumstances: Circumstances, drafting: Drafting)
    | Assign(assigneeId: Option<string>)
    | Clear

  datatype System = System(conversation: Conversation, inFlight: map<nat, Conversation>, started: set<nat>)

  predicate Enabled(s: System, step: Step) {
    match step
    case Start(turn) => turn !in s.started
    case End(turn, _, _) => turn in s.inFlight
    case Assign(_) => true
    case Clear => true
  }

  function Next(s: System, step: Step): System
    requires Enabled(s, step)
  {
    match step
    case Start(turn) => s.(inFlight := s.inFlight[turn := s.conversation], started := s.started + {turn})
    case End(turn, c, drafting) =>
      s.(conversation := if Flags(s.inFlight[turn], c, drafting) then s.conversation.(isEscalated := true)
                         else s.conversation,
         inFlight := s.inFlight - {turn})
    case Assign(assigneeId) => s.(conversation := s.conversation.(assigneeId := assigneeId))
    case Clear => s.(conversation := s.conversation.(isEscalated := false))
  }

  predicate Possible(s: System, steps: seq<Step>)
    decreases |steps|
  {
    steps == [] || (Enabled(s, steps[0]) && Possible(Next(s, steps[0]), steps[1..]))
  }

  function Reached(s: System, steps: seq<Step>): System
    requires Possible(s, steps)
    decreases |steps|
  {
    if steps == [] then s else Reached(Next(s, steps[0]), steps[1..])
  }

  predicate ReadsInFlight(s: System) {
    forall turn :: turn in s.inFlight ==> turn in s.started
  }

  /** An empty reply, outcome escalated, and no draft asked for. */
  predicate Silent(read: Conversation, step: Step)
    requires step.End?
  {
    && Turn(read, step.circumstances, step.drafting).reply == ""
    && Turn(read, step.circumstances, step.drafting).outcome == Escalated
    && !Drafts(read, step.circumstances)
  }

  predicate LatchedFor(s: System, early: set<nat>) {
    && s.conversation.isEscalated
    && early <= s.started
    && forall turn :: turn in s.inFlight && turn !in early ==> s.inFlight[turn].isEscalated
  }

  lemma {:induction false} LatchHolds(s: System, steps: seq<Step>, early: set<nat>)
    requires LatchedFor(s, early) && Possible(s, steps) && Clear !in steps
    ensures LatchedFor(Reached(s, steps), early)
    decreases |steps|
  {
    if steps != [] {
      LatchHolds(Next(s, steps[0]), steps[1..], early);
    }
  }

  lemma {:induction false} PossibleSplits(s: System, a: seq<Step>, b: seq<Step>)
    requires Possible(s, a + b)
    ensures Possible(s, a) && Possible(Reached(s, a), b)
    decreases |a|
  {
    if a == [] {
      assert a + b == b;
    } else {
      assert (a + b)[1..] == a[1..] + b;
      PossibleSplits(Next(s, a[0]), a[1..], b);
    }
  }

  /**
   Once a turn nobody was assigned to ends escalated or failed, every turn that starts later is
   silent until someone clears the flag, whatever else happens in between. The flag the turn itself
   read, if any, must not have been cleared while it ran.
   */
  lemma SilentUntilCleared(s: System, ended: Step, between: seq<Step>, later: Step)
    requires ReadsInFlight(s)
    requires Possible(s, [ended] + between + [later]) && Clear !in between
    requires ended.End? && Turn(s.inFlight[ended.turn], ended.circumstances, ended.drafting).outcome in {Escalated, Failed}
    requires s.inFlight[ended.turn].isEscalated ==> s.conversation.isEscalated
    requires s.inFlight[ended.turn].assigneeId.None?
    requires later.End? && later.turn !in s.started
    ensures Possible(s, [ended] + between)
    ensures later.turn in Reached(s, [ended] + between).inFlight
    ensures Silent(Reached(s, [ended] + between).inFlight[later.turn], later)
  {
    var next := Next(s, ended);
    FlagExactly(s.inFlight[ended.turn], ended.circumstances, ended.drafting);
    assert LatchedFor(next, s.started);
    assert ([ended] + between + [later]) == ([ended] + between) + [later];
    PossibleSplits(s, [ended] + between, [later]);
    assert ([ended] + between)[1..] == between;
    LatchHolds(next, between, s.started);
    assert Reached(s, [ended] + between) == Reached(next, between);
  }

  /** A turn is silent exactly when the conversation as it read it was flagged or assigned. */
  lemma SilentExactly(read: Conversation, end: Step)
    requires end.End?
    ensures Silent(read, end) <==> Guarded(read)
  {
    assert |HOLDING_REPLY| > 0;
  }

  lemma {:induction false} SnapshotStays(s: System, steps: seq<Step>, turn: nat)
    requires Possible(s, steps) && turn in s.started && turn in Reached(s, steps).inFlight
    ensures turn in s.inFlight && Reached(s, steps).inFlight[turn] == s.inFlight[turn]
    decreases |steps|
  {
    if steps != [] {
      SnapshotStays(Next(s, steps[0]), steps[1..], turn);
    }
  }

  /**
   Over any run: a turn is silent exactly when the conversation was flagged or assigned at the moment it
   started, whatever happened to the conversation until it ended. So a turn that ends after an
   escalation still answers exactly if it started on an unguarded conversation and would have answered.
   */
  lemma SilentByItsStart(s: System, before: seq<Step>, between: seq<Step>, end: Step)
    requires end.End? && Possible(s, before + [Start(end.turn)] + between + [end])
    ensures Possible(s, before)
    ensures Possible(s, before + [Start(end.turn)] + between)
    ensures var read := Reached(s, before).conversation;
            var ending := Reached(s, before + [Start(end.turn)] + between);
            && end.turn in ending.inFlight && ending.inFlight[end.turn] == read
            && (Silent(ending.inFlight[end.turn], end) <==> Guarded(read))
  {
    var start := Start(end.turn);
    var prefix := before + [start] + between;
    PossibleSplits(s, prefix, [end]);
    assert prefix == before + ([start] + between);
    PossibleSplits(s, before, [start] + between);
    ReachedSplits(s, before, [start] + between);
    var started := Next(Reached(s, before), start);
    assert ([start] + between)[1..] == between;
    assert Possible(started, between) && Reached(s, prefix) == Reached(started, between);
    SnapshotStays(started, between, end.turn);
    SilentExactly(Reached(s, before).conversation, end);
  }

  lemma {:induction false} ReachedSplits(s: System, a: seq<Step>, b: seq<Step>)
    requires Possible(s, a) && Possible(s, a + b) && Possible(Reached(s, a), b)
    ensures Reached(s, a + b) == Reached(Reached(s, a), b)
    decreases |a|
  {
    if a == [] {
      assert a + b == b;
    } else {
      assert (a + b)[1..] == a[1..] + b;
      ReachedSplits(Next(s, a[0]), a[1..], b);
    }
  }

  /** A turn an assignee guarded leaves no latch: once unassigned, the next turn is drafted again. */
  lemma AssigneeIsNoLatch(assigneeId: string, c: Circumstances, drafting: Drafting, next: Circumstances)
    requires !next.injection && !next.hardEscalation
    ensures var conversation := Conversation(Some(assigneeId), false);
            && Turn(conversation, c, drafting).outcome == Escalated
            && Drafts(After(conversation, c, drafting).(assigneeId := None), next)
  {
  }

  /**
   Turns that cross: with two in flight over an unguarded conversation, one may end escalated and
   the other still answer the customer afterwards.
   */
  lemma CrossingTurnStillAnswers(s: System, a: nat, b: nat, first: Circumstances, second: Circumstances, draft: Drafting)
    requires a != b && a !in s.started && b !in s.started && !Guarded(s.conversation)
    requires first.hardEscalation
    requires Turn(s.conversation, second, draft).outcome == Answered
    ensures var steps := [Start(a), Start(b), End(a, first, draft)];
            && Possible(s, steps)
            && Reached(s, steps).conversation.isEscalated
            && b in Reached(s, steps).inFlight
            && Turn(Reached(s, steps).inFlight[b], second, draft).outcome == Answered
  {
    var steps := [Start(a), Start(b), End(a, first, draft)];
    var s1 := Next(s, steps[0]);
    var s2 := Next(s1, steps[1]);
    var s3 := Next(s2, steps[2]);
    assert steps[1..] == [Start(b), End(a, first, draft)];
    assert steps[1..][1..] == [End(a, first, draft)];
    assert steps[1..][1..][1..] == [];
    assert Possible(s3, []) && Possible(s2, steps[1..][1..]) && Possible(s1, steps[1..]);
    assert Reached(s, steps) == Reached(s1, steps[1..]) == Reached(s2, steps[1..][1..]) == s3;
  }
}
