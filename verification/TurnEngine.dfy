/**
 One turn of the AI engine: the guard, drafting with retries, the outcome, the budget and the
 escalation flag. Regular expressions, retrieval and the provider are parameters.

 Lengths count characters where the source counts UTF-16 units.
 */
module TurnEngine {
  import opened Outcomes
  import opened Whitespace

  const MAX_REPLY_CHARACTERS: nat := 1000
  const MAX_TURN_TOKENS: nat := 8000
  const MAX_TURN_COST_MICROS: nat := 100_000
  const DEFAULT_MAX_ATTEMPTS: nat := 3
  const CONFIDENCE_ESCALATION_THRESHOLD: real := 0.45
  const HOLDING_REPLY: string := "Thank you for your message \U{2014} one of our team will get back to you shortly."
  const NO_ANSWER: string := "AI provider failed."
  const EMPTY_ANSWER: string := "AI provider returned an empty reply."
  const REFUSAL_REPLY: string :=
    "I want to make sure you get a correct answer \U{2014} let me hand this to a teammate who can help."

  /** One answer of the provider: a text, or an error with a message if it was an `Error`. */
  datatype Draft = Draft(text: string) | Threw(message: Option<string>)

  datatype Drafting = Drafted(reply: string) | GaveUp(message: string)

  datatype Outcome = Answered | Escalated | Refused | Failed

  datatype Intent = Intent(name: string, confidence: real)

  datatype Conversation = Conversation(assigneeId: Option<string>, isEscalated: bool)

  datatype Budget = Budget(inputTokens: nat, outputTokens: nat, costMicros: nat)

  /** What the turn meets on its way: matches of the guard patterns, memory, intent and tools. */
  datatype Circumstances = Circumstances(
    injection: bool,
    hardEscalation: bool,
    memoryText: string,
    intent: Intent,
    toolText: string,
    toolEscalated: bool,
    redact: string -> string,
    persisted: bool)

  datatype TurnResult = TurnResult(reply: string, outcome: Outcome, inputTokens: nat, outputTokens: nat)

  datatype RunRow = RunRow(conversationId: string, outcome: Outcome, inputTokens: nat, outputTokens: nat)

  predicate Usable(draft: Draft) {
    draft.Draft? && Trimmed(draft.text) != ""
  }

  /** The message an unusable draft leaves behind. */
  function Complaint(draft: Draft): string {
    if draft.Draft? then EMPTY_ANSWER
    else if draft.message.Some? then draft.message.value
    else NO_ANSWER
  }

  function EstimateTokens(length: nat): nat {
    (length + 3) / 4
  }

  function CalculateTurnBudget(inputLength: nat, output: string): Budget {
    var input, out := EstimateTokens(inputLength), EstimateTokens(|output|);
    Budget(input, out, input * 3 + out * 15)
  }

  predicate IsOverTurnBudget(budget: Budget) {
    budget.inputTokens + budget.outputTokens > MAX_TURN_TOKENS || budget.costMicros > MAX_TURN_COST_MICROS
  }

  function SanitizeReply(redact: string -> string, reply: string): (clean: string)
    ensures clean <= Trimmed(redact(reply))
    ensures |clean| == if |Trimmed(redact(reply))| <= 1000 then |Trimmed(redact(reply))| else 1000
  {
    var trimmed := Trimmed(redact(reply));
    if |trimmed| <= MAX_REPLY_CHARACTERS then trimmed else trimmed[..MAX_REPLY_CHARACTERS]
  }

  predicate Guarded(conversation: Conversation) {
    conversation.assigneeId.Some? || conversation.isEscalated
  }

  predicate Unsupported(c: Circumstances) {
    c.toolText == "" && c.intent.name != "general" && c.intent.name != "booking" && c.intent.name != "availability"
  }

  /** The outcome of a drafted turn before its budget is looked at. */
  function Judged(c: Circumstances, drafting: Drafting): Outcome {
    if drafting.GaveUp? then Failed
    else if c.toolEscalated then Escalated
    else if Unsupported(c) then Refused
    else if c.intent.confidence < CONFIDENCE_ESCALATION_THRESHOLD then Escalated
    else Answered
  }

  function DraftedReply(c: Circumstances, drafting: Drafting): string {
    if Judged(c, drafting) == Refused then REFUSAL_REPLY
    else SanitizeReply(c.redact, if drafting.Drafted? then drafting.reply else HOLDING_REPLY)
  }

  function PromptLength(c: Circumstances): nat {
    |c.memoryText| + 1 + |c.toolText|
  }

  function DraftedTurn(c: Circumstances, drafting: Drafting): TurnResult {
    var reply := DraftedReply(c, drafting);
    var budget := CalculateTurnBudget(PromptLength(c), reply);
    var over := IsOverTurnBudget(budget);
    TurnResult(if over then HOLDING_REPLY else reply, if over then Escalated else Judged(c, drafting),
               budget.inputTokens, budget.outputTokens)
  }

  function GuardedTurn(reply: string): TurnResult {
    TurnResult(reply, Escalated, 0, EstimateTokens(|reply|))
  }

  /** The result of a turn on a conversation as it was read, given what drafting would give. */
  function Turn(conversation: Conversation, c: Circumstances, drafting: Drafting): TurnResult {
    if Guarded(conversation) then GuardedTurn("")
    else if c.injection || c.hardEscalation then GuardedTurn(HOLDING_REPLY)
    else DraftedTurn(c, drafting)
  }

  /** The text of a draft that gave up, was refused, or is sent on, before its budget is looked at. */
  lemma TextExactly(c: Circumstances, drafting: Drafting)
    ensures drafting.GaveUp? ==> DraftedReply(c, drafting) == SanitizeReply(c.redact, HOLDING_REPLY)
    ensures drafting.Drafted? ==>
              DraftedReply(c, drafting)
              == if c.toolEscalated || c.toolText != "" || c.intent.name in {"general", "booking", "availability"}
                 then SanitizeReply(c.redact, drafting.reply) else REFUSAL_REPLY
  {
  }

  /** What is counted: the prompt as input, the text as output; over budget the holding reply is sent instead. */
  lemma BudgetExactly(c: Circumstances, drafting: Drafting, text: string)
    requires text == DraftedReply(c, drafting)
    ensures var turn := DraftedTurn(c, drafting);
            var over := turn.inputTokens + turn.outputTokens > 8000
                        || 3 * turn.inputTokens + 15 * turn.outputTokens > 100_000;
            && turn.inputTokens == (|c.memoryText| + 1 + |c.toolText| + 3) / 4
            && turn.outputTokens == (|text| + 3) / 4
            && turn.reply == (if over then HOLDING_REPLY else text)
            && (over ==> turn.outcome == Escalated)
  {
  }

  /** The result of a drafted turn, case by case. */
  ghost predicate Delivers(turn: TurnResult, c: Circumstances, drafting: Drafting) {
    var text := if drafting.GaveUp? then SanitizeReply(c.redact, HOLDING_REPLY)
                else if !c.toolEscalated && c.toolText == "" && c.intent.name !in {"general", "booking", "availability"}
                then REFUSAL_REPLY
                else SanitizeReply(c.redact, drafting.reply);
    var over := turn.inputTokens + turn.outputTokens > 8000
                || 3 * turn.inputTokens + 15 * turn.outputTokens > 100_000;
    && turn.inputTokens == (|c.memoryText| + 1 + |c.toolText| + 3) / 4
    && turn.outputTokens == (|text| + 3) / 4
    && (if over then turn.reply == HOLDING_REPLY && turn.outcome == Escalated else turn.reply == text)
  }

  lemma TurnDelivers(c: Circumstances, drafting: Drafting)
    ensures Delivers(DraftedTurn(c, drafting), c, drafting)
  {
    TextExactly(c, drafting);
    BudgetExactly(c, drafting, DraftedReply(c, drafting));
  }

  /** Whether the turn asks the provider for a reply at all. */
  predicate Drafts(conversation: Conversation, c: Circumstances) {
    !Guarded(conversation) && !c.injection && !c.hardEscalation
  }

  /** Whether the turn sets the escalation flag. */
  predicate Flags(conversation: Conversation, c: Circumstances, drafting: Drafting) {
    !Guarded(conversation) && Turn(conversation, c, drafting).outcome in {Escalated, Failed}
  }

  /** The first usable of at most `attempts` drafts from number `from` on, and how many were asked for. */
  function FirstUsable(answers: nat -> Draft, from: nat, attempts: nat, complaint: string): (Drafting, nat)
    decreases attempts
  {
    if attempts == 0 then (GaveUp(complaint), 0)
    else if Usable(answers(from)) then (Drafted(answers(from).text), 1)
    else
      var (rest, calls) := FirstUsable(answers, from + 1, attempts - 1, Complaint(answers(from)));
      (rest, calls + 1)
  }

  /** Drafting as `runTurn` asks for it. */
  function Asked(answers: nat -> Draft, from: nat): (Drafting, nat) {
    FirstUsable(answers, from, DEFAULT_MAX_ATTEMPTS, NO_ANSWER)
  }

  /** The conversation once the turn has ended. */
  function After(conversation: Conversation, c: Circumstances, drafting: Drafting): Conversation {
    if Flags(conversation, c, drafting) then conversation.(isEscalated := true) else conversation
  }

  function RowOf(id: string, turn: TurnResult): RunRow {
    RunRow(id, turn.outcome, turn.inputTokens, turn.outputTokens)
  }

  class Provider {
    const answers: nat -> Draft
    var calls: nat

    constructor (answers: nat -> Draft)
      ensures this.answers == answers && calls == 0
    {
      this.answers, calls := answers, 0;
    }

    method DraftReply() returns (draft: Draft)
      modifies this`calls
      ensures calls == old(calls) + 1 && draft == answers(old(calls))
    {
      draft := answers(calls);
      calls := calls + 1;
    }
  }

  method DraftReplyWithRetry(provider: Provider, maxAttempts: nat) returns (drafting: Drafting)
    modifies provider`calls
    ensures (drafting, provider.calls - old(provider.calls))
            == FirstUsable(provider.answers, old(provider.calls), maxAttempts, NO_ANSWER)
  {
    ghost var first := provider.calls;
    var lastError := NO_ANSWER;
    var attempt := 0;
    while attempt < maxAttempts
      invariant attempt <= maxAttempts && provider.calls == first + attempt
      invariant var (rest, calls) := FirstUsable(provider.answers, provider.calls, maxAttempts - attempt, lastError);
                (rest, calls + attempt) == FirstUsable(provider.answers, first, maxAttempts, NO_ANSWER)
    {
      var draft := provider.DraftReply();
      if draft.Draft? && Trimmed(draft.text) != "" {
        return Drafted(draft.text);
      }
      lastError := Complaint(draft);
      attempt := attempt + 1;
    }
    return GaveUp(lastError);
  }

  class AiEngine {
    const provider: Provider
    var conversations: map<string, Conversation>
    var runs: seq<RunRow>

    constructor (provider: Provider, conversations: map<string, Conversation>)
      ensures this.provider == provider && this.conversations == conversations && runs == []
    {
      this.provider, this.conversations, runs := provider, conversations, [];
    }

    method EscalateConversation(id: string)
      requires id in conversations
      modifies this`conversations
      ensures conversations == old(conversations)[id := old(conversations)[id].(isEscalated := true)]
    {
      conversations := conversations[id := conversations[id].(isEscalated := true)];
    }

    /** Recording the run; when it fails the turn fails with it, after the flag was written. */
    method Persist(id: string, result: TurnResult, persisted: bool) returns (recorded: Result<TurnResult>)
      modifies this`runs
      ensures recorded == (if persisted then Ok(result) else Err(Internal))
      ensures runs == old(runs)
                      + (if persisted then [RowOf(id, result)] else [])
    {
      if !persisted {
        return Err(Internal);
      }
      runs := runs + [RunRow(id, result.outcome, result.inputTokens, result.outputTokens)];
      return Ok(result);
    }

    /** Drafting, the hallucination guard and the budget of an unguarded turn. */
    method DraftTurn(c: Circumstances) returns (turn: TurnResult)
      modifies provider`calls
      ensures var (drafting, calls) := Asked(provider.answers, old(provider.calls));
              turn == DraftedTurn(c, drafting) && provider.calls == old(provider.calls) + calls
    {
      var drafting := DraftReplyWithRetry(provider, DEFAULT_MAX_ATTEMPTS);
      turn := Judge(c, drafting);
    }

    method Judge(c: Circumstances, drafting: Drafting) returns (turn: TurnResult)
      ensures turn == DraftedTurn(c, drafting)
      ensures Delivers(turn, c, drafting)
    {
      TurnDelivers(c, drafting);
      var providerFailed := drafting.GaveUp?;
      var reply := SanitizeReply(c.redact, if providerFailed then HOLDING_REPLY else drafting.reply);
      var outcome := Answered;
      if providerFailed {
        outcome := Failed;
      } else if c.toolEscalated {
        outcome := Escalated;
      } else if c.toolText == "" && c.intent.name != "general" && c.intent.name != "booking"
                && c.intent.name != "availability" {
        outcome := Refused;
        reply := REFUSAL_REPLY;
      } else if c.intent.confidence < CONFIDENCE_ESCALATION_THRESHOLD {
        outcome := Escalated;
      }
      assert outcome == Judged(c, drafting) && reply == DraftedReply(c, drafting);
      var budget := CalculateTurnBudget(|c.memoryText| + 1 + |c.toolText|, reply);
      if IsOverTurnBudget(budget) {
        outcome := Escalated;
        reply := HOLDING_REPLY;
      }
      turn := TurnResult(reply, outcome, budget.inputTokens, budget.outputTokens);
    }

    method RunTurn(id: string, c: Circumstances) returns (result: Result<TurnResult>)
      modifies this, provider`calls
      ensures id !in old(conversations) ==>
                result == Err(NotFound) && conversations == old(conversations) && runs == old(runs)
                && provider.calls == old(provider.calls)
      ensures id in old(conversations) ==>
                var was := old(conversations)[id];
                var (drafting, calls) := Asked(provider.answers, old(provider.calls));
                var turn := Turn(was, c, drafting);
                && result == (if c.persisted then Ok(turn) else Err(Internal))
                && provider.calls == old(provider.calls) + (if Drafts(was, c) then calls else 0)
                && conversations == old(conversations)[id := After(was, c, drafting)]
                && runs == old(runs) + (if c.persisted then [RowOf(id, turn)] else [])
      ensures result.Ok? ==>
                && id in old(conversations)
                && runs == old(runs) + [RunRow(id, result.value.outcome, result.value.inputTokens, result.value.outputTokens)]
                && var was := old(conversations)[id];
                   if was.assigneeId.Some? || was.isEscalated
                   then result.value == TurnResult("", Escalated, 0, 0)
                   else if c.injection || c.hardEscalation
                   then result.value == TurnResult(HOLDING_REPLY, Escalated, 0, (|HOLDING_REPLY| + 3) / 4)
                   else Delivers(result.value, c, Asked(provider.answers, old(provider.calls)).0)
    {
      TurnDelivers(c, Asked(provider.answers, provider.calls).0);
      if id !in conversations {
        return Err(NotFound);
      }
      var conversation := conversations[id];
      if conversation.assigneeId.Some? || conversation.isEscalated {
        result := Persist(id, GuardedTurn(""), c.persisted);
        assert conversations == conversations[id := conversation];
        return;
      }
      if c.injection || c.hardEscalation {
        EscalateConversation(id);
        result := Persist(id, GuardedTurn(HOLDING_REPLY), c.persisted);
        return;
      }
      var turn := DraftTurn(c);
      if turn.outcome == Failed || turn.outcome == Escalated {
        EscalateConversation(id);
      } else {
        assert conversations == conversations[id := conversation];
      }
      result := Persist(id, turn, c.persisted);
    }
  }
}
