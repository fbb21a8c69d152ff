/**
 * The convergence budget over the attempts of a task: internal/service/convergence_budget.go,
 * internal/orchestrator/task_budget.go and the defaults of internal/agent/loop.go.
 */
module Budget {

  const MAX_DECISIONS: int := 24
  const MAX_TOOL_CALLS: int := 64
  const MAX_TOKENS: int := 300000
  const MAX_ACTIVE: int := 1800  // seconds
  const MAX_ATTEMPTS: int := 3
  const EPISODE_DECISIONS: int := 12
  const EPISODE_PAYLOAD: int := 524288

  datatype Mode = Web | Provider | Harness

  datatype Usage = Usage(decisions: int, toolCalls: int, tokens: int, active: int, attempts: int, noProgressStreak: int)

  const NOTHING := Usage(0, 0, 0, 0, 0, 0)

  datatype Reason =
    | NoReason | NoProgress | DecisionLimit | ToolCallLimit | TokenLimit | ActiveLimit | AttemptLimit

  datatype Remaining = Remaining(
    decisions: int, toolCalls: int, tokens: int, active: int, attempts: int, exhausted: Reason, noProgress: bool)

  function Clamp(x: int): int {
    if x < 0 then 0 else x
  }

  /** `manualRetry` says that the owner approved an attempt beyond the limit. */
  function TaskConvergenceBudget(u: Usage, manualRetry: bool): Remaining {
    var noProgress := u.noProgressStreak >= 2;
    var decisions, toolCalls, tokens, active :=
      Clamp(MAX_DECISIONS - u.decisions), Clamp(MAX_TOOL_CALLS - u.toolCalls),
      Clamp(MAX_TOKENS - u.tokens), Clamp(MAX_ACTIVE - u.active);
    var attempts := if Clamp(MAX_ATTEMPTS - u.attempts) == 0 && manualRetry then 1 else Clamp(MAX_ATTEMPTS - u.attempts);
    var exhausted :=
      if noProgress then NoProgress
      else if decisions == 0 then DecisionLimit
      else if toolCalls == 0 then ToolCallLimit
      else if tokens == 0 then TokenLimit
      else if active == 0 then ActiveLimit
      else if attempts == 0 then AttemptLimit
      else NoReason;
    Remaining(decisions, toolCalls, tokens, active, attempts, exhausted, noProgress)
  }

  function ConvergenceStopReason(b: Remaining): Reason {
    if b.noProgress then NoProgress else b.exhausted
  }

  function ConvergenceStopReasonForMode(mode: Mode, b: Remaining): Reason {
    if mode != Harness then ConvergenceStopReason(b)
    else if b.noProgress then NoProgress
    else if b.active == 0 then ActiveLimit
    else if b.attempts == 0 then AttemptLimit
    else NoReason
  }

  // ----- Agent limits -----

  datatype Config = Config(maxTurns: int, maxToolCalls: int, maxTokens: int, maxDuration: int, maxEpisodePayload: int)

  function Least(x: int, y: int): int {
    if x > y then y else x
  }

  function BoundedAgentConfig(base: Config, b: Remaining): Config {
    var turns := Least(Least(if base.maxTurns <= 0 then MAX_DECISIONS else base.maxTurns, EPISODE_DECISIONS), b.decisions);
    var tools := Least(if base.maxToolCalls <= 0 then MAX_TOOL_CALLS else base.maxToolCalls, b.toolCalls);
    var tokens := Least(if base.maxTokens <= 0 then MAX_TOKENS else base.maxTokens, b.tokens);
    var duration := Least(if base.maxDuration <= 0 then MAX_ACTIVE else base.maxDuration, b.active);
    var payload := if base.maxEpisodePayload <= 0 then EPISODE_PAYLOAD else Least(base.maxEpisodePayload, EPISODE_PAYLOAD);
    Config(turns, tools, tokens, duration, payload)
  }

  /** The agent's own defaults: a limit that is not positive is replaced. */
  function WithDefaults(c: Config): Config {
    Config(if c.maxTurns <= 0 then 24 else c.maxTurns,
           if c.maxToolCalls <= 0 then 64 else c.maxToolCalls,
           if c.maxTokens <= 0 then 300000 else c.maxTokens,
           if c.maxDuration <= 0 then 1800 else c.maxDuration,
           if c.maxEpisodePayload <= 0 then 524288 else c.maxEpisodePayload)
  }

  /** The first limit that is reached is the reason to stop; a harness looks at progress, time and attempts only. */
  lemma FirstLimitReachedIsTheReason(mode: Mode, u: Usage, manualRetry: bool)
    ensures var reason := ConvergenceStopReasonForMode(mode, TaskConvergenceBudget(u, manualRetry));
            var stuck, spent := u.noProgressStreak >= 2, u.attempts >= 3 && !manualRetry;
            && (reason == NoProgress <==> stuck)
            && (reason == DecisionLimit <==> mode != Harness && !stuck && u.decisions >= 24)
            && (reason == ToolCallLimit <==> mode != Harness && !stuck && u.decisions < 24 && u.toolCalls >= 64)
            && (reason == TokenLimit <==> mode != Harness && !stuck && u.decisions < 24 && u.toolCalls < 64 && u.tokens >= 300000)
            && var earlier := mode != Harness && (u.decisions >= 24 || u.toolCalls >= 64 || u.tokens >= 300000);
            && (reason == ActiveLimit <==> !stuck && !earlier && u.active >= 1800)
            && (reason == AttemptLimit <==> !stuck && !earlier && u.active < 1800 && spent)
            && (reason == NoReason <==> !stuck && !earlier && u.active < 1800 && !spent)
  {}

  /** `x` is the smallest of the two bounds and, if it is set, the configured value. */
  predicate LeastOf(x: int, bound: int, left: int, configured: int) {
    x <= bound && x <= left && (configured > 0 ==> x <= configured) && (x == bound || x == left || x == configured > 0)
  }

  /** An admitted attempt gets of everything as much as is left, configured and allowed, and not less. */
  lemma LimitsAreTheLeast(mode: Mode, base: Config, u: Usage, manualRetry: bool)
    requires mode != Harness && ConvergenceStopReasonForMode(mode, TaskConvergenceBudget(u, manualRetry)) == NoReason
    ensures var c := WithDefaults(BoundedAgentConfig(base, TaskConvergenceBudget(u, manualRetry)));
            && LeastOf(c.maxTurns, 12, 24 - u.decisions, base.maxTurns)
            && LeastOf(c.maxToolCalls, 64 - u.toolCalls, if base.maxToolCalls > 0 then 64 - u.toolCalls else 64, base.maxToolCalls)
            && LeastOf(c.maxTokens, 300000 - u.tokens, if base.maxTokens > 0 then 300000 - u.tokens else 300000, base.maxTokens)
            && LeastOf(c.maxDuration, 1800 - u.active, if base.maxDuration > 0 then 1800 - u.active else 1800, base.maxDuration)
            && LeastOf(c.maxEpisodePayload, 524288, 524288, base.maxEpisodePayload)
  {}

  /** Outside harness mode no reason to stop means that every limit has something left. */
  lemma NoReasonMeansAllPositive(mode: Mode, u: Usage, manualRetry: bool)
    requires mode != Harness
    ensures var b := TaskConvergenceBudget(u, manualRetry);
            ConvergenceStopReasonForMode(mode, b) == NoReason <==>
              b.decisions > 0 && b.toolCalls > 0 && b.tokens > 0 && b.active > 0 && b.attempts > 0 && u.noProgressStreak < 2
  {}

  /** The defaults give an attempt more than a task has left exactly when nothing is left. */
  lemma DefaultsReinflateIffExhausted(base: Config, u: Usage, manualRetry: bool)
    ensures var b := TaskConvergenceBudget(u, manualRetry);
            var c := WithDefaults(BoundedAgentConfig(base, b));
            && (c.maxTurns > b.decisions <==> b.decisions == 0)
            && (c.maxToolCalls > b.toolCalls <==> b.toolCalls == 0)
            && (c.maxTokens > b.tokens <==> b.tokens == 0)
            && (c.maxDuration > b.active <==> b.active == 0)
  {}

  // ----- All attempts of a task -----

  /** One admitted attempt: what it did, and what is on record after it. */
  datatype Attempt = Attempt(base: Config, manualRetry: bool, turns: nat, toolCalls: nat, after: Usage)

  /** Nothing that happened in an attempt goes unrecorded. */
  predicate Recorded(before: Usage, a: Attempt) {
    a.after.decisions >= before.decisions + a.turns && a.after.toolCalls >= before.toolCalls + a.toolCalls
  }

  /** The gate of runWorkspaceReady, and the limits that the loop keeps. */
  predicate Admitted(mode: Mode, before: Usage, a: Attempt) {
    var b := TaskConvergenceBudget(before, a.manualRetry);
    var limits := WithDefaults(BoundedAgentConfig(a.base, b));
    && ConvergenceStopReasonForMode(mode, b) == NoReason
    && a.turns <= limits.maxTurns && a.toolCalls <= limits.maxToolCalls
    && a.after.attempts == before.attempts + 1
  }

  ghost predicate History(mode: Mode, before: Usage, attempts: seq<Attempt>)
    decreases |attempts|
  {
    attempts != [] ==> Admitted(mode, before, attempts[0]) && History(mode, attempts[0].after, attempts[1..])
  }

  ghost predicate AllRecorded(before: Usage, attempts: seq<Attempt>)
    decreases |attempts|
  {
    attempts != [] ==> Recorded(before, attempts[0]) && AllRecorded(attempts[0].after, attempts[1..])
  }

  function Turns(attempts: seq<Attempt>): nat {
    if attempts == [] then 0 else attempts[0].turns + Turns(attempts[1..])
  }

  function ToolCalls(attempts: seq<Attempt>): nat {
    if attempts == [] then 0 else attempts[0].toolCalls + ToolCalls(attempts[1..])
  }

  lemma {:induction false} SpendsWhatIsLeft(mode: Mode, before: Usage, attempts: seq<Attempt>)
    requires mode != Harness && before.decisions >= 0 && before.toolCalls >= 0
    requires History(mode, before, attempts) && AllRecorded(before, attempts)
    ensures Turns(attempts) <= Clamp(MAX_DECISIONS - before.decisions)
    ensures ToolCalls(attempts) <= Clamp(MAX_TOOL_CALLS - before.toolCalls)
    decreases |attempts|
  {
    if attempts != [] {
      SpendsWhatIsLeft(mode, attempts[0].after, attempts[1..]);
    }
  }

  /** Over any number of attempts, approved retries included: at most 24 turns and 64 tool calls, if all is recorded. */
  lemma TaskTotalsAreCapped(mode: Mode, attempts: seq<Attempt>)
    requires mode != Harness
    requires History(mode, NOTHING, attempts) && AllRecorded(NOTHING, attempts)
    ensures Turns(attempts) <= 24 && ToolCalls(attempts) <= 64
  {
    SpendsWhatIsLeft(mode, NOTHING, attempts);
  }

  /** Usage is read from the durable web turns only, so a provider-mode attempt leaves the decisions as they were. */
  predicate ProviderRecords(before: Usage, a: Attempt) {
    a.after.decisions == before.decisions && a.after.toolCalls == before.toolCalls && a.after.tokens == before.tokens
  }

  ghost predicate AllAsProvider(before: Usage, attempts: seq<Attempt>)
    decreases |attempts|
  {
    attempts != [] ==> ProviderRecords(before, attempts[0]) && AllAsProvider(attempts[0].after, attempts[1..])
  }

  /** How many of the attempts the owner has approved. */
  function Approved(attempts: seq<Attempt>): nat {
    if attempts == [] then 0 else (if attempts[0].manualRetry then 1 else 0) + Approved(attempts[1..])
  }

  ghost predicate ProviderHistory(attempts: seq<Attempt>) {
    History(Provider, NOTHING, attempts) && AllAsProvider(NOTHING, attempts)
  }

  ghost predicate Configured(base: Config, attempts: seq<Attempt>) {
    forall i | 0 <= i < |attempts| :: attempts[i].base == base
  }

  /** What one attempt may do while nothing is recorded as spent. */
  function MostTurns(base: Config): nat {
    if 0 < base.maxTurns < EPISODE_DECISIONS then base.maxTurns else EPISODE_DECISIONS
  }

  function MostToolCalls(base: Config): nat {
    if 0 < base.maxToolCalls < MAX_TOOL_CALLS then base.maxToolCalls else MAX_TOOL_CALLS
  }

  /** Beyond the third, every attempt takes an approval. */
  lemma {:induction false} ProviderAttemptsAreFew(before: Usage, attempts: seq<Attempt>)
    requires before.attempts >= 0
    requires History(Provider, before, attempts) && AllAsProvider(before, attempts)
    ensures |attempts| <= Clamp(MAX_ATTEMPTS - before.attempts) + Approved(attempts)
    decreases |attempts|
  {
    if attempts != [] {
      ProviderAttemptsAreFew(attempts[0].after, attempts[1..]);
    }
  }

  lemma OnceMore(n: nat, k: nat)
    ensures (n + 1) * k == k + n * k
  {}

  lemma {:induction false} ProviderAttemptsAreShort(before: Usage, attempts: seq<Attempt>, turns: nat, toolCalls: nat)
    requires before.decisions == 0 && before.toolCalls == 0
    requires History(Provider, before, attempts) && AllAsProvider(before, attempts)
    requires forall i | 0 <= i < |attempts| :: MostTurns(attempts[i].base) <= turns && MostToolCalls(attempts[i].base) <= toolCalls
    ensures Turns(attempts) <= |attempts| * turns && ToolCalls(attempts) <= |attempts| * toolCalls
    decreases |attempts|
  {
    if attempts != [] {
      var a, rest := attempts[0], attempts[1..];
      assert MostTurns(a.base) <= turns && MostToolCalls(a.base) <= toolCalls;
      ProviderAttemptsAreShort(a.after, rest, turns, toolCalls);
      OnceMore(|rest|, turns);
      OnceMore(|rest|, toolCalls);
    }
  }

  lemma ProviderSpendsAtMost(attempts: seq<Attempt>, turns: nat, toolCalls: nat)
    requires ProviderHistory(attempts)
    requires forall i | 0 <= i < |attempts| :: MostTurns(attempts[i].base) <= turns && MostToolCalls(attempts[i].base) <= toolCalls
    ensures Turns(attempts) <= (MAX_ATTEMPTS + Approved(attempts)) * turns
    ensures ToolCalls(attempts) <= (MAX_ATTEMPTS + Approved(attempts)) * toolCalls
  {
    ProviderAttemptsAreFew(NOTHING, attempts);
    ProviderAttemptsAreShort(NOTHING, attempts, turns, toolCalls);
    Scales(|attempts|, MAX_ATTEMPTS + Approved(attempts), turns);
    Scales(|attempts|, MAX_ATTEMPTS + Approved(attempts), toolCalls);
  }

  lemma Scales(m: nat, n: nat, k: nat)
    requires m <= n
    ensures m * k <= n * k
  {}

  /** What holds in provider mode instead of the 24 and 64, whatever the configurations of the attempts. */
  lemma ProviderTotalsAreBounded(attempts: seq<Attempt>)
    requires ProviderHistory(attempts)
    ensures Turns(attempts) <= EPISODE_DECISIONS * (MAX_ATTEMPTS + Approved(attempts))
    ensures ToolCalls(attempts) <= MAX_TOOL_CALLS * (MAX_ATTEMPTS + Approved(attempts))
  {
    ProviderSpendsAtMost(attempts, EPISODE_DECISIONS, MAX_TOOL_CALLS);
  }

  /** `n` attempts after `done` others, each doing all it may; the owner approves those beyond the third. */
  function Exhausting(base: Config, done: nat, n: nat): seq<Attempt>
    decreases n
  {
    if n == 0 then []
    else [Attempt(base, done >= MAX_ATTEMPTS, MostTurns(base), MostToolCalls(base), NOTHING.(attempts := done + 1))]
         + Exhausting(base, done + 1, n - 1)
  }

  lemma {:induction false} ExhaustingIsAdmitted(base: Config, done: nat, n: nat)
    ensures var h, before := Exhausting(base, done, n), NOTHING.(attempts := done);
            && History(Provider, before, h) && AllAsProvider(before, h) && Configured(base, h)
            && Turns(h) == n * MostTurns(base) && ToolCalls(h) == n * MostToolCalls(base)
            && Approved(h) == (if done + n <= MAX_ATTEMPTS then 0 else if done <= MAX_ATTEMPTS then done + n - MAX_ATTEMPTS else n)
    decreases n
  {
    if n > 0 {
      ExhaustingIsAdmitted(base, done + 1, n - 1);
      var h := Exhausting(base, done, n);
      assert h[1..] == Exhausting(base, done + 1, n - 1);
      OnceMore(n - 1, MostTurns(base));
      OnceMore(n - 1, MostToolCalls(base));
    }
  }

  /** A provider-mode history in which the attempts that are approved or free do all they may. */
  lemma MostSpent(base: Config, approvals: nat) returns (h: seq<Attempt>)
    ensures ProviderHistory(h) && Configured(base, h) && Approved(h) == approvals
    ensures Turns(h) == (MAX_ATTEMPTS + approvals) * MostTurns(base)
    ensures ToolCalls(h) == (MAX_ATTEMPTS + approvals) * MostToolCalls(base)
  {
    h := Exhausting(base, 0, MAX_ATTEMPTS + approvals);
    ExhaustingIsAdmitted(base, 0, MAX_ATTEMPTS + approvals);
  }

  ghost predicate TurnsStayWithin(base: Config, approvals: nat, cap: nat) {
    forall h | ProviderHistory(h) && Configured(base, h) && Approved(h) <= approvals :: Turns(h) <= cap
  }

  ghost predicate ToolCallsStayWithin(base: Config, approvals: nat, cap: nat) {
    forall h | ProviderHistory(h) && Configured(base, h) && Approved(h) <= approvals :: ToolCalls(h) <= cap
  }

  /** Which caps hold in provider mode, for a configuration and a number of approvals: exactly these. */
  lemma ProviderCapsExactly(base: Config, approvals: nat, cap: nat)
    ensures TurnsStayWithin(base, approvals, cap) <==> (MAX_ATTEMPTS + approvals) * MostTurns(base) <= cap
    ensures ToolCallsStayWithin(base, approvals, cap) <==> (MAX_ATTEMPTS + approvals) * MostToolCalls(base) <= cap
  {
    var most := MostSpent(base, approvals);
    forall h | ProviderHistory(h) && Configured(base, h) && Approved(h) <= approvals
      ensures Turns(h) <= (MAX_ATTEMPTS + approvals) * MostTurns(base)
      ensures ToolCalls(h) <= (MAX_ATTEMPTS + approvals) * MostToolCalls(base)
    {
      ProviderSpendsAtMost(h, MostTurns(base), MostToolCalls(base));
      Scales(MAX_ATTEMPTS + Approved(h), MAX_ATTEMPTS + approvals, MostTurns(base));
      Scales(MAX_ATTEMPTS + Approved(h), MAX_ATTEMPTS + approvals, MostToolCalls(base));
    }
  }

  /** Without approvals the task's caps hold in provider mode exactly for configured limits of at most 8 turns and 21 calls. */
  lemma ProviderKeepsTheTaskCapsIff(base: Config)
    ensures TurnsStayWithin(base, 0, MAX_DECISIONS) <==> 0 < base.maxTurns <= 8
    ensures ToolCallsStayWithin(base, 0, MAX_TOOL_CALLS) <==> 0 < base.maxToolCalls <= 21
  {
    ProviderCapsExactly(base, 0, MAX_DECISIONS);
    ProviderCapsExactly(base, 0, MAX_TOOL_CALLS);
  }

  /** With the defaults a task can take 36 turns and 192 tool calls in three unapproved attempts. */
  lemma ProviderModeExceedsTheCap() returns (h: seq<Attempt>)
    ensures ProviderHistory(h) && Approved(h) == 0 && Turns(h) == 36 && ToolCalls(h) == 192
  {
    h := MostSpent(Config(0, 0, 0, 0, 0), 0);
  }

  /** No number is a cap under every number of approvals, whatever the configuration. */
  lemma ApprovalsExceedEveryCap(base: Config, cap: nat) returns (h: seq<Attempt>)
    ensures ProviderHistory(h) && Configured(base, h) && Turns(h) > cap && ToolCalls(h) > cap
  {
    h := MostSpent(base, cap);
    assert (MAX_ATTEMPTS + cap) * MostTurns(base) >= MAX_ATTEMPTS + cap by {
      Scales(1, MostTurns(base), MAX_ATTEMPTS + cap);
    }
    assert (MAX_ATTEMPTS + cap) * MostToolCalls(base) >= MAX_ATTEMPTS + cap by {
      Scales(1, MostToolCalls(base), MAX_ATTEMPTS + cap);
    }
  }

  // ----- The owner's extra attempt -----

  datatype Control = Control(steer: bool, intact: bool, blockedChoice: bool, createdAt: int)

  datatype Last = NoAttempt | Running | Terminated(at: int)

  predicate ManualAttemptOverrideAllowed(control: Control, last: Last) {
    last.Terminated? && control.steer && control.intact && control.blockedChoice && control.createdAt > last.at
  }

  datatype Span = Span(begun: int, ended: int)

  /** The attempts of a task follow one another. */
  ghost predicate InTurn(spans: seq<Span>) {
    && (forall i | 0 <= i < |spans| :: spans[i].begun <= spans[i].ended)
    && (forall i | 0 < i < |spans| :: spans[i - 1].ended <= spans[i].begun)
  }

  lemma {:induction false} EndsAreOrdered(spans: seq<Span>, i: nat, j: nat)
    requires InTurn(spans) && i <= j < |spans|
    ensures spans[i].ended <= spans[j].ended
    decreases j
  {
    if i < j {
      EndsAreOrdered(spans, i, j - 1);
    }
  }

  /** An approval that let attempt `i + 1` begin lets no later one begin: not while it runs, nor after it or any other has ended. */
  lemma OneApprovalOneAttempt(control: Control, spans: seq<Span>, i: nat, j: nat)
    requires InTurn(spans) && i < j < |spans|
    requires ManualAttemptOverrideAllowed(control, Terminated(spans[i].ended)) && control.createdAt <= spans[i + 1].begun
    ensures !ManualAttemptOverrideAllowed(control, Running) && !ManualAttemptOverrideAllowed(control, Terminated(spans[j].ended))
  {
    EndsAreOrdered(spans, i + 1, j);
  }
}
