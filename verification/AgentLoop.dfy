/**
 * The bounded agent loop: internal/agent/loop.go, Run from its first turn on.
 *
 * Everything outside the loop (clock, authority checks, controls, gateway, tools, encoded sizes)
 * answers through an arbitrary script; the loop's local variables are fields.
 */
module AgentLoop {
  import opened Observations
  import opened Options
  import opened Text

  datatype Status = CompletedCandidate | Blocked | BudgetExhausted | Cancelled

  /** How the outside ends a run; it cannot complete one. */
  type Interruption = s: Status | s != CompletedCandidate witness Cancelled

  datatype Tool = Finish | Checkpoint | Input | Coding(name: string) | Nameless

  datatype Call = Call(id: string, tool: Tool)

  datatype Message =
    | System
    | User
    | Assistant(calls: seq<Call>)
    | Reply(callID: string, content: Bytes)

  datatype Kind = Steer | InputGiven | Cancel | Unsupported

  datatype Control = Control(ofTask: bool, version: int, intact: bool, kind: Kind, payloadValid: bool)

  datatype Reason = Complete | Length | ContentFilter | OtherReason

  datatype Response = Response(
    ofAssistant: bool, calls: seq<Call>, inputTokens: int, outputTokens: int, totalTokens: int, reason: Reason, bytes: nat)

  /** What the outside world says next; each question reads the parts it needs. */
  datatype Answer = Answer(
    terminal: Option<Interruption>,  // contextTerminal
    stale: Option<Interruption>,     // checkAttempt
    controls: Option<seq<Control>>,
    ok: bool,                      // the call succeeds
    bytes: nat,                    // the encoded size of a request
    response: Response,
    finish: Option<Status>,        // decodeFinish
    text: Bytes,                   // an observation, an error or an encoded reply
    sourceComplete: bool)

  datatype Config = Config(
    maxTurns: nat, maxToolCalls: nat, maxToolCallsPerTurn: nat, maxTotalTokens: int, maxOutputTokensPerTurn: int,
    maxRequestBytes: int, maxAssistantBytes: int, maxObservationBytes: nat, maxEpisodePayloadBytes: int)

  datatype Encoders = Encoders(
    blank: Bytes -> bool, error: Bytes -> Bytes, empty: Bytes -> Bytes, long: Bytes -> Bytes,
    artifact: Bytes -> Bytes, compact: Bytes)

  datatype Outcome = Done(status: Status) | Failed

  /** What one tool call leads to: a reply and the owner's input, or the end of the run. */
  datatype CallResult = Answered(content: Bytes, users: seq<Message>) | Ended(outcome: Outcome)

  /** What a run keeps count of; `kept` is what it sends besides the fresh messages. */
  datatype Account = Account(tokens: int, spent: int, acted: nat, seen: set<string>, kept: seq<Message>)

  /** Where a turn begins. */
  datatype Snapshot = Snapshot(asked: nat, version: int, account: Account)

  /** What a turn comes to: the run ends, or these calls are acted upon, the first from question `start`. */
  datatype Plan = Stops(outcome: Outcome) | Acts(calls: seq<Call>, start: nat, tokens: int, spent: int)

  // ----- Transcripts -----

  /** `replies` answer `calls` one by one, in order, within the bound. */
  ghost predicate Answers(bound: nat, calls: seq<Call>, replies: seq<Message>) {
    && |replies| == |calls|
    && forall i | 0 <= i < |calls| ::
         replies[i].Reply? && replies[i].callID == calls[i].id && |replies[i].content| <= bound
  }

  /** Every assistant message is followed at once by one reply to each of its calls, and there are no other replies. */
  ghost predicate WellFormed(bound: nat, ms: seq<Message>) {
    if ms == [] then true
    else if ms[0].Assistant? then
      var n := |ms[0].calls|;
      |ms| > n && Answers(bound, ms[0].calls, ms[1..n + 1]) && WellFormed(bound, ms[n + 1..])
    else !ms[0].Reply? && WellFormed(bound, ms[1..])
  }

  ghost predicate Exchange(bound: nat, e: seq<Message>) {
    e != [] && e[0].Assistant? && Answers(bound, e[0].calls, e[1..])
  }

  lemma ExchangeInFront(bound: nat, e: seq<Message>, rest: seq<Message>)
    requires Exchange(bound, e) && WellFormed(bound, rest)
    ensures WellFormed(bound, e + rest)
  {
    var n := |e[0].calls|;
    assert (e + rest)[1..n + 1] == e[1..] && (e + rest)[n + 1..] == rest;
  }

  /** The first message and the replies it calls for. */
  function HeadSize(ms: seq<Message>): nat
    requires ms != []
  {
    if ms[0].Assistant? then |ms[0].calls| + 1 else 1
  }

  lemma HeadAndRest(bound: nat, ms: seq<Message>, n: nat)
    requires WellFormed(bound, ms) && ms != [] && n == HeadSize(ms)
    ensures n <= |ms| && WellFormed(bound, ms[n..])
    ensures if ms[0].Assistant? then Exchange(bound, ms[..n]) else ms[..n] == [ms[0]] && !ms[0].Reply?
  {
    if ms[0].Assistant? {
      assert ms[..n][1..] == ms[1..n];
    }
  }

  lemma OtherInFront(bound: nat, m: Message, rest: seq<Message>)
    requires !m.Assistant? && !m.Reply? && WellFormed(bound, rest)
    ensures WellFormed(bound, [m] + rest)
  {
    assert ([m] + rest)[1..] == rest;
  }

  lemma {:induction false} WellFormedAppend(bound: nat, a: seq<Message>, b: seq<Message>)
    requires WellFormed(bound, a) && WellFormed(bound, b)
    ensures WellFormed(bound, a + b)
    decreases |a|
  {
    if a == [] {
      assert a + b == b;
    } else {
      var n := HeadSize(a);
      HeadAndRest(bound, a, n);
      var head, rest := a[..n], a[n..];
      WellFormedAppend(bound, rest, b);
      if a[0].Assistant? {
        ExchangeInFront(bound, head, rest + b);
      } else {
        OtherInFront(bound, a[0], rest + b);
      }
      assert a + b == head + (rest + b);
    }
  }

  ghost predicate OnlyUsers(ms: seq<Message>) {
    forall i | 0 <= i < |ms| :: ms[i].User?
  }

  lemma {:induction false} UsersAreWellFormed(bound: nat, ms: seq<Message>)
    requires OnlyUsers(ms)
    ensures WellFormed(bound, ms)
    decreases |ms|
  {
    if ms != [] {
      UsersAreWellFormed(bound, ms[1..]);
    }
  }

  lemma ExchangeIsWellFormed(bound: nat, e: seq<Message>)
    requires Exchange(bound, e)
    ensures WellFormed(bound, e)
  {
    ExchangeInFront(bound, e, []);
    assert e + [] == e;
  }

  predicate Different(ids: seq<string>) {
    forall i, j | 0 <= i < j < |ids| :: ids[i] != ids[j]
  }

  /** How request `t` follows from the turn before it. */
  ghost predicate Follows(projection: bool, sent: seq<seq<Message>>, exchanges: seq<seq<Message>>, t: nat)
    requires t < |sent| && t <= |exchanges|
  {
    if projection then sent[t] == [System, User] + (if t == 0 then [] else exchanges[t - 1])
    else t > 0 ==> sent[t - 1] + exchanges[t - 1] <= sent[t]
  }

  /** What the requests of an episode look like. */
  ghost predicate Faithful(bound: nat, projection: bool, sent: seq<seq<Message>>, exchanges: seq<seq<Message>>) {
    && |exchanges| <= |sent| <= |exchanges| + 1
    && (forall t | 0 <= t < |sent| :: WellFormed(bound, sent[t]))
    && (forall t | 0 <= t < |exchanges| :: Exchange(bound, exchanges[t]))
    && (forall t | 0 <= t < |sent| :: Follows(projection, sent, exchanges, t))
  }

  lemma OneMoreRequest(bound: nat, projection: bool, sent: seq<seq<Message>>, exchanges: seq<seq<Message>>, m: seq<Message>)
    requires Faithful(bound, projection, sent, exchanges) && |sent| == |exchanges| && WellFormed(bound, m)
    requires Follows(projection, sent + [m], exchanges, |sent|)
    ensures Faithful(bound, projection, sent + [m], exchanges)
  {
    var sent' := sent + [m];
    forall t | 0 <= t < |sent'| ensures WellFormed(bound, sent'[t]) && Follows(projection, sent', exchanges, t) {
      if t < |sent| {
        assert sent'[t] == sent[t] && Follows(projection, sent, exchanges, t);
      }
    }
  }

  lemma OneMoreExchange(bound: nat, projection: bool, sent: seq<seq<Message>>, exchanges: seq<seq<Message>>, e: seq<Message>)
    requires Faithful(bound, projection, sent, exchanges) && |sent| == |exchanges| + 1 && Exchange(bound, e)
    ensures Faithful(bound, projection, sent, exchanges + [e])
  {
    var exchanges' := exchanges + [e];
    forall t | 0 <= t < |sent| ensures Follows(projection, sent, exchanges', t) {
      assert Follows(projection, sent, exchanges, t) && (t > 0 ==> exchanges'[t - 1] == exchanges[t - 1]);
    }
    forall t | 0 <= t < |exchanges'| ensures Exchange(bound, exchanges'[t]) {
      assert t < |exchanges| ==> exchanges'[t] == exchanges[t];
    }
  }

  class Loop {
    const cfg: Config
    const projection: bool      // a decision projection source is set
    const hasControls: bool
    const hasStore: bool        // an observation store is set
    const allowed: set<string>
    const encode: Encoders
    const script: nat -> Answer
    const patience: nat         // polls of waitForInput until its context ends

    var asked: nat
    var messages: seq<Message>
    var protocolTail: seq<Message>
    var controlVersion: int
    var episodePayloadBytes: int
    var seenCallIDs: set<string>
    var turns: nat
    var toolCalls: nat
    var totalTokens: int

    ghost var sent: seq<seq<Message>>       // the messages of every model request
    ghost var exchanges: seq<seq<Message>>  // each completed turn's assistant message and replies
    ghost var executed: seq<string>         // the call ids acted upon, in order
    ghost var persisted: seq<Bytes>         // the observations handed to the store, in order
    ghost var used: seq<string>             // the coding tools run, in order
    ghost var declared: Option<Status>      // what finish_task has declared

    constructor (cfg: Config, projection: bool, hasControls: bool, hasStore: bool, allowed: set<string>, encode: Encoders,
                 script: nat -> Answer, patience: nat)
      requires cfg.maxTotalTokens >= 0 && cfg.maxEpisodePayloadBytes >= 0
      ensures this.cfg == cfg && this.projection == projection && this.hasControls == hasControls && this.hasStore == hasStore
      ensures this.allowed == allowed && this.encode == encode && this.script == script && this.patience == patience
      ensures asked == 0 && controlVersion == 0
      ensures Counted() && TurnStart() && sent == [] && exchanges == [] && executed == [] && turns == 0 && declared == None
    {
      this.cfg, this.projection, this.hasControls, this.hasStore := cfg, projection, hasControls, hasStore;
      this.allowed, this.encode, this.script, this.patience := allowed, encode, script, patience;
      asked, protocolTail, controlVersion, episodePayloadBytes, seenCallIDs := 0, [], 0, 0, {};
      messages := if projection then [] else [System, User];
      turns, toolCalls, totalTokens := 0, 0, 0;
      sent, exchanges, executed, persisted, used, declared := [], [], [], [], [], None;
      new;
      assert WellFormed(cfg.maxObservationBytes, [User]);
    }

    /** No call id has been acted upon twice, within the limit, and only allowed tools have been run. */
    ghost predicate CallsCounted()
      reads `toolCalls, `executed, `seenCallIDs, `used
    {
      && toolCalls == |executed| <= cfg.maxToolCalls
      && Different(executed) && (forall id :: id in seenCallIDs <==> id in executed)
      && (forall i | 0 <= i < |used| :: used[i] in allowed)
    }

    /** Holds all the time: the limits, and what has been sent. */
    ghost predicate Counted()
      reads `toolCalls, `executed, `seenCallIDs, `episodePayloadBytes, `turns, `sent, `exchanges, `used
    {
      && CallsCounted()
      && 0 <= episodePayloadBytes <= cfg.maxEpisodePayloadBytes && turns <= |sent|
      && Faithful(cfg.maxObservationBytes, projection, sent, exchanges)
    }

    /** Holds whenever a turn begins. */
    ghost predicate TurnStart()
      reads `sent, `exchanges, `totalTokens, `protocolTail, `messages
    {
      && |sent| == |exchanges| && totalTokens <= cfg.maxTotalTokens
      && (projection ==> protocolTail == (if exchanges == [] then [] else exchanges[|exchanges| - 1])
                         && |messages| == (if exchanges == [] then 0 else 2))
      && (!projection ==> WellFormed(cfg.maxObservationBytes, messages)
                          && (sent != [] ==> sent[|sent| - 1] + exchanges[|sent| - 1] <= messages))
    }

    method Ask() returns (a: Answer)
      modifies `asked
      ensures asked == old(asked) + 1 && a == script(old(asked))
    {
      a := script(asked);
      asked := asked + 1;
    }

    // ----- Controls -----

    static predicate Acceptable(c: Control) {
      c.ofTask && c.intact && (c.kind == Cancel || (c.kind != Unsupported && c.payloadValid))
    }

    /** The version is above the one before it. */
    static predicate Rises(cs: seq<Control>, after: int, i: nat)
      requires i < |cs|
    {
      cs[i].version > if i == 0 then after else cs[i - 1].version
    }

    static predicate Speaks(c: Control) {
      c.kind == Steer || c.kind == InputGiven
    }

    static predicate Usable(cs: seq<Control>, after: int) {
      forall i | 0 <= i < |cs| :: Acceptable(cs[i]) && Rises(cs, after, i)
    }

    /** The controls that a poll reads whose question is number `n`. */
    function ControlsRead(n: nat): Option<seq<Control>> {
      if hasControls then script(n).controls else Some([])
    }

    /** The question after a poll that is number `n`. */
    function AfterPoll(n: nat): nat {
      if hasControls then n + 1 else n
    }

    static predicate Has(cs: seq<Control>, kind: Kind) {
      exists i :: 0 <= i < |cs| && cs[i].kind == kind
    }

    /** All controls are taken, or none: one that is invalid or out of order leaves the version where it was. */
    method ConsumeControls()
      returns (ok: bool, texts: seq<Message>, sawInput: bool, cancelRequested: bool, ghost read: Option<seq<Control>>)
      modifies `asked, `controlVersion
      ensures read == ControlsRead(old(asked)) && asked == AfterPoll(old(asked))
      ensures ok <==> read.Some? && Usable(read.value, old(controlVersion))
      ensures !ok ==> controlVersion == old(controlVersion) && texts == [] && !sawInput && !cancelRequested
      ensures ok ==> controlVersion == if read.value == [] then old(controlVersion) else read.value[|read.value| - 1].version
      ensures ok ==> (sawInput <==> Has(read.value, InputGiven)) && (cancelRequested <==> Has(read.value, Cancel))
      ensures OnlyUsers(texts) && (ok ==> |texts| == Spoken(read.value))
      ensures controlVersion >= old(controlVersion)
    {
      texts, sawInput, cancelRequested := [], false, false;
      if !hasControls { return true, [], false, false, Some([]); }
      var a := Ask();
      read := a.controls;
      if a.controls.None? { return false, [], false, false, read; }
      ok := Check(a.controls.value, controlVersion);
      if !ok { return false, [], false, false, read; }
      texts, sawInput, cancelRequested := Digest(a.controls.value);
      if a.controls.value != [] {
        VersionsRise(a.controls.value, controlVersion, |a.controls.value| - 1);
        controlVersion := a.controls.value[|a.controls.value| - 1].version;
      }
    }

    static lemma {:induction false} VersionsRise(cs: seq<Control>, after: int, i: nat)
      requires Usable(cs, after) && i < |cs|
      ensures cs[i].version > after
    {
      assert Rises(cs, after, i);
      if i > 0 {
        VersionsRise(cs, after, i - 1);
      }
    }

    static method Check(controls: seq<Control>, after: int) returns (ok: bool)
      ensures ok <==> Usable(controls, after)
    {
      var next := after;
      for n := 0 to |controls|
        invariant forall i | 0 <= i < n :: Acceptable(controls[i]) && Rises(controls, after, i)
        invariant next == if n == 0 then after else controls[n - 1].version
      {
        var c := controls[n];
        if !c.ofTask || c.version <= next || !c.intact || c.kind == Unsupported || (c.kind != Cancel && !c.payloadValid) {
          assert !(Acceptable(controls[n]) && Rises(controls, after, n));
          return false;
        }
        next := c.version;
      }
      ok := true;
    }

    static method Digest(controls: seq<Control>) returns (texts: seq<Message>, sawInput: bool, cancelRequested: bool)
      ensures (sawInput <==> Has(controls, InputGiven)) && (cancelRequested <==> Has(controls, Cancel))
      ensures OnlyUsers(texts) && |texts| == Spoken(controls)
    {
      texts, sawInput, cancelRequested := [], false, false;
      for n := 0 to |controls|
        invariant OnlyUsers(texts) && |texts| == Spoken(controls[..n])
        invariant (sawInput <==> Has(controls[..n], InputGiven)) && (cancelRequested <==> Has(controls[..n], Cancel))
      {
        assert controls[..n + 1] == controls[..n] + [controls[n]];
        if Speaks(controls[n]) { texts := texts + [User]; }
        sawInput := sawInput || controls[n].kind == InputGiven;
        cancelRequested := cancelRequested || controls[n].kind == Cancel;
      }
      assert controls[..|controls|] == controls;
    }

    static function Spoken(cs: seq<Control>): nat {
      if cs == [] then 0 else Spoken(cs[..|cs| - 1]) + (if Speaks(cs[|cs| - 1]) then 1 else 0)
    }

    /** A steering message or an input is told to the model, in one message; no other control is. */
    static lemma SteersAndInputsAreTold(cs: seq<Control>, c: Control)
      ensures Spoken([]) == 0 && Spoken(cs + [c]) == Spoken(cs) + if c.kind in {Steer, InputGiven} then 1 else 0
    {
      assert (cs + [c])[..|cs|] == cs;
    }

    /** Where poll `k` of a wait begins that begins with question `n`. */
    function PollAt(n: nat, k: nat): nat {
      if hasControls then n + 2 * k else n + k
    }

    static function SpokenInAll(read: seq<seq<Control>>): nat {
      if read == [] then 0 else SpokenInAll(read[..|read| - 1]) + Spoken(read[|read| - 1])
    }

    /** Neither input nor a cancellation is among these controls. */
    static predicate Idle(cs: seq<Control>) {
      !Has(cs, InputGiven) && !Has(cs, Cancel)
    }

    /** What ends a poll before its controls count: the context, the attempt's authority or a broken control stream. */
    ghost predicate BrokenOff(n: nat, version: int, end: Interruption) {
      || script(n).terminal == Some(end)
      || (script(n).terminal.None? && script(n).stale == Some(end))
      || (script(n).terminal.None? && script(n).stale.None? && end == Blocked
          && (ControlsRead(n + 1).None? || !Usable(ControlsRead(n + 1).value, version)))
    }

    method Poll() returns (texts: seq<Message>, end: Option<Interruption>, sawInput: bool, ghost batch: Option<seq<Control>>)
      modifies `asked, `controlVersion
      ensures OnlyUsers(texts)
      ensures asked > old(asked) && controlVersion >= old(controlVersion)
      ensures batch.None? ==> texts == [] && !sawInput && end.Some? && BrokenOff(old(asked), controlVersion, end.value)
      ensures batch.Some? ==>
                && batch == ControlsRead(old(asked) + 1) && asked == AfterPoll(old(asked) + 1)
                && |texts| == Spoken(batch.value) && (sawInput <==> Has(batch.value, InputGiven))
                && end == if Has(batch.value, Cancel) then Some(Cancelled) else None
    {
      var a := Ask();
      if a.terminal.Some? { return [], a.terminal, false, None; }
      if a.stale.Some? { return [], a.stale, false, None; }
      var ok, more, input, cancelRequested, read := ConsumeControls();
      if !ok { return [], Some(Blocked), false, None; }
      return more, if cancelRequested then Some(Cancelled) else None, input, read;
    }

    /** What the polls from question `n` on have read. */
    ghost predicate ReadByPolls(n: nat, read: seq<seq<Control>>) {
      forall k | 0 <= k < |read| :: ControlsRead(PollAt(n, k) + 1) == Some(read[k])
    }

    lemma OneMoreRead(n: nat, read: seq<seq<Control>>, batch: seq<Control>)
      requires ReadByPolls(n, read) && ControlsRead(PollAt(n, |read|) + 1) == Some(batch)
      ensures ReadByPolls(n, read + [batch]) && SpokenInAll(read + [batch]) == SpokenInAll(read) + Spoken(batch)
    {
      assert (read + [batch])[..|read|] == read;
    }

    /**
     * Polls until input or a cancellation arrives, or the wait is over. `read` is what the polls
     * read: only the last can hold input or a cancellation, and what it holds decides.
     */
    method WaitForInput() returns (texts: seq<Message>, end: Option<Interruption>, ghost read: seq<seq<Control>>)
      modifies `asked, `controlVersion
      ensures OnlyUsers(texts) && |texts| == SpokenInAll(read)
      ensures asked > old(asked) && controlVersion >= old(controlVersion)
      ensures ReadByPolls(old(asked), read) && forall k | 0 <= k < |read| - 1 :: Idle(read[k])
      ensures end.None? <==> read != [] && Has(read[|read| - 1], InputGiven) && !Has(read[|read| - 1], Cancel)
      ensures read != [] && Has(read[|read| - 1], Cancel) ==> end == Some(Cancelled)
      ensures end.Some? && (read == [] || Idle(read[|read| - 1])) ==>
                BrokenOff(PollAt(old(asked), |read|), controlVersion, end.value) || (|read| == patience + 1 && end == Some(Cancelled))
    {
      texts, end, read := [], None, [];
      var left := patience;
      while true
        invariant OnlyUsers(texts) && |texts| == SpokenInAll(read) && |read| == patience - left
        invariant asked == PollAt(old(asked), |read|) >= old(asked) && controlVersion >= old(controlVersion)
        invariant ReadByPolls(old(asked), read)
        invariant forall k | 0 <= k < |read| :: Idle(read[k])
        decreases left
      {
        var more, stop, sawInput, batch := Poll();
        if batch.Some? {
          OneMoreRead(old(asked), read, batch.value);
          read := read + [batch.value];
        }
        texts := texts + more;
        if stop.Some? { return texts, stop, read; }
        if sawInput { return texts, None, read; }
        if left == 0 {
          var a := Ask();
          return texts, Some(if a.terminal.Some? then a.terminal.value else Cancelled), read;
        }
        left := left - 1;
      }
    }

    // ----- One tool call -----

    /** A text that fits with the reserve is shown whole. */
    ghost predicate Shows(encode: Bytes -> Bytes, text: Bytes, content: Bytes) {
      |text| <= cfg.maxObservationBytes - 160 && |encode(text)| <= cfg.maxObservationBytes ==> content == encode(text)
    }

    /** An error is shown, and nobody has spoken. */
    ghost predicate ErrorShown(text: Bytes, r: CallResult) {
      r.Answered? && r.users == [] && Shows(encode.error, text, r.content)
    }

    /** A text within the bound is shown as it is. */
    ghost predicate TextShown(text: Bytes, r: CallResult) {
      r.Answered? && (!encode.blank(text) && |text| <= cfg.maxObservationBytes ==> r.content == text)
    }

    method ErrorReply(text: Bytes) returns (r: CallResult)
      ensures r.Answered? && |r.content| <= cfg.maxObservationBytes && r.users == [] && Shows(encode.error, text, r.content)
    {
      var content, _ := BoundedObservationEnvelope(encode.error, text, cfg.maxObservationBytes);
      r := Answered(content, []);
    }

    method BoundedReply(text: Bytes, users: seq<Message>) returns (r: CallResult)
      ensures r.Answered? && |r.content| <= cfg.maxObservationBytes && r.users == users
      ensures !encode.blank(text) && |text| <= cfg.maxObservationBytes ==> r.content == text
    {
      var content := BoundObservation(encode.blank, encode.empty, encode.long, text, cfg.maxObservationBytes);
      r := Answered(content, users);
    }

    /** Whatever the tool: a reply within the bound, input only from request_input, completion only from finish_task. */
    ghost predicate Fitting(call: Call, r: CallResult) {
      && (r.Answered? ==> |r.content| <= cfg.maxObservationBytes && OnlyUsers(r.users) && (r.users != [] ==> call.tool.Input?))
      && (r.Ended? && r.outcome == Done(CompletedCandidate) ==> call.tool.Finish?)
    }

    /** A failed preparation is answered, a stale attempt ends the run, a failed transition ends it; then it waits. */
    ghost predicate InputTaken(n: nat, r: CallResult, read: seq<seq<Control>>) {
      var a, b := script(n), script(n + 1);
      if !a.ok || !hasControls then ErrorShown(a.text, r)
      else if a.stale.Some? then r == Ended(Done(a.stale.value))
      else if !b.ok then r == Ended(Done(if b.stale.Some? then b.stale.value else Blocked))
      else
        && ReadByPolls(n + 2, read)
        && (r.Answered? <==> read != [] && Has(read[|read| - 1], InputGiven) && !Has(read[|read| - 1], Cancel))
        && (r.Answered? ==> |r.users| == SpokenInAll(read) && TextShown(b.text, r))
        && (read != [] && Has(read[|read| - 1], Cancel) ==> r == Ended(Done(Cancelled)))
        && (r.Ended? ==> r.outcome.Done? && r.outcome.status != CompletedCandidate)
    }

    method RequestInput() returns (r: CallResult, ghost read: seq<seq<Control>>)
      modifies `asked, `controlVersion
      ensures Fitting(Call([], Input), r) && asked > old(asked) && controlVersion >= old(controlVersion) && InputTaken(old(asked), r, read)
    {
      read := [];
      var a := Ask();
      if !a.ok {
        r := ErrorReply(a.text);
        return;
      }
      if !hasControls {
        r := ErrorReply(a.text);
        return;
      }
      if a.stale.Some? { return Ended(Done(a.stale.value)), read; }
      var entered := Ask();
      if !entered.ok { return Ended(Done(if entered.stale.Some? then entered.stale.value else Blocked)), read; }
      var texts, end;
      texts, end, read := WaitForInput();
      if end.Some? { return Ended(Done(end.value)), read; }
      r := BoundedReply(entered.text, texts);
    }

    /** A failed preparation is answered, a stale attempt or a failed publication ends the run; otherwise the checkpoint is shown. */
    ghost predicate CheckpointTaken(n: nat, r: CallResult) {
      var a, b := script(n), script(n + 1);
      if !a.ok then ErrorShown(a.text, r)
      else if a.stale.Some? then r == Ended(Done(a.stale.value))
      else if !b.ok then r == Ended(Done(if b.stale.Some? then b.stale.value else Blocked))
      else TextShown(b.text, r)
    }

    method PublishCheckpoint() returns (r: CallResult)
      modifies `asked
      ensures Fitting(Call([], Checkpoint), r) && asked > old(asked) && CheckpointTaken(old(asked), r)
    {
      var a := Ask();
      if !a.ok {
        r := ErrorReply(a.text);
        return;
      }
      if a.stale.Some? { return Ended(Done(a.stale.value)); }
      var published := Ask();
      if !published.ok { return Ended(Done(if published.stale.Some? then published.stale.value else Blocked)); }
      r := BoundedReply(published.text, []);
    }

    static predicate Mutates(name: string) {
      name == "write_file" || name == "replace_exact" || name == "replace_many_exact" || name == "run_command"
    }

    method ExecuteTool(name: string) returns (a: Answer)
      modifies `asked, `used
      ensures asked == old(asked) + 1 && a == script(old(asked)) && used == old(used) + [name]
    {
      a := Ask();
      used := used + [name];
    }

    /** A tool is run exactly if it is allowed and, when it can change the workspace, the attempt is current. */
    ghost predicate Runs(n: nat, name: string) {
      name in allowed && (name in {"write_file", "replace_exact", "replace_many_exact", "run_command"} ==> script(n).stale.None?)
    }

    /** What comes of a tool: its evidence or its error is shown, or the context, the attempt or the store ends the run. */
    ghost predicate ToolTaken(n: nat, name: string, r: CallResult) {
      var a, b := script(n), script(n + 1);
      if name !in allowed then ErrorShown(a.text, r)
      else if !Runs(n, name) then r == Ended(Done(a.stale.value))
      else if b.terminal.Some? then r == Ended(Done(b.terminal.value))
      else if !b.ok then ErrorShown(b.text, r)
      else if |b.text| > cfg.maxObservationBytes || !b.sourceComplete then
        && (if hasStore && script(n + 2).ok then r.Answered? else r == Ended(Done(Blocked)))
        && (r.Answered? && |b.text| <= cfg.maxObservationBytes ==> r.content == b.text)
      else TextShown(b.text, r)
    }

    method UseCodingTool(name: string) returns (r: CallResult)
      modifies `asked, `persisted, `used
      ensures Fitting(Call([], Coding(name)), r) && asked > old(asked) && ToolTaken(old(asked), name, r)
      ensures used == if Runs(old(asked), name) then old(used) + [name] else old(used)
      ensures var b := script(old(asked) + 1);
              persisted == if Runs(old(asked), name) && b.terminal.None? && b.ok && r.Answered?
                              && (|b.text| > cfg.maxObservationBytes || !b.sourceComplete)
                           then old(persisted) + [b.text] else old(persisted)
    {
      var a := Ask();
      if name !in allowed {
        r := ErrorReply(a.text);
        return;
      }
      if Mutates(name) && a.stale.Some? { return Ended(Done(a.stale.value)); }
      a := ExecuteTool(name);
      if a.terminal.Some? { return Ended(Done(a.terminal.value)); }
      if !a.ok {
        r := ErrorReply(a.text);
        return;
      }
      r := ShowObservation(a.text, a.sourceComplete);
    }

    /** finish_task ends the run with the very status it declares; what cannot be decoded is answered. */
    ghost predicate FinishTaken(n: nat, r: CallResult) {
      if script(n).finish.Some? then r == Ended(Done(script(n).finish.value)) else ErrorShown(script(n).text, r)
    }

    method FinishTask() returns (r: CallResult)
      modifies `asked, `declared
      ensures Fitting(Call([], Finish), r) && asked > old(asked) && FinishTaken(old(asked), r)
      ensures declared == if script(old(asked)).finish.Some? then script(old(asked)).finish else old(declared)
    {
      var a := Ask();
      if a.finish.None? {
        r := ErrorReply(a.text);
      } else {
        declared := a.finish;
        r := Ended(Done(a.finish.value));
      }
    }

    method PersistObservation(observation: Bytes) returns (ok: bool)
      modifies `asked, `persisted
      ensures asked == old(asked) + 1 && ok == script(old(asked)).ok
      ensures persisted == if ok then old(persisted) + [observation] else old(persisted)
    {
      var stored := Ask();
      ok := stored.ok;
      if ok { persisted := persisted + [observation]; }
    }

    /**
     * Evidence that does not fit, or is not complete, is persisted before it is shown: it is shown
     * exactly if there is a store and the store has taken it. Evidence that fits is shown as it is.
     */
    method ShowObservation(observation: Bytes, sourceComplete: bool) returns (r: CallResult)
      modifies `asked, `persisted
      ensures asked >= old(asked)
      ensures r.Answered? ==> |r.content| <= cfg.maxObservationBytes && r.users == []
      ensures r.Ended? ==> r.outcome == Done(Blocked)
      ensures |observation| > cfg.maxObservationBytes || !sourceComplete ==>
                && (r.Answered? <==> hasStore && script(old(asked)).ok)
                && persisted == if r.Answered? then old(persisted) + [observation] else old(persisted)
      ensures |observation| <= cfg.maxObservationBytes && sourceComplete ==> r.Answered? && persisted == old(persisted)
      ensures r.Answered? && |observation| <= cfg.maxObservationBytes && (!sourceComplete || !encode.blank(observation)) ==>
                r.content == observation
    {
      if |observation| > cfg.maxObservationBytes || !sourceComplete {
        if !hasStore { return Ended(Done(Blocked)); }
        var stored := PersistObservation(observation);
        if !stored { return Ended(Done(Blocked)); }
        if |observation| > cfg.maxObservationBytes {
          var content := BoundedArtifactObservation(encode.artifact, encode.compact, observation, cfg.maxObservationBytes);
          return Answered(content, []);
        }
        return Answered(observation, []);
      }
      r := BoundedReply(observation, []);
    }

    /** The declaration is that of the last finish_task; one that has been decoded ends the run as it says. */
    ghost predicate AsDeclared(before: Option<Status>, end: Option<Outcome>)
      reads `declared
    {
      && (end == Some(Done(CompletedCandidate)) ==> declared == Some(CompletedCandidate))
      && (declared != before ==> declared.Some? && end == Some(Done(declared.value)))
    }

    /** What a call leads to whose first question is number `n`. */
    ghost predicate Taken(n: nat, call: Call, r: CallResult) {
      match call.tool
      case Finish => FinishTaken(n, r)
      case Input => exists read :: InputTaken(n, r, read)
      case Checkpoint => CheckpointTaken(n, r)
      case Coding(name) => ToolTaken(n, name, r)
      case Nameless => ErrorShown(script(n).text, r)
    }

    /** The coding tools that a call runs. */
    ghost function RunBy(n: nat, call: Call): seq<string> {
      if call.tool.Coding? && Runs(n, call.tool.name) then [call.tool.name] else []
    }

    /** The evidence that a call leaves in the store. */
    ghost function StoredBy(n: nat, call: Call, r: CallResult): seq<Bytes> {
      var b := script(n + 1);
      if RunBy(n, call) != [] && b.terminal.None? && b.ok && r.Answered? && (|b.text| > cfg.maxObservationBytes || !b.sourceComplete)
      then [b.text] else []
    }

    method ExecuteCall(call: Call) returns (r: CallResult)
      modifies `asked, `controlVersion, `persisted, `used, `declared
      ensures Fitting(call, r) && asked > old(asked) && controlVersion >= old(controlVersion) && Taken(old(asked), call, r)
      ensures old(declared).None? ==> AsDeclared(None, if r.Ended? then Some(r.outcome) else None)
      ensures used == old(used) + RunBy(old(asked), call) && persisted == old(persisted) + StoredBy(old(asked), call, r)
    {
      match call.tool {
        case Finish => r := FinishTask();
        case Input =>
          ghost var read;
          r, read := RequestInput();
        case Checkpoint => r := PublishCheckpoint();
        case Coding(name) => r := UseCodingTool(name);
        case Nameless =>
          var a := Ask();
          r := ErrorReply(a.text);
      }
    }

    // ----- One batch of calls -----

    static predicate Reserved(t: Tool) {
      t.Finish? || t.Checkpoint? || t.Input?
    }

    /** A batch within both limits, of calls not seen before and with different ids, with a reserved call only alone. */
    ghost predicate FreshAfter(calls: seq<Call>, seen: set<string>, acted: nat) {
      && calls != [] && |calls| <= cfg.maxToolCallsPerTurn && acted + |calls| <= cfg.maxToolCalls
      && (forall i | 0 <= i < |calls| :: calls[i].id !in seen)
      && (forall i, j | 0 <= i < j < |calls| :: calls[i].id != calls[j].id)
      && (forall i | 0 <= i < |calls| && Reserved(calls[i].tool) :: |calls| == 1)
    }

    ghost predicate Fresh(calls: seq<Call>)
      reads this
    {
      FreshAfter(calls, seenCallIDs, toolCalls)
    }

    /** What stands against a batch: a limit that it would exceed exhausts the budget, anything else blocks. */
    ghost function BatchRejection(calls: seq<Call>, seen: set<string>, acted: nat): Option<Interruption> {
      if FreshAfter(calls, seen, acted) && forall i | 0 <= i < |calls| :: calls[i].id != "" then None
      else if calls != [] && (|calls| > cfg.maxToolCallsPerTurn || acted + |calls| > cfg.maxToolCalls) then Some(BudgetExhausted)
      else Some(Blocked)
    }

    /** The checks before any call of the batch is executed. */
    method CheckBatch(calls: seq<Call>) returns (end: Option<Interruption>)
      ensures end == BatchRejection(calls, seenCallIDs, toolCalls)
    {
      if calls == [] { return Some(Blocked); }
      if |calls| > cfg.maxToolCallsPerTurn || toolCalls + |calls| > cfg.maxToolCalls { return Some(BudgetExhausted); }
      var batch: set<string> := {};
      for n := 0 to |calls|
        invariant forall id :: id in batch <==> exists i :: 0 <= i < n && calls[i].id == id
        invariant forall i | 0 <= i < n :: calls[i].id != "" && calls[i].id !in seenCallIDs
        invariant forall i, j | 0 <= i < j < n :: calls[i].id != calls[j].id
      {
        if calls[n].id == "" { return Some(Blocked); }
        if calls[n].id in seenCallIDs { return Some(Blocked); }
        if calls[n].id in batch { return Some(Blocked); }
        batch := batch + {calls[n].id};
      }
      for n := 0 to |calls|
        invariant |calls| != 1 ==> forall i | 0 <= i < n :: !Reserved(calls[i].tool)
      {
        if Reserved(calls[n].tool) && |calls| != 1 { return Some(Blocked); }
      }
      end := None;
    }

    static function Ids(calls: seq<Call>): seq<string> {
      seq(|calls|, i requires 0 <= i < |calls| => calls[i].id)
    }

    /** The replies to calls that led to these results. */
    ghost function RepliesTo(calls: seq<Call>, results: seq<CallResult>): seq<Message>
      requires |results| <= |calls| && forall i | 0 <= i < |results| :: results[i].Answered?
    {
      seq(|results|, i requires 0 <= i < |results| => Reply(calls[i].id, results[i].content))
    }

    static ghost function UsersOf(results: seq<CallResult>): seq<Message>
      requires forall i | 0 <= i < |results| :: results[i].Answered?
    {
      if results == [] then [] else UsersOf(results[..|results| - 1]) + results[|results| - 1].users
    }

    ghost function AllRunBy(at: seq<nat>, calls: seq<Call>): seq<string>
      requires |at| <= |calls|
    {
      if at == [] then [] else AllRunBy(at[..|at| - 1], calls) + RunBy(at[|at| - 1], calls[|at| - 1])
    }

    /** Calls that have been acted upon one after the other, each from the question it began with, all but the last answered. */
    ghost predicate InOrder(calls: seq<Call>, at: seq<nat>, results: seq<CallResult>) {
      && |at| == |results| <= |calls|
      && (forall i {:trigger Taken(at[i], calls[i], results[i])} | 0 <= i < |at| :: Taken(at[i], calls[i], results[i]))
      && (forall i, j | 0 <= i < j < |at| :: at[i] < at[j])
      && (forall i | 0 <= i < |at| - 1 :: results[i].Answered?)
    }

    /** `e` is the exchange of these calls, the first of which begins with question `start`. */
    ghost predicate ExchangeOf(calls: seq<Call>, start: nat, e: seq<Message>) {
      exists at, results :: ExchangeBy(calls, start, at, results, e)
    }

    ghost predicate ExchangeBy(calls: seq<Call>, start: nat, at: seq<nat>, results: seq<CallResult>, e: seq<Message>) {
      && InOrder(calls, at, results) && at != [] && at[0] == start && |at| == |calls|
      && results[|at| - 1].Answered?
      && e == [Assistant(calls)] + RepliesTo(calls, results)
    }

    /** These calls end the run: the last that is acted upon ends it with this outcome. */
    ghost predicate EndedBy(calls: seq<Call>, start: nat, outcome: Outcome) {
      exists at, results :: EndedAt(calls, start, at, results, outcome)
    }

    ghost predicate EndedAt(calls: seq<Call>, start: nat, at: seq<nat>, results: seq<CallResult>, outcome: Outcome) {
      InOrder(calls, at, results) && at != [] && at[0] == start && results[|at| - 1] == Ended(outcome)
    }

    lemma OneMoreResult(calls: seq<Call>, at: seq<nat>, results: seq<CallResult>, n: nat, r: CallResult)
      requires InOrder(calls, at, results) && |at| < |calls| && Taken(n, calls[|at|], r)
      requires (at != [] ==> at[|at| - 1] < n) && forall i | 0 <= i < |results| :: results[i].Answered?
      ensures InOrder(calls, at + [n], results + [r])
    {
      var at', results' := at + [n], results + [r];
      forall i | 0 <= i < |at'| ensures Taken(at'[i], calls[i], results'[i]) {
        if i < |at| {
          assert at'[i] == at[i] && results'[i] == results[i] && Taken(at[i], calls[i], results[i]);
        }
      }
    }

    lemma OneMoreRun(calls: seq<Call>, at: seq<nat>, n: nat)
      requires |at| < |calls|
      ensures AllRunBy(at + [n], calls) == AllRunBy(at, calls) + RunBy(n, calls[|at|])
    {
      assert (at + [n])[..|at|] == at;
    }

    /** All calls with results have been answered, within the bound, by these replies, and these users have spoken. */
    ghost predicate Replied(calls: seq<Call>, results: seq<CallResult>, replies: seq<Message>, users: seq<Message>) {
      && |results| <= |calls| && (forall i | 0 <= i < |results| :: results[i].Answered?)
      && (forall i | 0 <= i < |results| :: |results[i].content| <= cfg.maxObservationBytes)
      && replies == RepliesTo(calls, results) && users == UsersOf(results) && OnlyUsers(users)
    }

    static lemma OneMoreUsers(results: seq<CallResult>, r: CallResult)
      requires r.Answered? && forall i | 0 <= i < |results| :: results[i].Answered?
      ensures UsersOf(results + [r]) == UsersOf(results) + r.users
    {
      assert (results + [r])[..|results|] == results;
    }

    lemma OneMoreReply(calls: seq<Call>, results: seq<CallResult>, r: CallResult, replies: seq<Message>, users: seq<Message>)
      requires |results| < |calls| && Replied(calls, results, replies, users)
      requires r.Answered? && |r.content| <= cfg.maxObservationBytes && OnlyUsers(r.users)
      ensures Replied(calls, results + [r], replies + [Reply(calls[|results|].id, r.content)], users + r.users)
    {
      OneMoreUsers(results, r);
      assert RepliesTo(calls, results + [r]) == RepliesTo(calls, results) + [Reply(calls[|results|].id, r.content)];
    }

    lemma RepliesAnswer(calls: seq<Call>, results: seq<CallResult>)
      requires |results| == |calls| && forall i | 0 <= i < |results| :: results[i].Answered? && |results[i].content| <= cfg.maxObservationBytes
      ensures Answers(cfg.maxObservationBytes, calls, RepliesTo(calls, results)) && Ids(calls)[..|calls|] == Ids(calls)
    {}

    /**
     * Acts upon the calls in order. `results` is what they lead to, each from its question in `at`:
     * the first that ends the run is the last, and its outcome is that of the batch.
     */
    method RunBatch(calls: seq<Call>)
      returns (end: Option<Outcome>, replies: seq<Message>, users: seq<Message>, ghost at: seq<nat>, ghost results: seq<CallResult>)
      requires CallsCounted() && Fresh(calls) && declared.None?
      modifies `asked, `controlVersion, `persisted, `used, `declared, `seenCallIDs, `toolCalls, `executed
      ensures CallsCounted() && |at| <= |calls| && executed == old(executed) + Ids(calls)[..|at|] && used == old(used) + AllRunBy(at, calls)
      ensures asked > old(asked) && controlVersion >= old(controlVersion) && toolCalls == old(toolCalls) + |at|
      ensures end.None? ==> executed == old(executed) + Ids(calls)
      ensures end.Some? ==> EndedAt(calls, old(asked), at, results, end.value)
      ensures end.None? ==>
                && ExchangeBy(calls, old(asked), at, results, [Assistant(calls)] + replies)
                && Answers(cfg.maxObservationBytes, calls, replies) && OnlyUsers(users) && users == UsersOf(results)
      ensures AsDeclared(None, end)
    {
      end, replies, users, at, results := RunCalls(calls);
      if end.None? { RepliesAnswer(calls, results); }
    }

    method RunCalls(calls: seq<Call>)
      returns (end: Option<Outcome>, replies: seq<Message>, users: seq<Message>, ghost at: seq<nat>, ghost results: seq<CallResult>)
      requires CallsCounted() && Fresh(calls) && declared.None?
      modifies `asked, `controlVersion, `persisted, `used, `declared, `seenCallIDs, `toolCalls, `executed
      ensures CallsCounted() && |at| <= |calls| && executed == old(executed) + Ids(calls)[..|at|] && used == old(used) + AllRunBy(at, calls)
      ensures asked > old(asked) && controlVersion >= old(controlVersion) && toolCalls == old(toolCalls) + |at|
      ensures at != [] && at[0] == old(asked)
      ensures end.Some? ==> EndedAt(calls, old(asked), at, results, end.value)
      ensures end.None? ==> |at| == |calls| && InOrder(calls, at, results) && Replied(calls, results, replies, users)
      ensures AsDeclared(None, end)
    {
      end, replies, users, at, results := None, [], [], [], [];
      for n := 0 to |calls|
        invariant declared.None? && end.None? && |at| == n
        invariant if n == 0 then asked == old(asked) else at[0] == old(asked) <= at[n - 1] < asked
        invariant InOrder(calls, at, results) && Replied(calls, results, replies, users)
        invariant controlVersion >= old(controlVersion) && used == old(used) + AllRunBy(at, calls)
        invariant CallsCounted() && toolCalls == old(toolCalls) + n && executed == old(executed) + Ids(calls)[..n]
      {
        end, replies, users, at, results := RunCall(calls[n], replies, users, calls, old(executed), at, results);
        if end.Some? { return; }
      }
    }

    /** The next call of a batch. */
    method RunCall(call: Call, replies: seq<Message>, users: seq<Message>,
                   ghost calls: seq<Call>, ghost before: seq<string>, ghost at: seq<nat>, ghost results: seq<CallResult>)
      returns (end: Option<Outcome>, replies': seq<Message>, users': seq<Message>, ghost at': seq<nat>, ghost results': seq<CallResult>)
      requires CallsCounted() && toolCalls < cfg.maxToolCalls && declared.None?
      requires |at| < |calls| && call == calls[|at|] && executed == before + Ids(calls)[..|at|]
      requires forall i | 0 <= i < |calls| :: calls[i].id !in before
      requires forall i, j | 0 <= i < j < |calls| :: calls[i].id != calls[j].id
      requires InOrder(calls, at, results) && Replied(calls, results, replies, users) && (at != [] ==> at[|at| - 1] < asked)
      modifies `asked, `controlVersion, `persisted, `used, `declared, `seenCallIDs, `toolCalls, `executed
      ensures CallsCounted() && toolCalls == old(toolCalls) + 1 && executed == before + Ids(calls)[..|at| + 1]
      ensures |at'| == |at| + 1 && at'[0] == (if at == [] then old(asked) else at[0])
      ensures old(asked) == at'[|at'| - 1] < asked && controlVersion >= old(controlVersion)
      ensures end.Some? ==> EndedAt(calls, at'[0], at', results', end.value)
      ensures end.None? ==> InOrder(calls, at', results') && Replied(calls, results', replies', users')
      ensures var ran := RunBy(old(asked), call); used == old(used) + ran && AllRunBy(at', calls) == AllRunBy(at, calls) + ran
      ensures AsDeclared(None, end)
    {
      ghost var begun := asked;
      var r := CarryOut(call, calls, before, |at|);
      OneMoreResult(calls, at, results, begun, r);
      OneMoreRun(calls, at, begun);
      at', results' := at + [begun], results + [r];
      if r.Ended? { return Some(r.outcome), replies, users, at', results'; }
      OneMoreReply(calls, results, r, replies, users);
      end, replies', users' := None, replies + [Reply(call.id, r.content)], users + r.users;
    }

    method CarryOut(call: Call, ghost calls: seq<Call>, ghost before: seq<string>, ghost n: nat) returns (r: CallResult)
      requires CallsCounted() && toolCalls < cfg.maxToolCalls && declared.None?
      requires n < |calls| && call == calls[n] && executed == before + Ids(calls)[..n]
      requires forall i | 0 <= i < |calls| :: calls[i].id !in before
      requires forall i, j | 0 <= i < j < |calls| :: calls[i].id != calls[j].id
      modifies `asked, `controlVersion, `persisted, `used, `declared, `seenCallIDs, `toolCalls, `executed
      ensures CallsCounted() && toolCalls == old(toolCalls) + 1 && executed == before + Ids(calls)[..n + 1]
      ensures old(asked) < asked && controlVersion >= old(controlVersion) && used == old(used) + RunBy(old(asked), call)
      ensures Fitting(call, r) && Taken(old(asked), call, r) && AsDeclared(None, if r.Ended? then Some(r.outcome) else None)
    {
      Note(call, n, calls, before);
      assert Ids(calls)[..n + 1] == Ids(calls)[..n] + [call.id];
      r := ExecuteCall(call);
    }

    method Note(call: Call, ghost n: nat, ghost calls: seq<Call>, ghost before: seq<string>)
      requires CallsCounted() && n < |calls| && call == calls[n] && executed == before + Ids(calls)[..n] && toolCalls < cfg.maxToolCalls
      requires forall i | 0 <= i < |calls| :: calls[i].id !in before
      requires forall i, j | 0 <= i < j < |calls| :: calls[i].id != calls[j].id
      modifies `seenCallIDs, `toolCalls, `executed
      ensures CallsCounted() && toolCalls == old(toolCalls) + 1 && executed == old(executed) + [call.id]
    {
      assert forall i | 0 <= i < n :: Ids(calls)[..n][i] != call.id;
      seenCallIDs, toolCalls, executed := seenCallIDs + {call.id}, toolCalls + 1, executed + [call.id];
    }

    // ----- What a turn is to do -----

    ghost function Books(): Account
      reads `totalTokens, `episodePayloadBytes, `toolCalls, `seenCallIDs, `protocolTail, `messages
    {
      Account(totalTokens, episodePayloadBytes, toolCalls, seenCallIDs, if projection then protocolTail else messages)
    }

    ghost function Now(): Snapshot
      reads `asked, `controlVersion, `totalTokens, `episodePayloadBytes, `toolCalls, `seenCallIDs, `protocolTail, `messages
    {
      Snapshot(asked, controlVersion, Books())
    }

    static function Users(n: nat): seq<Message> {
      seq(n, _ => User)
    }

    /** What the turn that begins at `s` comes to: the first thing that stands against it, or the calls it acts upon. */
    ghost function TurnPlan(s: Snapshot): Plan {
      var a := script(s.asked);
      if a.terminal.Some? then Stops(Done(a.terminal.value))
      else if a.stale.Some? then Stops(Done(a.stale.value))
      else ControlsPlan(s.account, s.version, s.asked + 1)
    }

    ghost function ControlsPlan(a: Account, version: int, n: nat): Plan {
      var read := ControlsRead(n);
      if read.None? || !Usable(read.value, version) then Stops(Done(Blocked))
      else if Has(read.value, Cancel) then Stops(Done(Cancelled))
      else if a.tokens >= cfg.maxTotalTokens then Stops(Done(BudgetExhausted))
      else RequestPlan(if projection then a else a.(kept := a.kept + Users(Spoken(read.value))), AfterPoll(n))
    }

    ghost function RequestPlan(a: Account, n: nat): Plan {
      if projection && !script(n).ok then Stops(Done(if script(n).stale.Some? then script(n).stale.value else Blocked))
      else SendPlan(a, if projection then n + 1 else n)
    }

    ghost function SendPlan(a: Account, n: nat): Plan {
      var stop := Unsent(a, n);
      if stop.Some? then Stops(stop.value)
      else ResponsePlan(a.(spent := a.spent + script(n).bytes), script(n + 1).response, n + 2)
    }

    /** Why there is no response to a request. */
    ghost function Unsent(a: Account, n: nat): Option<Outcome> {
      if !Named(a.kept) then Some(Failed)
      else if !Fits(script(n).bytes, a.spent) then Some(Done(BudgetExhausted))
      else if !script(n + 1).ok then Some(Done(if script(n + 1).terminal.Some? then script(n + 1).terminal.value else Blocked))
      else None
    }

    ghost function ResponsePlan(a: Account, response: Response, n: nat): Plan {
      var stop := Rejection(response, MaxOutput(a.tokens), a.tokens, a.spent);
      if stop.Some? then Stops(Done(stop.value))
      else BatchPlan(a.(tokens := a.tokens + response.totalTokens, spent := a.spent + response.bytes), response.calls, n)
    }

    ghost function BatchPlan(a: Account, calls: seq<Call>, n: nat): Plan {
      var stop := BatchRejection(calls, a.seen, a.acted);
      if stop.Some? then Stops(Done(stop.value)) else Acts(calls, n, a.tokens, a.spent)
    }

    function MaxOutput(tokens: int): int {
      if cfg.maxOutputTokensPerTurn < cfg.maxTotalTokens - tokens then cfg.maxOutputTokensPerTurn else cfg.maxTotalTokens - tokens
    }

    /** ValidateTurnRequest: every assistant call that is sent back must have a name. */
    static predicate Named(ms: seq<Message>) {
      forall i | 0 <= i < |ms| && ms[i].Assistant? :: forall j | 0 <= j < |ms[i].calls| :: !ms[i].calls[j].tool.Nameless?
    }

    /** A request of so many bytes keeps the bound for one request and the bound for all. */
    predicate Fits(bytes: nat, spent: int) {
      bytes <= cfg.maxRequestBytes && spent + bytes <= cfg.maxEpisodePayloadBytes
    }

    /** The first thing that disqualifies a response. */
    ghost function Rejection(response: Response, maxOutput: int, tokens: int, spent: int): Option<Interruption> {
      if response.inputTokens < 0 || response.outputTokens < 0 || response.totalTokens <= 0 then Some(Blocked)
      else if response.outputTokens > maxOutput || tokens + response.totalTokens > cfg.maxTotalTokens || response.reason == Length then
        Some(BudgetExhausted)
      else if response.reason != Complete then Some(Blocked)
      else if response.bytes > cfg.maxAssistantBytes || spent + response.bytes > cfg.maxEpisodePayloadBytes then Some(BudgetExhausted)
      else if !response.ofAssistant then Some(Blocked)
      else None
    }

    // ----- One turn -----

    method AppendUsers(texts: seq<Message>)
      requires TurnStart() && !projection && OnlyUsers(texts)
      modifies `messages
      ensures TurnStart() && messages == old(messages) + texts
    {
      UsersAreWellFormed(cfg.maxObservationBytes, texts);
      WellFormedAppend(cfg.maxObservationBytes, messages, texts);
      messages := messages + texts;
    }

    /** A turn may begin: the context and the attempt live, the controls are usable and do not cancel, and tokens are left. */
    predicate MayBegin(n: nat, version: int, tokens: int) {
      && script(n).terminal.None? && script(n).stale.None?
      && ControlsRead(n + 1).Some? && Usable(ControlsRead(n + 1).value, version) && !Has(ControlsRead(n + 1).value, Cancel)
      && tokens < cfg.maxTotalTokens
    }

    /** How a turn ends against which something stands. */
    ghost predicate Opened(s: Snapshot, end: Option<Interruption>) {
      var a, read := script(s.asked), ControlsRead(s.asked + 1);
      if a.terminal.Some? then end == a.terminal
      else if a.stale.Some? then end == a.stale
      else if read.None? || !Usable(read.value, s.version) then end == Some(Blocked)
      else if Has(read.value, Cancel) then end == Some(Cancelled)
      else end == if s.account.tokens >= cfg.maxTotalTokens then Some(BudgetExhausted) else None
    }

    /** Exactly then nothing stands against it. */
    lemma TurnBeginsIff(s: Snapshot)
      ensures Opened(s, None) <==> MayBegin(s.asked, s.version, s.account.tokens)
    {}

    lemma OpeningGoesOn(s: Snapshot, end: Option<Interruption>, a: Account)
      requires Opened(s, end)
      requires end.None? && projection ==> a == s.account
      requires end.None? && !projection ==> a == s.account.(kept := s.account.kept + Users(Spoken(ControlsRead(s.asked + 1).value)))
      ensures TurnPlan(s) == if end.Some? then Stops(Done(end.value)) else RequestPlan(a, AfterPoll(s.asked + 1))
    {}

    /** The first thing that stands against a turn ends the run; otherwise the turn goes on with the messages of its controls. */
    method BeforeTurn() returns (end: Option<Interruption>)
      requires Counted() && TurnStart()
      modifies `asked, `controlVersion, `messages
      ensures Counted() && TurnStart() && (end.None? ==> totalTokens < cfg.maxTotalTokens)
      ensures Opened(old(Now()), end)
      ensures TurnPlan(old(Now())) == if end.Some? then Stops(Done(end.value)) else RequestPlan(Books(), asked)
      ensures controlVersion >= old(controlVersion) && asked > old(asked)
    {
      end := AskBeforeTurn();
      OpeningGoesOn(old(Now()), end, Books());
    }

    /** Everything that is asked before a request is built. */
    method AskBeforeTurn() returns (end: Option<Interruption>)
      requires Counted() && TurnStart()
      modifies `asked, `controlVersion, `messages
      ensures Counted() && TurnStart()
      ensures Opened(old(Now()), end)
      ensures end.None? ==> messages == if projection then old(messages) else old(messages) + Users(Spoken(ControlsRead(old(asked) + 1).value))
      ensures controlVersion >= old(controlVersion) && asked > old(asked)
      ensures asked == AfterPoll(old(asked) + 1) || end.Some?
    {
      var a := Ask();
      if a.terminal.Some? { return a.terminal; }
      if a.stale.Some? { return a.stale; }
      end := TakeControls();
      if end.None? && cfg.maxTotalTokens - totalTokens <= 0 { return Some(BudgetExhausted); }
    }

    /** The controls of a turn: their messages join the transcript, and a cancellation or a broken stream ends the run. */
    method TakeControls() returns (end: Option<Interruption>)
      requires Counted() && TurnStart()
      modifies `asked, `controlVersion, `messages
      ensures Counted() && TurnStart()
      ensures var read := ControlsRead(old(asked));
              end == if read.None? || !Usable(read.value, old(controlVersion)) then Some(Blocked)
                     else if Has(read.value, Cancel) then Some(Cancelled) else None
      ensures end.None? ==> messages == if projection then old(messages) else old(messages) + Users(Spoken(ControlsRead(old(asked)).value))
      ensures controlVersion >= old(controlVersion) && asked == AfterPoll(old(asked))
    {
      var ok, texts, _, cancelRequested, _ := ConsumeControls();
      if !ok { return Some(Blocked); }
      if !projection {
        AppendUsers(texts);
        assert texts == Users(|texts|);
      }
      return if cancelRequested then Some(Cancelled) else None;
    }

    /** The request's messages: the whole transcript, or a fresh projection with the exchange before it. */
    method BuildRequest() returns (end: Option<Interruption>, turnMessages: seq<Message>)
      requires Counted() && TurnStart()
      modifies `asked
      ensures Counted() && TurnStart()
      ensures end.None? ==> turnMessages == if projection then [System, User] + protocolTail else messages
      ensures if projection && !script(old(asked)).ok
              then end == Some(if script(old(asked)).stale.Some? then script(old(asked)).stale.value else Blocked) else end.None?
      ensures asked >= old(asked)
      ensures RequestPlan(Books(), old(asked)) == if end.Some? then Stops(Done(end.value)) else SendPlan(Books(), asked)
    {
      end, turnMessages := None, messages;
      if projection {
        var a := Ask();
        if !a.ok { return Some(if a.stale.Some? then a.stale.value else Blocked), []; }
        turnMessages := [System, User] + protocolTail;
      }
    }

    ghost predicate Sendable(turnMessages: seq<Message>)
      reads this
    {
      turnMessages == if projection then [System, User] + protocolTail else messages
    }

    static lemma FreshMessagesAreNamed(tail: seq<Message>)
      ensures Named([System, User] + tail) <==> Named(tail)
    {
      var ms := [System, User] + tail;
      assert forall i | 0 <= i < |tail| :: ms[i + 2] == tail[i];
      if Named(ms) {
        forall i | 0 <= i < |tail| && tail[i].Assistant? ensures forall j | 0 <= j < |tail[i].calls| :: !tail[i].calls[j].tool.Nameless? {
          assert ms[i + 2].Assistant?;
        }
      }
    }

    lemma RequestIsWellFormed(turnMessages: seq<Message>)
      requires Counted() && TurnStart() && Sendable(turnMessages)
      ensures WellFormed(cfg.maxObservationBytes, turnMessages)
    {
      if projection {
        var bound := cfg.maxObservationBytes;
        if exchanges != [] { ExchangeIsWellFormed(bound, protocolTail); }
        assert WellFormed(bound, [User]) && WellFormed(bound, [System, User]);
        WellFormedAppend(bound, [System, User], protocolTail);
      }
    }

    lemma RequestsStayFaithful(turnMessages: seq<Message>)
      requires Counted() && TurnStart() && Sendable(turnMessages)
      ensures Faithful(cfg.maxObservationBytes, projection, sent + [turnMessages], exchanges)
    {
      RequestIsWellFormed(turnMessages);
      assert (sent + [turnMessages])[|sent|] == turnMessages;
      assert sent != [] ==> (sent + [turnMessages])[|sent| - 1] == sent[|sent| - 1];
      OneMoreRequest(cfg.maxObservationBytes, projection, sent, exchanges, turnMessages);
    }

    /** Sends the request exactly if it keeps the bounds. */
    method Send(turnMessages: seq<Message>) returns (end: Option<Outcome>, response: Response)
      requires Counted() && TurnStart() && Sendable(turnMessages) && turns == |sent|
      modifies `asked, `episodePayloadBytes, `sent, `turns
      ensures Counted() && exchanges == old(exchanges)
      ensures if Named(turnMessages) && Fits(script(old(asked)).bytes, old(episodePayloadBytes))
              then sent == old(sent) + [turnMessages] && episodePayloadBytes == old(episodePayloadBytes) + script(old(asked)).bytes
              else sent == old(sent) && episodePayloadBytes == old(episodePayloadBytes) && end.Some?
      ensures end.None? ==> turns == |sent|
      ensures asked >= old(asked)
      ensures end == Unsent(old(Books()), old(asked))
      ensures end.None? ==> asked == old(asked) + 2 && response == script(old(asked) + 1).response
      ensures end != Some(Done(CompletedCandidate))
    {
      var a := Ask();
      response := a.response;
      FreshMessagesAreNamed(protocolTail);
      if !Named(turnMessages) { return Some(Failed), response; }
      if a.bytes > cfg.maxRequestBytes { return Some(Done(BudgetExhausted)), response; }
      if episodePayloadBytes + a.bytes > cfg.maxEpisodePayloadBytes { return Some(Done(BudgetExhausted)), response; }
      Dispatch(turnMessages, a.bytes);
      var stop;
      stop, response := TakeResponse();
      end := if stop.Some? then Some(Done(stop.value)) else None;
    }

    /** What a response to the request leads to is what the request leads to. */
    lemma ResponseGoesOn(a: Account, n: nat, a': Account)
      requires Unsent(a, n).None? ==> a' == a.(spent := a.spent + script(n).bytes)
      ensures SendPlan(a, n) == if Unsent(a, n).Some? then Stops(Unsent(a, n).value) else ResponsePlan(a', script(n + 1).response, n + 2)
    {}

    method SendAsPlanned(turnMessages: seq<Message>) returns (end: Option<Outcome>, response: Response)
      requires Counted() && TurnStart() && Sendable(turnMessages) && turns == |sent|
      modifies `asked, `episodePayloadBytes, `sent, `turns
      ensures Counted() && |old(sent)| <= |sent| <= |old(sent)| + 1
      ensures end.None? ==> sent == old(sent) + [turnMessages] && turns == |sent|
      ensures asked >= old(asked) && end != Some(Done(CompletedCandidate))
      ensures SendPlan(old(Books()), old(asked)) == if end.Some? then Stops(end.value) else ResponsePlan(Books(), response, asked)
    {
      end, response := Send(turnMessages);
      ResponseGoesOn(old(Books()), old(asked), Books());
    }

    method Dispatch(turnMessages: seq<Message>, bytes: nat)
      requires Counted() && TurnStart() && Sendable(turnMessages) && turns == |sent|
      requires episodePayloadBytes + bytes <= cfg.maxEpisodePayloadBytes
      modifies `episodePayloadBytes, `sent
      ensures Counted() && sent == old(sent) + [turnMessages] && episodePayloadBytes == old(episodePayloadBytes) + bytes
    {
      episodePayloadBytes := episodePayloadBytes + bytes;
      RequestsStayFaithful(turnMessages);
      sent := sent + [turnMessages];
    }

    /** The model's turn; it counts unless the context ends it. */
    method TakeResponse() returns (end: Option<Interruption>, response: Response)
      modifies `asked, `turns
      ensures var a := script(old(asked));
              && asked == old(asked) + 1 && response == a.response
              && end == (if a.ok then None else if a.terminal.Some? then a.terminal else Some(Blocked))
              && turns == if !a.ok && a.terminal.Some? then old(turns) else old(turns) + 1
    {
      var answered := Ask();
      response := answered.response;
      if !answered.ok {
        if answered.terminal.Some? { return answered.terminal, response; }
        turns := turns + 1;
        return Some(Blocked), response;
      }
      turns := turns + 1;
      end := None;
    }

    /** The accounting is usable and the turn is complete and within every bound. */
    predicate Passes(response: Response, maxOutput: int, tokens: int, spent: int) {
      && response.inputTokens >= 0 && response.outputTokens >= 0 && response.totalTokens > 0
      && response.outputTokens <= maxOutput && tokens + response.totalTokens <= cfg.maxTotalTokens
      && response.reason == Complete && response.ofAssistant
      && response.bytes <= cfg.maxAssistantBytes && spent + response.bytes <= cfg.maxEpisodePayloadBytes
    }

    /** What disqualifies a response; no call of such a turn is executed. */
    method CheckResponse(response: Response, maxOutput: int) returns (end: Option<Interruption>)
      requires Counted() && totalTokens <= cfg.maxTotalTokens && maxOutput == MaxOutput(totalTokens)
      modifies `totalTokens, `episodePayloadBytes
      ensures Counted()
      ensures ResponsePlan(old(Books()), response, asked)
              == if end.Some? then Stops(Done(end.value)) else BatchPlan(Books(), response.calls, asked)
      ensures end.None? <==> Passes(response, maxOutput, old(totalTokens), old(episodePayloadBytes))
      ensures end.None? ==> totalTokens == old(totalTokens) + response.totalTokens <= cfg.maxTotalTokens
                            && episodePayloadBytes == old(episodePayloadBytes) + response.bytes
    {
      if response.inputTokens < 0 || response.outputTokens < 0 || response.totalTokens <= 0 { return Some(Blocked); }
      totalTokens := totalTokens + response.totalTokens;
      if response.outputTokens > maxOutput { return Some(BudgetExhausted); }
      if totalTokens > cfg.maxTotalTokens { return Some(BudgetExhausted); }
      match response.reason {
        case Complete =>
        case Length => return Some(BudgetExhausted);
        case _ => return Some(Blocked);
      }
      if response.bytes > cfg.maxAssistantBytes { return Some(BudgetExhausted); }
      if episodePayloadBytes + response.bytes > cfg.maxEpisodePayloadBytes { return Some(BudgetExhausted); }
      episodePayloadBytes := episodePayloadBytes + response.bytes;
      if !response.ofAssistant { return Some(Blocked); }
      end := None;
    }

    /** The transcript after the turn; with a projection only the exchange is kept. */
    method Record(calls: seq<Call>, replies: seq<Message>, users: seq<Message>)
      requires Counted() && totalTokens <= cfg.maxTotalTokens && calls != []
      requires |sent| == |exchanges| + 1 && Answers(cfg.maxObservationBytes, calls, replies) && OnlyUsers(users)
      requires projection ==> |messages| == if exchanges == [] then 0 else 2
      requires !projection ==> WellFormed(cfg.maxObservationBytes, messages) && sent[|sent| - 1] == messages
      modifies `messages, `protocolTail, `exchanges
      ensures Counted() && TurnStart() && exchanges == old(exchanges) + [[Assistant(calls)] + replies]
      ensures !projection ==> messages == old(messages) + ([Assistant(calls)] + replies) + users
    {
      ghost var exchange := [Assistant(calls)] + replies;
      assert exchange[1..] == replies && Exchange(cfg.maxObservationBytes, exchange);
      OneMoreExchange(cfg.maxObservationBytes, projection, sent, exchanges, exchange);
      KeepTranscript(calls, replies, users, exchange);
      exchanges := exchanges + [exchange];
    }

    method KeepTranscript(calls: seq<Call>, replies: seq<Message>, users: seq<Message>, ghost exchange: seq<Message>)
      requires exchange == [Assistant(calls)] + replies && Exchange(cfg.maxObservationBytes, exchange) && calls != []
      requires OnlyUsers(users) && Answers(cfg.maxObservationBytes, calls, replies)
      requires !projection ==> WellFormed(cfg.maxObservationBytes, messages)
      modifies `messages, `protocolTail
      ensures projection ==> protocolTail == exchange && |messages| == 2
      ensures !projection ==> messages == old(messages) + exchange + users && WellFormed(cfg.maxObservationBytes, messages)
    {
      var protocolStart := |messages|;
      messages := messages + [Assistant(calls)] + replies + users;
      if projection {
        KeepsExchange(old(messages), calls, replies, users);
        protocolTail := Paired(messages[protocolStart..]);
        messages := messages[..2];
      } else {
        GrowsWellFormed(cfg.maxObservationBytes, old(messages), exchange, users);
        assert messages == old(messages) + exchange + users;
      }
    }

    static lemma GrowsWellFormed(bound: nat, before: seq<Message>, exchange: seq<Message>, users: seq<Message>)
      requires WellFormed(bound, before) && Exchange(bound, exchange) && OnlyUsers(users)
      ensures WellFormed(bound, before + exchange + users)
    {
      ExchangeIsWellFormed(bound, exchange);
      UsersAreWellFormed(bound, users);
      WellFormedAppend(bound, before, exchange);
      WellFormedAppend(bound, before + exchange, users);
    }

    /** The assistant and tool messages. */
    static function Paired(ms: seq<Message>): seq<Message> {
      if ms == [] then []
      else if ms[0].Assistant? || ms[0].Reply? then [ms[0]] + Paired(ms[1..]) else Paired(ms[1..])
    }

    static lemma {:induction false} PairedKeeps(kept: seq<Message>, users: seq<Message>)
      requires (forall i | 0 <= i < |kept| :: kept[i].Assistant? || kept[i].Reply?) && OnlyUsers(users)
      ensures Paired(kept + users) == kept
      decreases |kept| + |users|
    {
      if kept != [] {
        PairedKeeps(kept[1..], users);
        assert (kept + users)[1..] == kept[1..] + users;
      } else if users != [] {
        PairedKeeps([], users[1..]);
        assert (kept + users)[1..] == [] + users[1..];
      }
    }

    lemma KeepsExchange(before: seq<Message>, calls: seq<Call>, replies: seq<Message>, users: seq<Message>)
      requires Answers(cfg.maxObservationBytes, calls, replies) && OnlyUsers(users)
      ensures Paired((before + [Assistant(calls)] + replies + users)[|before|..]) == [Assistant(calls)] + replies
    {
      assert (before + [Assistant(calls)] + replies + users)[|before|..] == [Assistant(calls)] + replies + users;
      PairedKeeps([Assistant(calls)] + replies, users);
    }

    // ----- What a turn does -----

    /** Under this plan the run ends like this. */
    ghost predicate PlanEnds(plan: Plan, outcome: Outcome) {
      match plan
      case Stops(o) => outcome == o
      case Acts(calls, start, _, _) => EndedBy(calls, start, outcome)
    }

    /** Under this plan the run goes on with this exchange. */
    ghost predicate PlanGoesOn(plan: Plan, e: seq<Message>) {
      plan.Acts? && ExchangeOf(plan.calls, plan.start, e)
    }

    /** The turn that begins at `s` leads to the exchange `e`, and the next begins at `next`. */
    ghost predicate TurnGoesOn(s: Snapshot, next: Snapshot, e: seq<Message>) {
      var plan := TurnPlan(s);
      && PlanGoesOn(plan, e)
      && next.asked > s.asked && next.version >= s.version
      && next.account.tokens == plan.tokens && next.account.spent == plan.spent
      && next.account.acted == s.account.acted + |plan.calls|
      && (forall id :: id in next.account.seen <==> id in s.account.seen || id in Ids(plan.calls))
      && (projection ==> next.account.kept == e)
    }

    /**
     * What has been done is as planned. Nothing is done if the plan stops the run; if the run goes
     * on, `e` is the exchange, and everything is counted.
     */
    twostate predicate Did(new plan: Plan, new end: Option<Outcome>, new e: seq<Message>)
      reads this
    {
      && (plan.Stops? ==> executed == old(executed) && used == old(used))
      && (if end.Some? then PlanEnds(plan, end.value) && exchanges == old(exchanges)
          else
            && PlanGoesOn(plan, e) && exchanges == old(exchanges) + [e]
            && executed == old(executed) + Ids(plan.calls) && toolCalls == old(toolCalls) + |plan.calls|
            && totalTokens == plan.tokens && episodePayloadBytes == plan.spent
            && asked > old(asked) && controlVersion >= old(controlVersion))
    }

    /** The calls of a response that passes: they are not acted upon at all, end the run, or become an exchange. */
    method ActOn(calls: seq<Call>) returns (end: Option<Outcome>, ghost e: seq<Message>)
      requires Counted() && totalTokens <= cfg.maxTotalTokens && turns == |sent| == |exchanges| + 1 && declared.None?
      requires projection ==> |messages| == if exchanges == [] then 0 else 2
      requires !projection ==> WellFormed(cfg.maxObservationBytes, messages) && sent[|sent| - 1] == messages
      modifies `asked, `controlVersion, `persisted, `used, `declared, `seenCallIDs, `toolCalls, `executed
      modifies `messages, `protocolTail, `exchanges
      ensures Counted() && AsDeclared(None, end)
      ensures Did(BatchPlan(old(Books()), calls, old(asked)), end, e)
      ensures (end.None? ==> TurnStart())
    {
      e := [];
      var stop := CheckBatch(calls);
      if stop.Some? { return Some(Done(stop.value)), e; }
      end, e := RunAndRecord(calls);
    }

    method RunAndRecord(calls: seq<Call>) returns (end: Option<Outcome>, ghost e: seq<Message>)
      requires Counted() && totalTokens <= cfg.maxTotalTokens && |sent| == |exchanges| + 1 && declared.None? && Fresh(calls)
      requires projection ==> |messages| == if exchanges == [] then 0 else 2
      requires !projection ==> WellFormed(cfg.maxObservationBytes, messages) && sent[|sent| - 1] == messages
      modifies `asked, `controlVersion, `persisted, `used, `declared, `seenCallIDs, `toolCalls, `executed
      modifies `messages, `protocolTail, `exchanges
      ensures Counted() && AsDeclared(None, end)
      ensures if end.Some? then EndedBy(calls, old(asked), end.value) && exchanges == old(exchanges)
              else
                && exchanges == old(exchanges) + [e] && ExchangeOf(calls, old(asked), e)
                && executed == old(executed) + Ids(calls) && toolCalls == old(toolCalls) + |calls|
                && asked > old(asked) && controlVersion >= old(controlVersion)
      ensures end.None? ==> TurnStart()
    {
      var replies, users;
      ghost var at, results;
      end, replies, users, at, results := RunBatch(calls);
      e := [Assistant(calls)] + replies;
      if end.None? {
        Record(calls, replies, users);
      }
    }

    method AfterResponse(response: Response, maxOutput: int) returns (end: Option<Outcome>, ghost e: seq<Message>)
      requires Counted() && totalTokens <= cfg.maxTotalTokens && turns == |sent| == |exchanges| + 1 && declared.None?
      requires maxOutput == MaxOutput(totalTokens)
      requires projection ==> |messages| == if exchanges == [] then 0 else 2
      requires !projection ==> WellFormed(cfg.maxObservationBytes, messages) && sent[|sent| - 1] == messages
      modifies `asked, `controlVersion, `persisted, `used, `declared, `seenCallIDs, `toolCalls, `executed
      modifies `messages, `protocolTail, `exchanges, `totalTokens, `episodePayloadBytes
      ensures Counted() && AsDeclared(None, end)
      ensures Did(ResponsePlan(old(Books()), response, old(asked)), end, e)
      ensures (end.None? ==> TurnStart())
    {
      e := [];
      var stop := CheckResponse(response, maxOutput);
      if stop.Some? { return Some(Done(stop.value)), e; }
      end, e := ActOn(response.calls);
    }

    /** One turn does what its plan says. */
    method Turn(ghost turn: nat) returns (end: Option<Outcome>, ghost e: seq<Message>)
      requires Counted() && TurnStart() && turns == |sent| == turn && turn < cfg.maxTurns && declared.None?
      modifies this
      ensures Counted() && |sent| <= turn + 1
      ensures end.None? ==> TurnStart() && turns == |sent| == turn + 1
      ensures Did(TurnPlan(old(Now())), end, e)
      ensures AsDeclared(None, end)
    {
      var stop := BeforeTurn();
      if stop.Some? { return Some(Done(stop.value)), []; }
      end, e := Proceed(turn);
    }

    /** The turn once nothing stands against it. */
    method Proceed(ghost turn: nat) returns (end: Option<Outcome>, ghost e: seq<Message>)
      requires Counted() && TurnStart() && turns == |sent| == turn && turn < cfg.maxTurns && totalTokens < cfg.maxTotalTokens
      requires declared.None?
      modifies this
      ensures Counted() && |sent| <= turn + 1
      ensures end.None? ==> TurnStart() && turns == |sent| == turn + 1
      ensures Did(RequestPlan(old(Books()), old(asked)), end, e)
      ensures AsDeclared(None, end)
    {
      var maxOutput := if cfg.maxOutputTokensPerTurn < cfg.maxTotalTokens - totalTokens
                       then cfg.maxOutputTokensPerTurn else cfg.maxTotalTokens - totalTokens;
      var stop, turnMessages := BuildRequest();
      if stop.Some? { return Some(Done(stop.value)), []; }
      end, e := SendAndAct(turnMessages, maxOutput);
    }

    method SendAndAct(turnMessages: seq<Message>, maxOutput: int) returns (end: Option<Outcome>, ghost e: seq<Message>)
      requires Counted() && TurnStart() && Sendable(turnMessages) && turns == |sent| && declared.None?
      requires maxOutput == MaxOutput(totalTokens)
      modifies this
      ensures Counted() && |sent| <= |old(sent)| + 1
      ensures end.None? ==> TurnStart() && turns == |sent| == |old(sent)| + 1
      ensures Did(SendPlan(old(Books()), old(asked)), end, e)
      ensures AsDeclared(None, end)
    {
      e := [];
      var response;
      end, response := SendAsPlanned(turnMessages);
      if end.Some? { return; }
      end, e := AfterResponse(response, maxOutput);
    }

    /** The turns of a run: from `begun[t]` turn `t` leads to exchange `t`, and the next turn begins where it has led. */
    ghost predicate Chained(begun: seq<Snapshot>)
      reads `exchanges
    {
      && |begun| == |exchanges| + 1
      && forall t | 0 <= t < |exchanges| :: Leads(begun, exchanges, t)
    }

    ghost predicate Leads(begun: seq<Snapshot>, exchanges: seq<seq<Message>>, t: nat)
      requires t < |exchanges| < |begun|
    {
      TurnGoesOn(begun[t], begun[t + 1], exchanges[t])
    }

    /** These calls are a lone finish_task that declares a completed candidate. */
    ghost predicate FinishAlone(plan: Plan) {
      && plan.Acts? && |plan.calls| == 1 && plan.calls[0].tool.Finish?
      && script(plan.start).finish == Some(CompletedCandidate)
    }

    /** Nothing but such a declaration completes a run. */
    lemma CompletionIsDeclared(s: Snapshot, outcome: Outcome)
      requires PlanEnds(TurnPlan(s), outcome)
      ensures outcome == Done(CompletedCandidate) <==> FinishAlone(TurnPlan(s))
    {
      var plan := TurnPlan(s);
      if plan.Acts? {
        var Acts(calls, start, _, _) := plan;
        assert FreshAfter(calls, s.account.seen, s.account.acted);
        var at, results :| EndedAt(calls, start, at, results, outcome);
        assert Taken(at[|at| - 1], calls[|at| - 1], results[|at| - 1]);
      }
    }

    twostate lemma GoesOn(new end: Option<Outcome>, new e: seq<Message>)
      requires old(Counted()) && Counted() && TurnStart() && end.None? && Did(TurnPlan(old(Now())), end, e)
      ensures TurnGoesOn(old(Now()), Now(), e)
    {}

    lemma OneMoreTurn(begun: seq<Snapshot>, exchanges: seq<seq<Message>>, next: Snapshot, e: seq<Message>)
      requires |begun| == |exchanges| + 1 && TurnGoesOn(begun[|exchanges|], next, e)
      requires forall t | 0 <= t < |exchanges| :: Leads(begun, exchanges, t)
      ensures forall t | 0 <= t <= |exchanges| :: Leads(begun + [next], exchanges + [e], t)
    {
      forall t | 0 <= t <= |exchanges| ensures Leads(begun + [next], exchanges + [e], t) {
        if t < |exchanges| {
          assert Leads(begun, exchanges, t);
        }
      }
    }

    /**
     * A whole run, turn by turn: each turn does what its plan says, until one ends the run, or
     * the last has been taken, which exhausts the budget. Every request is a well-formed
     * transcript, with a projection exactly the previous exchange behind it, otherwise an
     * extension of the request before; no call id is acted upon twice; requests, calls and payload
     * stay within their limits; only allowed tools are run; and the run completes exactly if
     * finish_task has declared it, and ends as any other declaration says.
     */
    method Run() returns (outcome: Outcome, ghost begun: seq<Snapshot>)
      requires Counted() && TurnStart() && turns == 0 && sent == [] && declared.None?
      modifies this
      ensures Counted() && |sent| <= cfg.maxTurns && turns <= |sent|
      ensures Chained(begun) && begun[0] == old(Now())
      ensures if |exchanges| == cfg.maxTurns then outcome == Done(BudgetExhausted) else PlanEnds(TurnPlan(begun[|exchanges|]), outcome)
      ensures outcome == Done(CompletedCandidate) <==> |exchanges| < cfg.maxTurns && FinishAlone(TurnPlan(begun[|exchanges|]))
      ensures outcome == Done(CompletedCandidate) <==> declared == Some(CompletedCandidate)
      ensures declared.Some? ==> outcome == Done(declared.value)
    {
      begun := [Now()];
      for turn := 0 to cfg.maxTurns
        invariant Counted() && TurnStart() && turns == |sent| == turn && declared.None?
        invariant Chained(begun) && begun[0] == old(Now()) && begun[turn] == Now()
      {
        label turnBegins:
        var end, e := Turn(turn);
        if end.Some? {
          CompletionIsDeclared(begun[turn], end.value);
          return end.value, begun;
        }
        GoesOn@turnBegins(end, e);
        OneMoreTurn(begun, exchanges[..turn], Now(), e);
        begun := begun + [Now()];
      }
      outcome := Done(BudgetExhausted);
    }
  }
}
