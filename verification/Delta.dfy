/** Incremental cognition requests: internal/service/cognition_delta.go. */
module Delta {
  import opened Decimal
  import opened Options
  import opened StringOrder

  // ----- JSON as jsonRawEqual sees it -----

  datatype Json =
    | Null
    | Bool(b: bool)
    | Number(n: int)
    | Text(s: string)
    | Array(items: seq<Json>)
    | Object(fields: seq<(string, Json)>)

  /** Numbers pass through a float64, which `round` stands for; up to 2^53 nothing changes. */
  ghost predicate Rounds(round: int -> int) {
    forall n | -0x20_0000_0000_0000 <= n <= 0x20_0000_0000_0000 :: round(n) == n
  }

  const TWO53: int := 0x20_0000_0000_0000

  /** How far apart the float64 numbers are at `n`. */
  function Spacing(n: nat): (u: nat)
    ensures u > 0
  {
    if n < TWO53 then 1 else 2 * Spacing(n / 2)
  }

  /** The nearest float64 to an integer, the one with the even significand at a tie. */
  function Float64(n: int): int
    decreases if n < 0 then 1 else 0
  {
    if n < 0 then -Float64(-n)
    else
      var u := Spacing(n);
      var q, r := n / u, n % u;
      if 2 * r < u || (2 * r == u && q % 2 == 0) then q * u else (q + 1) * u
  }

  lemma Float64Rounds()
    ensures Rounds(Float64)
    ensures Float64(TWO53 + 1) == Float64(TWO53) == TWO53
  {
    forall n | -TWO53 <= n <= TWO53 ensures Float64(n) == n {
      SmallIsExact(if n < 0 then -n else n);
    }
    assert Spacing(TWO53 + 1) == 2;
  }

  lemma SmallIsExact(n: nat)
    requires n <= TWO53
    ensures Float64(n) == n
  {
    if n == TWO53 {
      assert Spacing(TWO53 / 2) == 1 && Spacing(TWO53) == 2;
    } else {
      assert Spacing(n) == 1;
    }
  }

  /** The natural numbers that a float64 holds: up to 53 binary digits, and then zeros. */
  ghost predicate IsDouble(m: nat) {
    m < TWO53 || (m % 2 == 0 && IsDouble(m / 2))
  }

  ghost function Distance(a: int, b: int): nat {
    if a < b then b - a else a - b
  }

  /** No float64 is nearer than the one chosen, and where another is as near, the one chosen has the even significand. */
  lemma Float64IsNearest(n: nat, m: nat)
    requires IsDouble(m)
    ensures var k: int := n; Float64(-k) == -Float64(k)
    ensures Float64(n) >= 0 && IsDouble(Float64(n))
    ensures Distance(Float64(n), n) <= Distance(m, n)
    ensures Distance(Float64(n), n) == Distance(m, n) ==> m == Float64(n) || Float64(n) / Spacing(n) % 2 == 0
  {
    Significand(n);
    MultiplesAreDoubles(n, n / Spacing(n));
    MultiplesAreDoubles(n, n / Spacing(n) + 1);
    NothingBetween(n, m);
    NearestNeighbour(n, Spacing(n), n / Spacing(n), m);
  }

  lemma NearestNeighbour(n: nat, u: nat, q: nat, m: nat)
    requires u == Spacing(n) && q == n / u
    requires m <= q * u || q * u + u <= m
    ensures Float64(n) == q * u || Float64(n) == (q + 1) * u
    ensures Distance(Float64(n), n) <= Distance(m, n)
    ensures Distance(Float64(n), n) == Distance(m, n) ==> m == Float64(n) || Float64(n) / u % 2 == 0
  {
    var low, high, r := q * u, (q + 1) * u, n % u;
    LowAndHigh(n, u, q);
    if 2 * r < u {
      assert Float64(n) == low;
    } else if 2 * r > u {
      assert Float64(n) == high;
    }
  }

  lemma LowAndHigh(n: nat, u: nat, q: nat)
    requires u > 0 && q == n / u
    ensures n == q * u + n % u && (q + 1) * u == q * u + u
    ensures q * u / u == q && (q + 1) * u / u == q + 1
  {
    NextMultiple(q, 0, u);
    DividesTo(q * u, u, q, 0);
    DividesTo((q + 1) * u, u, q + 1, 0);
  }

  lemma {:induction false} Significand(n: nat)
    ensures n / Spacing(n) < TWO53
    ensures n < TWO53 || TWO53 <= 2 * (n / Spacing(n))
  {
    if n >= TWO53 {
      Significand(n / 2);
      HalvesDivide(n, Spacing(n / 2));
    }
  }

  lemma HalvesDivide(n: nat, u: nat)
    requires u > 0
    ensures n / (2 * u) == n / 2 / u
  {
    var q := n / 2 / u;
    assert n / 2 == q * u + n / 2 % u;
    assert n == q * (2 * u) + (2 * (n / 2 % u) + n % 2);
    DividesTo(n, 2 * u, q, 2 * (n / 2 % u) + n % 2);
  }

  lemma DividesTo(n: nat, u: nat, q: nat, r: nat)
    requires n == q * u + r && r < u
    ensures n / u == q
  {
    var d := n / u;
    assert n == d * u + n % u;
    if d > q {
      NextMultiple(q, d - q - 1, u);
    } else if d < q {
      NextMultiple(d, q - d - 1, u);
    }
  }

  lemma NextMultiple(b: nat, c: nat, u: nat)
    ensures (b + 1 + c) * u == b * u + u + c * u >= b * u + u
  {}

  lemma {:induction false} MultiplesAreDoubles(n: nat, k: nat)
    requires k <= TWO53
    ensures IsDouble(k * Spacing(n))
  {
    if n < TWO53 {
      assert IsDouble(TWO53 / 2);
    } else {
      MultiplesAreDoubles(n / 2, k);
      assert k * Spacing(n) == 2 * (k * Spacing(n / 2));
    }
  }

  lemma {:induction false} NothingBetween(n: nat, m: nat)
    requires IsDouble(m)
    ensures !(n / Spacing(n) * Spacing(n) < m < n / Spacing(n) * Spacing(n) + Spacing(n))
  {
    if n >= TWO53 {
      var u, q := Spacing(n / 2), n / Spacing(n);
      HalvesDivide(n, u);
      Significand(n);
      assert q * Spacing(n) == 2 * (q * u);
      assert q * u >= q;
      if m >= TWO53 {
        NothingBetween(n / 2, m / 2);
      }
    }
  }

  function Canon(round: int -> int, j: Json): Json {
    match j
    case Number(n) => Number(round(n))
    case Array(items) => Array(seq(|items|, i requires 0 <= i < |items| => Canon(round, items[i])))
    case Object(fields) => Object(seq(|fields|, i requires 0 <= i < |fields| => (fields[i].0, Canon(round, fields[i].1))))
    case _ => j
  }

  predicate RawEqual(round: int -> int, a: Json, b: Json) {
    Canon(round, a) == Canon(round, b)
  }

  predicate SmallNumbers(j: Json) {
    match j
    case Number(n) => -0x20_0000_0000_0000 <= n <= 0x20_0000_0000_0000
    case Array(items) => forall i | 0 <= i < |items| :: SmallNumbers(items[i])
    case Object(fields) => forall i | 0 <= i < |fields| :: SmallNumbers(fields[i].1)
    case _ => true
  }

  lemma {:induction false} SmallNumbersAreCanonical(round: int -> int, j: Json)
    requires Rounds(round) && SmallNumbers(j)
    ensures Canon(round, j) == j
  {
    match j
    case Array(items) =>
      forall i | 0 <= i < |items| ensures Canon(round, items[i]) == items[i] {
        SmallNumbersAreCanonical(round, items[i]);
      }
    case Object(fields) =>
      forall i | 0 <= i < |fields| ensures Canon(round, fields[i].1) == fields[i].1 {
        SmallNumbersAreCanonical(round, fields[i].1);
      }
    case _ =>
  }

  // ----- Sections -----

  /** The top-level fields of a projection, without the size field. */
  type Sections = map<string, Json>

  datatype Patch = Patch(changed: Sections, removed: seq<string>)

  predicate Differs(round: int -> int, previous: Sections, current: Sections, k: string)
    requires k in current
  {
    k !in previous || !RawEqual(round, previous[k], current[k])
  }

  /** The changed sections are the new and the differing ones, with their current values; the removed are those no longer there. */
  ghost predicate IsDiff(round: int -> int, previous: Sections, current: Sections, p: Patch) {
    && (forall k :: k in p.changed <==> k in current && Differs(round, previous, current, k))
    && (forall k | k in p.changed :: p.changed[k] == current[k])
    && (forall k :: k in p.removed <==> k in previous && k !in current)
  }

  method DiffProjectionSections(round: int -> int, previous: Sections, current: Sections) returns (p: Patch)
    ensures IsDiff(round, previous, current, p) && Ascending(p.removed)
  {
    var changed: Sections := map[];
    var rest := current.Keys;
    while rest != {}
      invariant rest <= current.Keys
      invariant forall k :: k in changed <==> k in current && k !in rest && Differs(round, previous, current, k)
      invariant forall k | k in changed :: changed[k] == current[k]
    {
      var k :| k in rest;
      if Differs(round, previous, current, k) { changed := changed[k := current[k]]; }
      rest := rest - {k};
    }
    var removed := SortKeys(previous.Keys - current.Keys);
    p := Patch(changed, removed);
  }

  function Removed(p: Patch): set<string> {
    set k | k in p.removed
  }

  /** What the receiver does with a patch. */
  function Applied(previous: Sections, p: Patch): Sections {
    (previous - Removed(p)) + p.changed
  }

  /** Patching gives back the current sections: the same keys, and values that are equal as float64 JSON. */
  lemma PatchingGivesCurrent(round: int -> int, previous: Sections, current: Sections, p: Patch)
    requires IsDiff(round, previous, current, p)
    ensures Applied(previous, p).Keys == current.Keys
    ensures forall k | k in current :: RawEqual(round, Applied(previous, p)[k], current[k])
  {
    var q := Applied(previous, p);
    forall k ensures k in q <==> k in current {
      assert k in Removed(p) <==> k in p.removed;
    }
  }

  /** It gives back exactly the current sections if and only if no two different values of a section are conflated. */
  lemma PatchingIsExactIff(round: int -> int, previous: Sections, current: Sections, p: Patch)
    requires IsDiff(round, previous, current, p)
    ensures Applied(previous, p) == current <==>
            forall k | k in previous && k in current && RawEqual(round, previous[k], current[k]) :: previous[k] == current[k]
  {
    PatchingGivesCurrent(round, previous, current, p);
    var q := Applied(previous, p);
    forall k | k in current ensures q[k] == if Differs(round, previous, current, k) then current[k] else previous[k] {
      assert k in Removed(p) <==> k in p.removed;
    }
  }

  /** With integers up to 2^53 the round trip is exact, and the changed keys are exactly the differing ones. */
  lemma PatchingIsExact(round: int -> int, previous: Sections, current: Sections, p: Patch)
    requires Rounds(round) && IsDiff(round, previous, current, p)
    requires (forall k | k in previous :: SmallNumbers(previous[k])) && forall k | k in current :: SmallNumbers(current[k])
    ensures Applied(previous, p) == current
    ensures p.changed.Keys == set k | k in current && (k !in previous || previous[k] != current[k])
  {
    forall k | k in previous && k in current ensures RawEqual(round, previous[k], current[k]) <==> previous[k] == current[k] {
      SmallNumbersAreCanonical(round, previous[k]);
      SmallNumbersAreCanonical(round, current[k]);
    }
    PatchingIsExactIff(round, previous, current, p);
  }

  /** A change between two integers that one float64 stands for is not sent. */
  lemma ConflatedNumbersAreNotSent(k: string, a: int, b: int, p: Patch)
    requires Float64(a) == Float64(b) && a != b && IsDiff(Float64, map[k := Number(a)], map[k := Number(b)], p)
    ensures p.changed == map[] && Applied(map[k := Number(a)], p) != map[k := Number(b)]
  {
    PatchingIsExactIff(Float64, map[k := Number(a)], map[k := Number(b)], p);
    assert RawEqual(Float64, Number(a), Number(b));
    assert map[k := Number(a)][k] != map[k := Number(b)][k];
  }

  /** It happens as soon as the integers are larger than 2^53: a section that goes from 2^53 to 2^53 + 1 does not change. */
  lemma LargeNumbersAreConflated(k: string, p: Patch)
    requires IsDiff(Float64, map[k := Number(TWO53)], map[k := Number(TWO53 + 1)], p)
    ensures p.changed == map[] && Applied(map[k := Number(TWO53)], p) == map[k := Number(TWO53)]
  {
    Float64Rounds();
    ConflatedNumbersAreNotSent(k, TWO53, TWO53 + 1, p);
    assert forall h :: h !in p.removed;
    assert Applied(map[k := Number(TWO53)], p) == map[k := Number(TWO53)];
  }

  /** The patch is determined by the two section maps. */
  lemma DiffIsUnique(round: int -> int, previous: Sections, current: Sections, p: Patch, q: Patch)
    requires IsDiff(round, previous, current, p) && Ascending(p.removed)
    requires IsDiff(round, previous, current, q) && Ascending(q.removed)
    ensures p == q
  {
    assert p.changed == q.changed;
    SameKeysSameOrder(p.removed, q.removed);
  }

  // ----- Requests -----

  type Tool = string

  datatype Request = Request(
    model: string, system: string, tail: seq<string>, tools: seq<Tool>, effort: string, maxOutput: int, sections: Sections)

  /** An empty field is not encoded, so it reads as unchanged. */
  datatype RequestDelta = RequestDelta(
    model: string, system: string, tail: seq<string>, tools: seq<Tool>, effort: string, maxOutput: int, sections: Patch)

  function DeltaOf(previous: Request, current: Request, p: Patch): RequestDelta {
    RequestDelta(
      if current.model != previous.model then current.model else "",
      if current.system != previous.system then current.system else "",
      current.tail,
      if current.tools != previous.tools then current.tools else [],
      if current.effort != previous.effort then current.effort else "",
      if current.maxOutput != previous.maxOutput then current.maxOutput else 0,
      p)
  }

  function Rebuilt(previous: Request, d: RequestDelta): Request {
    Request(
      if d.model == "" then previous.model else d.model,
      if d.system == "" then previous.system else d.system,
      d.tail,
      if d.tools == [] then previous.tools else d.tools,
      if d.effort == "" then previous.effort else d.effort,
      if d.maxOutput == 0 then previous.maxOutput else d.maxOutput,
      Applied(previous.sections, d.sections))
  }

  /** A field that becomes empty. */
  predicate Vanishes(previous: Request, current: Request) {
    || (current.model == "" && previous.model != "") || (current.system == "" && previous.system != "")
    || (current.tools == [] && previous.tools != []) || (current.effort == "" && previous.effort != "")
    || (current.maxOutput == 0 && previous.maxOutput != 0)
  }

  /** The delta gives back the request if and only if its sections do and no field becomes empty. */
  lemma RebuiltIsCurrentIff(previous: Request, current: Request, p: Patch)
    ensures Rebuilt(previous, DeltaOf(previous, current, p)) == current
            <==> Applied(previous.sections, p) == current.sections && !Vanishes(previous, current)
  {}

  /** Exactly the changed fields are sent, as far as they are not empty. */
  lemma UnchangedFieldsAreLeftOut(previous: Request, current: Request, p: Patch)
    ensures var d := DeltaOf(previous, current, p);
            && (d.model != "" <==> current.model !in {previous.model, ""})
            && (d.system != "" <==> current.system !in {previous.system, ""})
            && (d.tools != [] <==> current.tools !in {previous.tools, []})
            && (d.effort != "" <==> current.effort !in {previous.effort, ""})
            && (d.maxOutput != 0 <==> current.maxOutput !in {previous.maxOutput, 0})
  {}

  // ----- Turns -----

  datatype Turn = Turn(
    id: string, task: string, attempt: string, epoch: int, createdAt: int, intact: bool, responded: bool, respondedAt: bool,
    request: Option<Request>)  // None if it holds no projection

  predicate Earlier(t: Turn, current: Turn) {
    t.task == current.task && t.attempt == current.attempt && t.epoch == current.epoch && t.createdAt < current.createdAt
  }

  predicate Eligible(t: Turn, current: Turn) {
    t.id != current.id && Earlier(t, current) && t.responded && t.respondedAt && t.intact
  }

  /** A turn of the same attempt that came before, has been answered and is intact. */
  ghost predicate AnsweredBefore(t: Turn, current: Turn) {
    && t.id != current.id && (t.task, t.attempt, t.epoch) == (current.task, current.attempt, current.epoch)
    && t.createdAt < current.createdAt && t.responded && t.respondedAt && t.intact
  }

  /** `t` was not created after `u`; of two turns of one moment the one with the greater id is the later. */
  ghost predicate NotAfter(t: Turn, u: Turn) {
    t.createdAt < u.createdAt || (t.createdAt == u.createdAt && (t.id == u.id || Less(t.id, u.id)))
  }

  predicate Later(t: Turn, u: Turn) {
    t.createdAt > u.createdAt || (t.createdAt == u.createdAt && Less(u.id, t.id))
  }

  /** The latest eligible predecessor, if the current turn is in the bounded history at all. */
  method LatestAutomaticCognitionBase(current: Turn, turns: seq<Turn>) returns (r: Option<Turn>)
    ensures (forall i | 0 <= i < |turns| :: turns[i].id != current.id) ==> r.None?
    ensures r.Some? ==> r.value in turns && AnsweredBefore(r.value, current)
                        && forall i | 0 <= i < |turns| && AnsweredBefore(turns[i], current) :: NotAfter(turns[i], r.value)
    ensures r.None? && (exists i :: 0 <= i < |turns| && turns[i].id == current.id)
            ==> forall i | 0 <= i < |turns| :: !AnsweredBefore(turns[i], current)
  {
    var seen := false;
    for n := 0 to |turns|
      invariant seen <==> exists i :: 0 <= i < n && turns[i].id == current.id
    {
      seen := seen || turns[n].id == current.id;
    }
    if !seen { return None; }
    r := None;
    for n := 0 to |turns|
      invariant r.None? ==> forall i | 0 <= i < n :: !Eligible(turns[i], current)
      invariant r.Some? ==> r.value in turns && Eligible(r.value, current)
                            && forall i | 0 <= i < n && Eligible(turns[i], current) :: !Later(turns[i], r.value)
    {
      if Eligible(turns[n], current) && (r.None? || Later(turns[n], r.value)) {
        ghost var before := r;
        r := Some(turns[n]);
        LessIsTotal(turns[n].id, turns[n].id);
        if before.Some? {
          forall i | 0 <= i < n && Eligible(turns[i], current) ensures !Later(turns[i], turns[n]) {
            LaterIsTransitive(turns[i], turns[n], before.value);
          }
        }
      }
    }
    if r.Some? {
      forall i | 0 <= i < |turns| && AnsweredBefore(turns[i], current) ensures NotAfter(turns[i], r.value) {
        assert Eligible(turns[i], current) && !Later(turns[i], r.value);
        LessIsTotal(turns[i].id, r.value.id);
      }
    }
  }

  lemma LaterIsTransitive(a: Turn, b: Turn, c: Turn)
    requires Later(b, c)
    ensures Later(a, b) ==> Later(a, c)
  {
    if Less(b.id, a.id) && Less(c.id, b.id) {
      LessIsTransitive(c.id, b.id, a.id);
    }
  }

  datatype Body = Full(request: Request) | Incremental(base: string, delta: RequestDelta)

  datatype Message = Message(body: Body, fullBytes: nat, payloadBytes: nat)

  /** The encoded length: what is not the size field, and the digits of the size field. */
  function Length(constant: Body -> nat, m: Message): nat {
    constant(m.body) + Digits(m.payloadBytes)
  }

  function Finalized(constant: Body -> nat, m: Message): Message {
    var first := m.(payloadBytes := Length(constant, m));
    first.(payloadBytes := Length(constant, first))
  }

  /** Two passes leave the reported size within one of the true length, from any seed that is not absurd. */
  lemma ReportedSizeIsClose(constant: Body -> nat, m: Message)
    requires Digits(m.payloadBytes) <= constant(m.body)
    ensures var f := Finalized(constant, m); f.payloadBytes - 1 <= Length(constant, f) <= f.payloadBytes + 1
    ensures var f := Finalized(constant, m);
            Length(constant, f) == f.payloadBytes <==> Digits(Length(constant, m)) == Digits(f.payloadBytes)
  {
    var base := constant(m.body);
    var n1 := base + Digits(m.payloadBytes);
    var n2 := base + Digits(n1);
    FewDigits(base + 1);
    DigitsAreMonotone(base + 1, n1);
    AtMostOneMoreDigit(n1, base + 1);
    DigitsAreMonotone(base + 1, n2);
    AtMostOneMoreDigit(n2, base + 1);
  }

  const MIN_ENVELOPE: nat := 20

  const MAX_ENVELOPE: nat := 1_000_000_000_000_000_000

  /** What an encoded message takes without its size field: more than the digits of any length that an int holds. */
  ghost predicate EnvelopeSizes(constant: Body -> nat) {
    forall b :: MIN_ENVELOPE <= constant(b) <= MAX_ENVELOPE
  }

  lemma FinalizedIsClose(constant: Body -> nat, m: Message)
    requires EnvelopeSizes(constant) && m.payloadBytes <= MAX_ENVELOPE + 20
    ensures var f := Finalized(constant, m);
            f.payloadBytes - 1 <= Length(constant, f) <= f.payloadBytes + 1 && f.payloadBytes <= MAX_ENVELOPE + 20
  {
    TwentyDigits(m.payloadBytes);
    assert MIN_ENVELOPE <= constant(m.body);
    ReportedSizeIsClose(constant, m);
    TwentyDigits(Length(constant, m));
  }

  lemma TwentyDigits(n: nat)
    requires n <= MAX_ENVELOPE + 20
    ensures Digits(n) <= 20
  {
    DigitsAreMonotone(n, 9_999_999_999_999_999_999);
    assert Digits(999_999_999) == 9;
    assert Digits(99_999_999_999_999) == 5 + Digits(999_999_999);
    assert Digits(9_999_999_999_999_999_999) == 5 + Digits(99_999_999_999_999);
  }

  /** The predecessor may serve as a base: the client has it, and it belongs to the same attempt. */
  predicate Usable(current: Turn, previous: Option<Turn>) {
    && previous.Some? && previous.value.intact && Earlier(previous.value, current)
    && previous.value.responded && previous.value.request.Some?
  }

  /** A base that the client has: an intact, answered turn of the same attempt from before, with a projection. */
  ghost predicate IsBase(current: Turn, previous: Option<Turn>) {
    match previous
    case None => false
    case Some(t) =>
      && t.intact && t.responded && t.request.Some? && t.createdAt < current.createdAt
      && (t.task, t.attempt, t.epoch) == (current.task, current.attempt, current.epoch)
  }

  /** The delta against a usable base, measured. */
  function MeasuredDelta(constant: Body -> nat, fullBytes: nat, current: Turn, previous: Turn, p: Patch): Message
    requires current.request.Some? && previous.request.Some?
  {
    Finalized(constant, Message(Incremental(previous.id, DeltaOf(previous.request.value, current.request.value, p)), fullBytes, 0))
  }

  /** The full request, measured; the field may still hold the size of a delta that was too long. */
  function MeasuredFull(constant: Body -> nat, fullBytes: nat, current: Turn, seed: nat): Message
    requires current.request.Some?
  {
    Finalized(constant, Message(Full(current.request.value), fullBytes, seed))
  }

  /**
   * A delta is sent exactly when there is a usable base and the delta is reported shorter than the
   * full request; it is the difference of the two, which is `patch`. Otherwise the full request is
   * sent. The reported size is within one of the encoded length.
   */
  method BuildCognitionDelta(round: int -> int, constant: Body -> nat, fullBytes: nat, current: Turn, previous: Option<Turn>)
    returns (r: Option<Message>, ghost patch: Patch)
    ensures r.None? <==> !current.intact || current.request.None?
    ensures r.Some? && IsBase(current, previous) ==>
              IsDiff(round, previous.value.request.value.sections, current.request.value.sections, patch) && Ascending(patch.removed)
    ensures r.Some? ==>
              (r.value.body.Incremental? <==>
                 IsBase(current, previous) && MeasuredDelta(constant, fullBytes, current, previous.value, patch).payloadBytes < fullBytes)
    ensures r.Some? && r.value.body.Incremental? ==>
              r.value == MeasuredDelta(constant, fullBytes, current, previous.value, patch) && r.value.payloadBytes < fullBytes
    ensures r.Some? && r.value.body.Full? ==>
              r.value == MeasuredFull(constant, fullBytes, current,
                                      if IsBase(current, previous)
                                      then MeasuredDelta(constant, fullBytes, current, previous.value, patch).payloadBytes else 0)
    ensures r.Some? && EnvelopeSizes(constant) ==>
              r.value.payloadBytes - 1 <= Length(constant, r.value) <= r.value.payloadBytes + 1
  {
    patch := Patch(map[], []);
    if !current.intact || current.request.None? { return None, patch; }
    var request := current.request.value;
    var full := Message(Full(request), fullBytes, 0);
    if !Usable(current, previous) {
      if EnvelopeSizes(constant) { FinalizedIsClose(constant, full); }
      return Some(Finalized(constant, full)), patch;
    }
    var base := previous.value.request.value;
    var diff := DiffProjectionSections(round, base.sections, request.sections);
    patch := diff;
    var delta := Message(Incremental(previous.value.id, DeltaOf(base, request, diff)), fullBytes, 0);
    var result := Finalized(constant, delta);
    if EnvelopeSizes(constant) { FinalizedIsClose(constant, delta); }
    if result.payloadBytes >= result.fullBytes {
      // the payload size of the delta is still in the field when the full message is measured
      full := result.(body := Full(request));
      if EnvelopeSizes(constant) { FinalizedIsClose(constant, full); }
      return Some(Finalized(constant, full)), patch;
    }
    r := Some(result);
  }
}
