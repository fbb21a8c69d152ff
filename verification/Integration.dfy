/**
 * The authoritative integration protocol of one registered project, as the atomic effects that
 * Git and the store can observe. A crash may fall between any two effects, so a crash is simply
 * a run that goes on with another drive of the same attempt; every safety statement below is
 * about all runs. `IntegrationManager` shows that the manager's code produces only such runs.
 */
module Integration {
  import opened Git
  import opened Options

  type AttemptId = string

  datatype Status = Prepared | Dispatched | Complete | Blocked

  /** Everything but the status is fixed when the attempt is prepared. */
  datatype Attempt = Attempt(task: string, result: string, ref: Ref, expected: Commit, candidate: Commit, status: Status) {
    predicate NoOp() {
      candidate == expected
    }

    predicate Live() {
      status == Prepared || status == Dispatched
    }

    predicate SameIdentity(that: Attempt) {
      this.(status := that.status) == that
    }
  }

  /** Branch refs, the private refs that pin candidates (by attempt), the checkout, the attempt table. */
  datatype World = World(refs: map<Ref, Commit>, pins: map<AttemptId, Commit>, checkout: Checkout, attempts: map<AttemptId, Attempt>) {
    predicate RefIs(r: Ref, c: Commit) {
      r in refs && refs[r] == c
    }

    predicate Reached(r: Ref, c: Commit) {
      r in refs && AtOrAfter(refs[r], c)
    }

    function WithStatus(id: AttemptId, s: Status): World
      requires id in attempts
    {
      this.(attempts := attempts[id := attempts[id].(status := s)])
    }
  }

  datatype Step =
    | OwnerEdits
    | Prepares(id: AttemptId)
    | Pins(id: AttemptId)
    | Unpins(id: AttemptId)
    | Dispatches(id: AttemptId)
    | Swaps(id: AttemptId)
    | Syncs(id: AttemptId)
    | Finishes(id: AttemptId)
    | Blocks(id: AttemptId)

  /**
   * `honest` says that a store call which reports an error has changed nothing. The Owner may
   * switch branches and edit the index and worktree at any time; only MAR moves refs.
   */
  ghost predicate Does(honest: bool, s: Step, w: World, w': World) {
    match s
    case OwnerEdits => w' == w.(checkout := w'.checkout)
    case Prepares(id) =>
      && id !in w.attempts && id in w'.attempts
      && var a := w'.attempts[id];
      && a.status == Prepared && w.RefIs(a.ref, a.expected) && AtOrAfter(a.candidate, a.expected)
      && w' == w.(attempts := w.attempts[id := a])
    case _ =>
      s.id in w.attempts && Drives(honest, s, w.attempts[s.id], w, w')
  }

  ghost predicate Drives(honest: bool, s: Step, a: Attempt, w: World, w': World)
    requires !s.OwnerEdits? && !s.Prepares?
    requires s.id in w.attempts && w.attempts[s.id] == a
  {
    match s
    case Pins(id) =>
      && !a.NoOp() && id !in w.pins
      && (a.status == Prepared || (a.status == Dispatched && w.RefIs(a.ref, a.expected)))
      && w' == w.(pins := w.pins[id := a.candidate])
    case Unpins(id) =>
      && id in w.pins
      && a.status != Complete
      && (a.status == Dispatched ==> w.RefIs(a.ref, a.candidate) || (!honest && w.RefIs(a.ref, a.expected)))
      && w' == w.(pins := w.pins - {id})
    case Dispatches(id) =>
      && a.status == Prepared && w.RefIs(a.ref, a.expected) && (a.NoOp() || id in w.pins)
      && w' == w.WithStatus(id, Dispatched)
    case Swaps(id) =>
      && a.status == Dispatched && !a.NoOp() && id in w.pins && w.RefIs(a.ref, a.expected)
      && w' == w.(refs := w.refs[a.ref := a.candidate])
    case Syncs(id) =>
      && a.status == Dispatched && w.RefIs(a.ref, a.candidate)
      && w' == w.(checkout := w'.checkout)
      && KeepsOwnerWork(a.expected.tree, a.candidate.tree, w.checkout, w'.checkout)
    case Finishes(id) =>
      && a.status == Dispatched && w.RefIs(a.ref, a.candidate) && id !in w.pins
      && w' == w.WithStatus(id, Complete)
    case Blocks(id) =>
      && a.Live() && (a.status == Dispatched && !a.NoOp() ==> !w.RefIs(a.ref, a.candidate))
      && w' == w.WithStatus(id, Blocked)
  }

  /** A run: what was done, and the world before, between and after. */
  datatype Run = Run(steps: seq<Step>, worlds: seq<World>)

  ghost predicate DoesAt(honest: bool, r: Run, i: nat) {
    i < |r.steps| && i + 1 < |r.worlds| && Does(honest, r.steps[i], r.worlds[i], r.worlds[i + 1])
  }

  ghost predicate Valid(honest: bool, r: Run) {
    |r.worlds| == |r.steps| + 1 && forall i: nat {:trigger DoesAt(honest, r, i)} | i < |r.steps| :: DoesAt(honest, r, i)
  }

  lemma RunGrows(honest: bool, r: Run, s: Step, w: World)
    requires Valid(honest, r) && Does(honest, s, r.worlds[|r.steps|], w)
    ensures Valid(honest, Run(r.steps + [s], r.worlds + [w]))
  {
    var r' := Run(r.steps + [s], r.worlds + [w]);
    forall i: nat | i < |r'.steps| ensures DoesAt(honest, r', i) {
      if i < |r.steps| {
        assert DoesAt(honest, r, i);
      }
    }
  }

  // ----- What every effect keeps -----

  ghost predicate SoundAttempt(honest: bool, w: World, id: AttemptId)
    requires id in w.attempts
  {
    var a := w.attempts[id];
    && AtOrAfter(a.candidate, a.expected)
    && (id in w.pins ==> !a.NoOp() && w.pins[id] == a.candidate && a.status != Complete)
    && (a.status == Complete ==> w.Reached(a.ref, a.candidate))
    && (honest && a.status == Dispatched ==> id in w.pins || w.Reached(a.ref, a.candidate))
  }

  /**
   * A pin holds its own attempt's candidate; COMPLETE means that the branch has reached the
   * candidate and the pin is gone; with an honest store a DISPATCHED candidate is never lost.
   */
  ghost predicate Sound(honest: bool, w: World) {
    && w.pins.Keys <= w.attempts.Keys
    && forall id {:trigger SoundAttempt(honest, w, id)} | id in w.attempts :: SoundAttempt(honest, w, id)
  }

  lemma SwapAdvances(honest: bool, s: Step, w: World, w': World)
    requires Sound(honest, w) && Does(honest, s, w, w') && s.Swaps?
    ensures var a := w.attempts[s.id];
            Descends(w'.refs[a.ref], w.refs[a.ref]) && w'.refs == w.refs[a.ref := a.candidate]
  {
    assert SoundAttempt(honest, w, s.id);
  }

  lemma ReachedIsKept(honest: bool, s: Step, w: World, w': World, r: Ref, c: Commit)
    requires Sound(honest, w) && Does(honest, s, w, w') && w.Reached(r, c)
    ensures w'.Reached(r, c)
  {
    if s.Swaps? {
      SwapAdvances(honest, s, w, w');
      var a := w.attempts[s.id];
      if r == a.ref {
        DescentIsTransitive(w'.refs[r], w.refs[r], c);
      }
    }
  }

  lemma SoundIsKept(honest: bool, s: Step, w: World, w': World)
    requires Sound(honest, w) && Does(honest, s, w, w')
    ensures Sound(honest, w')
  {
    forall id | id in w'.attempts ensures SoundAttempt(honest, w', id) {
      if id in w.attempts {
        assert SoundAttempt(honest, w, id);
        var a := w.attempts[id];
        if w.Reached(a.ref, a.candidate) {
          ReachedIsKept(honest, s, w, w', a.ref, a.candidate);
        }
      }
    }
  }

  lemma {:induction false} SoundThroughout(honest: bool, r: Run, i: nat)
    requires Valid(honest, r) && Sound(honest, r.worlds[0]) && i < |r.worlds|
    ensures Sound(honest, r.worlds[i])
  {
    if i > 0 {
      SoundThroughout(honest, r, i - 1);
      assert DoesAt(honest, r, i - 1);
      SoundIsKept(honest, r.steps[i - 1], r.worlds[i - 1], r.worlds[i]);
    }
  }

  /**
   * The candidate stays pinned: every swap runs while the private ref holds the candidate; with an
   * honest store a dispatched candidate is always pinned or in the branch's history; and COMPLETE
   * means that the private ref is gone.
   */
  lemma CandidateStaysPinned(honest: bool, r: Run, i: nat, id: AttemptId)
    requires Valid(honest, r) && Sound(honest, r.worlds[0]) && i < |r.worlds| && id in r.worlds[i].attempts
    ensures var w := r.worlds[i]; var a := w.attempts[id];
            && (i < |r.steps| && r.steps[i] == Swaps(id) ==> id in w.pins && w.pins[id] == a.candidate)
            && (honest && a.status == Dispatched && !a.NoOp() ==>
                  (id in w.pins && w.pins[id] == a.candidate) || w.Reached(a.ref, a.candidate))
            && (a.status == Complete ==> id !in w.pins)
  {
    SoundThroughout(honest, r, i);
    assert SoundAttempt(honest, r.worlds[i], id);
    if i < |r.steps| {
      assert DoesAt(honest, r, i);
    }
  }

  // ----- Fast-forward only -----

  /** Whatever moves a branch is a swap by a dispatched attempt, from its base to a strict descendant. */
  lemma FastForwardOnly(honest: bool, r: Run, i: nat, ref: Ref)
    requires Valid(honest, r) && Sound(honest, r.worlds[0]) && i < |r.steps|
    requires ref in r.worlds[i].refs || ref in r.worlds[i + 1].refs
    ensures ref in r.worlds[i].refs && ref in r.worlds[i + 1].refs
    ensures var old', new' := r.worlds[i].refs[ref], r.worlds[i + 1].refs[ref];
            old' != new' ==>
              && r.steps[i].Swaps? && r.steps[i].id in r.worlds[i].attempts
              && var a := r.worlds[i].attempts[r.steps[i].id];
                 a.status == Dispatched && a.ref == ref && old' == a.expected && new' == a.candidate && Descends(new', old')
  {
    SoundThroughout(honest, r, i);
    assert DoesAt(honest, r, i);
    if r.steps[i].Swaps? {
      SwapAdvances(honest, r.steps[i], r.worlds[i], r.worlds[i + 1]);
    }
  }

  lemma {:induction false} BranchesNeverGoBack(honest: bool, r: Run, i: nat, j: nat, ref: Ref, c: Commit)
    requires Valid(honest, r) && Sound(honest, r.worlds[0]) && i <= j < |r.worlds|
    requires r.worlds[i].Reached(ref, c)
    ensures r.worlds[j].Reached(ref, c)
  {
    if i < j {
      BranchesNeverGoBack(honest, r, i, j - 1, ref, c);
      SoundThroughout(honest, r, j - 1);
      assert DoesAt(honest, r, j - 1);
      ReachedIsKept(honest, r.steps[j - 1], r.worlds[j - 1], r.worlds[j], ref, c);
    }
  }

  /** Two swaps of one branch never start from the same base, whoever prepared or dispatched them and when. */
  lemma NoTwoSwapsFromOneBase(honest: bool, r: Run, i: nat, j: nat, first: AttemptId, second: AttemptId)
    requires Valid(honest, r) && Sound(honest, r.worlds[0]) && i < j < |r.steps|
    requires r.steps[i] == Swaps(first) && first in r.worlds[i].attempts
    requires r.steps[j] == Swaps(second) && second in r.worlds[j].attempts
    requires r.worlds[i].attempts[first].ref == r.worlds[j].attempts[second].ref
    ensures r.worlds[i].attempts[first].expected != r.worlds[j].attempts[second].expected
  {
    var a := r.worlds[i].attempts[first];
    assert DoesAt(honest, r, i) && DoesAt(honest, r, j);
    SoundThroughout(honest, r, i);
    SwapAdvances(honest, r.steps[i], r.worlds[i], r.worlds[i + 1]);
    BranchesNeverGoBack(honest, r, i + 1, j, a.ref, a.candidate);
    var now := r.worlds[j].refs[a.ref];
    if now == a.candidate {
      DescentIsTransitive(now, a.expected, a.expected);
    } else {
      DescentIsTransitive(now, a.candidate, a.expected);
    }
  }

  // ----- All or nothing -----

  lemma {:induction false} IdentityIsFixed(honest: bool, r: Run, i: nat, j: nat, id: AttemptId)
    requires Valid(honest, r) && i <= j < |r.worlds| && id in r.worlds[i].attempts
    ensures id in r.worlds[j].attempts && r.worlds[i].attempts[id].SameIdentity(r.worlds[j].attempts[id])
  {
    if i < j {
      IdentityIsFixed(honest, r, i, j - 1, id);
      assert DoesAt(honest, r, j - 1);
    }
  }

  ghost predicate SoleLive(w: World, id: AttemptId) {
    id in w.attempts && forall other | other in w.attempts && other != id :: !w.attempts[other].Live()
  }

  /** Which side of the swap the branch is on, by the status of its only live attempt. */
  ghost predicate Decided(w: World, id: AttemptId)
    requires id in w.attempts
  {
    var a := w.attempts[id];
    && (w.RefIs(a.ref, a.expected) || w.RefIs(a.ref, a.candidate))
    && (a.status == Prepared || a.status == Blocked ==> w.RefIs(a.ref, a.expected))
    && (a.status == Complete ==> w.RefIs(a.ref, a.candidate))
  }

  lemma DecidedIsKept(honest: bool, s: Step, w: World, w': World, id: AttemptId)
    requires Sound(honest, w) && Does(honest, s, w, w') && !s.Prepares?
    requires SoleLive(w, id) && Decided(w, id)
    ensures SoleLive(w', id) && Decided(w', id)
  {
    assert SoundAttempt(honest, w, id);
    forall other | other in w'.attempts && other != id ensures !w'.attempts[other].Live() {
      assert !w.attempts[other].Live();
    }
  }

  lemma {:induction false} DecidedThroughout(honest: bool, r: Run, id: AttemptId, j: nat)
    requires Valid(honest, r) && Sound(honest, r.worlds[0]) && j < |r.worlds|
    requires forall i | 0 <= i < |r.steps| :: !r.steps[i].Prepares?
    requires SoleLive(r.worlds[0], id) && Decided(r.worlds[0], id)
    ensures SoleLive(r.worlds[j], id) && Decided(r.worlds[j], id)
  {
    if j > 0 {
      DecidedThroughout(honest, r, id, j - 1);
      SoundThroughout(honest, r, j - 1);
      assert DoesAt(honest, r, j - 1);
      DecidedIsKept(honest, r.steps[j - 1], r.worlds[j - 1], r.worlds[j], id);
    }
  }

  /**
   * However often the attempt is driven, crashes and is driven again, and whatever the Owner
   * does to the checkout: BLOCKED means that the branch never left the verified base, COMPLETE
   * means that it is at the candidate.
   */
  lemma AllOrNothing(honest: bool, r: Run, id: AttemptId, j: nat)
    requires Valid(honest, r) && Sound(honest, r.worlds[0]) && j < |r.worlds|
    requires forall i | 0 <= i < |r.steps| :: !r.steps[i].Prepares?
    requires SoleLive(r.worlds[0], id) && r.worlds[0].attempts[id].status == Prepared
    requires r.worlds[0].RefIs(r.worlds[0].attempts[id].ref, r.worlds[0].attempts[id].expected)
    ensures var a, now := r.worlds[0].attempts[id], r.worlds[j];
            && id in now.attempts
            && (now.attempts[id].status == Blocked ==> now.RefIs(a.ref, a.expected))
            && (now.attempts[id].status == Complete ==> now.RefIs(a.ref, a.candidate))
  {
    DecidedThroughout(honest, r, id, j);
    IdentityIsFixed(honest, r, 0, j, id);
  }

  lemma {:induction false} StatusMovedToBlocked(honest: bool, r: Run, i: nat, j: nat, id: AttemptId) returns (k: nat)
    requires Valid(honest, r) && i <= j < |r.worlds| && id in r.worlds[i].attempts
    requires r.worlds[i].attempts[id].status != Blocked
    requires id in r.worlds[j].attempts && r.worlds[j].attempts[id].status == Blocked
    ensures i <= k < j && r.steps[k] == Blocks(id)
  {
    k := j - 1;
    IdentityIsFixed(honest, r, i, k, id);
    assert DoesAt(honest, r, k);
    if r.steps[k] != Blocks(id) {
      k := StatusMovedToBlocked(honest, r, i, k, id);
    }
  }

  /**
   * With other live attempts in the project, an attempt can be BLOCKED after its own swap, but
   * only because another attempt has already built on its candidate: nothing is undone.
   */
  lemma BlockedAfterSwapIsContained(honest: bool, r: Run, i: nat, j: nat, id: AttemptId)
    requires Valid(honest, r) && Sound(honest, r.worlds[0]) && i < |r.steps| && i < j < |r.worlds|
    requires r.steps[i] == Swaps(id) && id in r.worlds[i].attempts
    requires id in r.worlds[j].attempts && r.worlds[j].attempts[id].status == Blocked
    ensures var a := r.worlds[i].attempts[id];
            a.ref in r.worlds[j].refs && Descends(r.worlds[j].refs[a.ref], a.candidate)
  {
    var a := r.worlds[i].attempts[id];
    assert DoesAt(honest, r, i);
    SoundThroughout(honest, r, i);
    SwapAdvances(honest, r.steps[i], r.worlds[i], r.worlds[i + 1]);
    var k := StatusMovedToBlocked(honest, r, i + 1, j, id);
    IdentityIsFixed(honest, r, i, k, id);
    BranchesNeverGoBack(honest, r, i + 1, k, a.ref, a.candidate);
    assert DoesAt(honest, r, k);
    assert r.worlds[k].attempts[id].status == Dispatched by {
      DispatchedUntilSettled(honest, r, i, k, id);
    }
    assert Descends(r.worlds[k].refs[a.ref], a.candidate);
    BranchesNeverGoBack(honest, r, k, j, a.ref, r.worlds[k].refs[a.ref]);
    if r.worlds[j].refs[a.ref] != r.worlds[k].refs[a.ref] {
      DescentIsTransitive(r.worlds[j].refs[a.ref], r.worlds[k].refs[a.ref], a.candidate);
    }
  }

  /** Step `m` moves the branch `ref`. */
  predicate SwapsOn(r: Run, m: nat, ref: Ref) {
    && m < |r.steps| && m < |r.worlds| && r.steps[m].Swaps? && r.steps[m].id in r.worlds[m].attempts
    && r.worlds[m].attempts[r.steps[m].id].ref == ref
  }

  lemma {:induction false} StaysWithoutSwap(honest: bool, r: Run, i: nat, k: nat, ref: Ref, c: Commit)
    requires Valid(honest, r) && i <= k < |r.worlds| && r.worlds[i].RefIs(ref, c)
    requires forall m | i <= m < k :: !SwapsOn(r, m, ref)
    ensures r.worlds[k].RefIs(ref, c)
  {
    if i < k {
      StaysWithoutSwap(honest, r, i, k - 1, ref, c);
      assert DoesAt(honest, r, k - 1) && !SwapsOn(r, k - 1, ref);
    }
  }

  /**
   * Exactly when that can happen: an attempt that has swapped and is not settled can be BLOCKED
   * if and only if its branch has been swapped again since.
   */
  lemma BlockedAfterSwapIff(honest: bool, r: Run, i: nat, k: nat, id: AttemptId)
    requires Valid(honest, r) && Sound(honest, r.worlds[0]) && i < |r.steps| && i < k < |r.worlds|
    requires r.steps[i] == Swaps(id) && id in r.worlds[i].attempts
    requires id in r.worlds[k].attempts && r.worlds[k].attempts[id].status == Dispatched
    ensures var ref := r.worlds[i].attempts[id].ref;
            (exists w' :: Does(honest, Blocks(id), r.worlds[k], w')) <==> exists m :: i < m < k && SwapsOn(r, m, ref)
  {
    var a := r.worlds[i].attempts[id];
    assert DoesAt(honest, r, i);
    SoundThroughout(honest, r, i);
    SwapAdvances(honest, r.steps[i], r.worlds[i], r.worlds[i + 1]);
    IdentityIsFixed(honest, r, i, k, id);
    if m :| i < m < k && SwapsOn(r, m, a.ref) {
      SwappedAgain(honest, r, i + 1, m, k, a.ref, a.candidate);
      DescentIsTransitive(r.worlds[k].refs[a.ref], a.candidate, a.candidate);
      assert Does(honest, Blocks(id), r.worlds[k], r.worlds[k].WithStatus(id, Blocked));
    } else {
      StaysWithoutSwap(honest, r, i + 1, k, a.ref, a.candidate);
    }
  }

  /** A later swap leaves the branch strictly past whatever it had reached. */
  lemma SwappedAgain(honest: bool, r: Run, i: nat, m: nat, k: nat, ref: Ref, c: Commit)
    requires Valid(honest, r) && Sound(honest, r.worlds[0]) && i <= m < k < |r.worlds|
    requires r.worlds[i].Reached(ref, c) && SwapsOn(r, m, ref)
    ensures ref in r.worlds[k].refs && Descends(r.worlds[k].refs[ref], c)
  {
    BranchesNeverGoBack(honest, r, i, m, ref, c);
    assert DoesAt(honest, r, m);
    SoundThroughout(honest, r, m);
    SwapAdvances(honest, r.steps[m], r.worlds[m], r.worlds[m + 1]);
    var now := r.worlds[m + 1].refs[ref];
    DescentIsTransitive(now, r.worlds[m].refs[ref], c);
    BranchesNeverGoBack(honest, r, m + 1, k, ref, now);
    if r.worlds[k].refs[ref] != now {
      DescentIsTransitive(r.worlds[k].refs[ref], now, c);
    }
  }

  lemma {:induction false} DispatchedUntilSettled(honest: bool, r: Run, i: nat, k: nat, id: AttemptId)
    requires Valid(honest, r) && i <= k < |r.worlds| && id in r.worlds[i].attempts
    requires r.worlds[i].attempts[id].status == Dispatched
    ensures id in r.worlds[k].attempts && r.worlds[k].attempts[id].status != Prepared
  {
    if i < k {
      DispatchedUntilSettled(honest, r, i, k - 1, id);
      assert DoesAt(honest, r, k - 1);
    }
  }

  // ----- Why the assumptions are there -----

  lemma Grown(honest: bool, r: Run, s: Step, w': World) returns (r': Run)
    requires Valid(honest, r) && Does(honest, s, r.worlds[|r.steps|], w')
    ensures Valid(honest, r') && r'.steps == r.steps + [s] && r'.worlds == r.worlds + [w']
  {
    RunGrows(honest, r, s, w');
    r' := Run(r.steps + [s], r.worlds + [w']);
  }

  /** What preparing, pinning, dispatching and swapping a new attempt leads to. */
  function AppliedTo(w: World, id: AttemptId, a: Attempt): World {
    w.(refs := w.refs[a.ref := a.candidate], pins := w.pins[id := a.candidate], attempts := w.attempts[id := a.(status := Dispatched)])
  }

  lemma AppliesNew(honest: bool, r: Run, id: AttemptId, a: Attempt) returns (r': Run)
    requires Valid(honest, r) && id !in r.worlds[|r.steps|].attempts && id !in r.worlds[|r.steps|].pins
    requires a.status == Prepared && r.worlds[|r.steps|].RefIs(a.ref, a.expected) && Descends(a.candidate, a.expected)
    ensures Valid(honest, r') && r'.worlds[0] == r.worlds[0]
    ensures r'.steps == r.steps + [Prepares(id), Pins(id), Dispatches(id), Swaps(id)]
    ensures r'.worlds[|r'.steps|] == AppliedTo(r.worlds[|r.steps|], id, a)
  {
    var w := r.worlds[|r.steps|];
    DescentIsTransitive(a.candidate, a.expected, a.expected);
    var prepared := w.(attempts := w.attempts[id := a]);
    var pinned := prepared.(pins := w.pins[id := a.candidate]);
    var dispatched := pinned.WithStatus(id, Dispatched);
    r' := Grown(honest, r, Prepares(id), prepared);
    r' := Grown(honest, r', Pins(id), pinned);
    r' := Grown(honest, r', Dispatches(id), dispatched);
    r' := Grown(honest, r', Swaps(id), dispatched.(refs := w.refs[a.ref := a.candidate]));
  }

  /**
   * The single-live-attempt assumption is needed: from every project without attempts there is a
   * run in which a crash between swap and finalize lets a second attempt build on the first one's
   * candidate, and the first ends BLOCKED although its candidate went in and stays in the history.
   */
  lemma SecondLiveAttemptCanBlockAnAppliedOne(honest: bool, w: World, ref: Ref, first: AttemptId, second: AttemptId) returns (r: Run)
    requires w.attempts == map[] && w.pins == map[] && ref in w.refs && first != second
    ensures Valid(honest, r) && Sound(honest, r.worlds[0]) && r.worlds[0] == w
    ensures r.steps == [Prepares(first), Pins(first), Dispatches(first), Swaps(first),
                        Prepares(second), Pins(second), Dispatches(second), Swaps(second), Blocks(first)]
    ensures var end := r.worlds[9];
            && first in end.attempts && end.attempts[first].ref == ref && end.attempts[first].status == Blocked
            && end.attempts[first].expected == w.refs[ref]
            && end.Reached(ref, end.attempts[first].candidate) && !end.RefIs(ref, w.refs[ref])
  {
    var base := w.refs[ref];
    var one := Commit(base.tree, [base], "one");
    var two := Commit(base.tree, [one], "two");
    assert one.parents[0] == base && two.parents[0] == one;
    DescentIsTransitive(two, one, base);
    var a, b := Attempt("", "", ref, base, one, Prepared), Attempt("", "", ref, one, two, Prepared);
    r := AppliesNew(honest, Run([], [w]), first, a);
    r := AppliesNew(honest, r, second, b);
    var applied := r.worlds[|r.steps|];
    r := Grown(honest, r, Blocks(first), applied.WithStatus(first, Blocked));
  }

  /** The single-writer assumption is needed: a foreign commit on top of the swap makes the re-drive block. */
  lemma OutsideWriterCanBlockAnAppliedOne(honest: bool, w: World, id: AttemptId, foreign: Commit) returns (swapped: World, end: World)
    requires Sound(honest, w) && SoleLive(w, id) && id in w.pins && w.attempts[id].status == Dispatched
    requires w.RefIs(w.attempts[id].ref, w.attempts[id].expected)
    requires foreign != w.attempts[id].candidate && foreign != w.attempts[id].expected
    ensures Does(honest, Swaps(id), w, swapped)
    ensures Does(honest, Blocks(id), swapped.(refs := swapped.refs[w.attempts[id].ref := foreign]), end)
    ensures !end.RefIs(w.attempts[id].ref, w.attempts[id].expected) && !end.RefIs(w.attempts[id].ref, w.attempts[id].candidate)
  {
    var a := w.attempts[id];
    assert SoundAttempt(honest, w, id);
    swapped := w.(refs := w.refs[a.ref := a.candidate]);
    end := swapped.(refs := swapped.refs[a.ref := foreign]).WithStatus(id, Blocked);
  }

  /** The honest-store assumption is needed: a dispatch that committed but reported an error is unpinned again. */
  lemma AmbiguousStoreCanUnpinADispatchedCandidate(w: World, id: AttemptId) returns (r: Run)
    requires Sound(true, w) && id in w.attempts && id in w.pins && w.attempts[id].status == Prepared
    requires w.RefIs(w.attempts[id].ref, w.attempts[id].expected)
    ensures Valid(false, r) && r.worlds[0] == w && r.steps == [Dispatches(id), Unpins(id)]
    ensures id in r.worlds[2].attempts && r.worlds[2].attempts[id].status == Dispatched && !Sound(true, r.worlds[2])
  {
    var a := w.attempts[id];
    assert SoundAttempt(true, w, id);
    var w1 := w.WithStatus(id, Dispatched);
    var w2 := w1.(pins := w1.pins - {id});
    r := Run([Dispatches(id), Unpins(id)], [w, w1, w2]);
    assert DoesAt(false, r, 0) && DoesAt(false, r, 1);
    if AtOrAfter(a.expected, a.candidate) {
      DescentIsTransitive(a.candidate, a.expected, a.candidate);
    }
    assert !SoundAttempt(true, w2, id);
  }
}
