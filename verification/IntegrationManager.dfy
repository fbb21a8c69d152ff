/**
 * The integration manager's code, run against a scripted host: the n-th Git or store call is
 * preceded by whatever the Owner does to the checkout, and it succeeds, reports an error (having
 * taken effect or not), or never returns because the daemon died. The scripts are arbitrary, so
 * what is proved here holds for every schedule of faults, crashes and edits.
 *
 * One host is one registered project: the manager holds the project lock for a whole drive.
 */
module IntegrationManager {
  import opened Git
  import opened Integration
  import opened Options

  datatype Fate = Succeeds | Fails(applied: bool) | Dies(applied: bool)

  datatype Reply<+T> = Ok(value: T) | Err | Dead

  /** A task result as far as an attempt is bound to it; its version and evidence are part of `id`. */
  datatype TaskResult = TaskResult(id: string, verified: bool, finalRevision: Commit)

  datatype Outcome = Done | IsBlocked | HeadDrift | NotReady | SyncRequired | Failed | Crashed

  /** The single answer of a reading call: its value when it succeeds and there is one. */
  function Answer<T>(f: Fate, value: Option<T>): Reply<T> {
    match f
    case Dies(_) => Dead
    case Fails(_) => Err
    case Succeeds => if value.Some? then Ok(value.value) else Err
  }

  /** Whether a writing call whose precondition holds changes anything. */
  predicate TakesEffect(f: Fate) {
    f.Succeeds? || f.applied
  }

  function GaveUp<T>(r: Reply<T>): Outcome
    requires !r.Ok?
  {
    if r.Dead? then Crashed else Failed
  }

  predicate FreshResultMatchesAttempt(r: Option<TaskResult>, result: string, candidate: Commit) {
    r.Some? && r.value.verified && r.value.id == result && r.value.finalRevision == candidate
  }

  function HeadTree(w: World): Tree {
    match w.checkout.head
    case OnBranch(b) => if b in w.refs then w.refs[b].tree else map[]
    case Detached(c) => c.tree
  }

  /** `git status --porcelain` prints nothing. */
  predicate Clean(w: World) {
    MatchesBase(w.checkout, HeadTree(w))
  }

  function SymbolicRef(w: World): Option<Ref> {
    if w.checkout.head.OnBranch? then Some(w.checkout.head.ref) else None
  }

  lemma SuffixIsARun(honest: bool, r: Run, k: nat)
    requires Valid(honest, r) && k <= |r.steps|
    ensures Valid(honest, Run(r.steps[k..], r.worlds[k..]))
  {
    var r' := Run(r.steps[k..], r.worlds[k..]);
    forall i: nat | i < |r'.steps| ensures DoesAt(honest, r', i) {
      assert DoesAt(honest, r, k + i);
    }
  }

  lemma ReadTreeFromBaseIfThere(from: Tree, to: Tree, c: Checkout)
    ensures c.index == from && c.work == from ==> Mergeable(from, to, c) && ReadTree(from, to, c) == c.(index := to, work := to)
  {
    if c.index == from && c.work == from {
      ReadTreeFromBase(from, to, c);
    }
  }

  /** A step taken on behalf of one attempt, or by the Owner. */
  predicate For(id: AttemptId, s: Step) {
    s.OwnerEdits? || (s.id == id && !s.Prepares?)
  }

  class Host {
    const honest: bool
    const fate: nat -> Fate
    const owner: nat -> Checkout -> Checkout
    const torn: nat -> set<Path>
    const gate: nat -> Option<TaskResult>

    var w: World
    var clock: nat

    ghost var up: bool            // the daemon runs; a dead one calls nothing
    ghost var run: Run
    ghost var driving: AttemptId  // the attempt of the drive in progress,
    ghost var from: nat           // how long the run was when it began,
    ghost var start: World        // and the world it found

    constructor (world: World, honest: bool, fate: nat -> Fate, owner: nat -> Checkout -> Checkout,
                 torn: nat -> set<Path>, gate: nat -> Option<TaskResult>)
      requires Sound(honest, world)
      ensures Good() && up && w == world && clock == 0
      ensures this.honest == honest && this.fate == fate && this.owner == owner && this.torn == torn && this.gate == gate
    {
      this.honest, this.fate, this.owner, this.torn, this.gate := honest, fate, owner, torn, gate;
      w, clock := world, 0;
      up, run, driving, from, start := true, Run([], [world]), "", 0, world;
    }

    /** Everything that has happened is a run of the protocol; the current drive did only its own part. */
    ghost predicate Good()
      reads this
    {
      && Valid(honest, run) && run.worlds[|run.steps|] == w && Sound(honest, w)
      && from <= |run.steps| && run.worlds[from] == start
      && forall i | from <= i < |run.steps| :: For(driving, run.steps[i])
    }

    /** Nothing but the checkout has changed, and that only by the Owner's hand. */
    twostate predicate Looked()
      reads this
    {
      && Continues() && clock == old(clock) + 1 && up == !fate(old(clock)).Dies?
      && w == old(w).(checkout := owner(old(clock))(old(w.checkout)))
    }

    twostate predicate Continues()
      reads this
    {
      Good() && driving == old(driving) && from == old(from) && start == old(start) && clock >= old(clock)
    }

    /** At most the status of one attempt has changed. */
    twostate predicate OnlyStatusOf(id: AttemptId)
      requires id in old(w.attempts)
      reads this
    {
      id in w.attempts && w.attempts == old(w).WithStatus(id, w.attempts[id].status).attempts
    }

    // ----- Single calls -----

    method Record(s: Step, w': World)
      requires Good() && For(driving, s) && Does(honest, s, w, w')
      modifies this`w, this`run
      ensures Continues() && w == w' && clock == old(clock)
    {
      RunGrows(honest, run, s, w');
      SoundIsKept(honest, s, w, w');
      run := Run(run.steps + [s], run.worlds + [w']);
      w := w';
    }

    method Call() returns (f: Fate)
      requires Good() && up
      modifies this
      ensures Looked() && f == fate(old(clock))
    {
      var edited := w.(checkout := owner(clock)(w.checkout));
      Record(OwnerEdits, edited);
      f := fate(clock);
      clock, up := clock + 1, !f.Dies?;
    }

    method GetProject() returns (r: Reply<()>)
      requires Good() && up
      modifies this
      ensures r.Dead? <==> !up
      ensures Looked() && r == Answer(fate(old(clock)), Some(()))
    {
      var f := Call();
      r := Answer(f, Some(()));
    }

    method LatestTaskResult() returns (r: Reply<()>)
      requires Good() && up
      modifies this
      ensures r.Dead? <==> !up
      ensures Looked() && r == Answer(fate(old(clock)), Some(()))
    {
      var f := Call();
      r := Answer(f, Some(()));
    }

    method GetIntegrationAttempt(id: AttemptId) returns (r: Reply<Attempt>)
      requires Good() && up
      modifies this
      ensures r.Dead? <==> !up
      ensures Looked() && r == Answer(fate(old(clock)), if id in w.attempts then Some(w.attempts[id]) else None)
    {
      var f := Call();
      r := Answer(f, if id in w.attempts then Some(w.attempts[id]) else None);
    }

    method LatestFreshResult() returns (r: Reply<Option<TaskResult>>)
      requires Good() && up
      modifies this
      ensures r.Dead? <==> !up
      ensures Looked() && r == Answer(fate(old(clock)), Some(gate(old(clock))))
    {
      var answer := gate(clock);
      var f := Call();
      r := Answer(f, Some(answer));
    }

    method SymbolicHead() returns (r: Reply<Ref>)
      requires Good() && up
      modifies this
      ensures r.Dead? <==> !up
      ensures Looked() && r == Answer(fate(old(clock)), SymbolicRef(w))
    {
      var f := Call();
      r := Answer(f, SymbolicRef(w));
    }

    method RefHead(ref: Ref) returns (r: Reply<Commit>)
      requires Good() && up
      modifies this
      ensures r.Dead? <==> !up
      ensures Looked() && r == Answer(fate(old(clock)), if ref in w.refs then Some(w.refs[ref]) else None)
    {
      var f := Call();
      r := Answer(f, if ref in w.refs then Some(w.refs[ref]) else None);
    }

    method ProjectClean() returns (r: Reply<bool>)
      requires Good() && up
      modifies this
      ensures r.Dead? <==> !up
      ensures Looked() && r == Answer(fate(old(clock)), Some(Clean(w)))
    {
      var f := Call();
      r := Answer(f, Some(Clean(w)));
    }

    method PrivateRef(id: AttemptId) returns (r: Reply<Option<Commit>>)
      requires Good() && up
      modifies this
      ensures r.Dead? <==> !up
      ensures Looked() && r == Answer(fate(old(clock)), Some(if id in w.pins then Some(w.pins[id]) else None))
    {
      var f := Call();
      r := Answer(f, Some(if id in w.pins then Some(w.pins[id]) else None));
    }

    // ----- Single writes -----

    /** What a write leaves: the given effect, or nothing; and what it reports. */
    twostate predicate Wrote(new r: Reply<()>, effect: World, done: bool)
      reads this
    {
      && Continues() && clock == old(clock) + 1 && up == !fate(old(clock)).Dies? && r == Answer(fate(old(clock)), Some(()))
      && w == (if done then effect else old(w)).(checkout := owner(old(clock))(old(w.checkout)))
    }

    /** `update-ref <branch> <candidate> <expected>` */
    method CompareAndSwap(id: AttemptId) returns (r: Reply<()>)
      requires Good() && up && driving == id && id in w.attempts && id in w.pins
      requires w.attempts[id].status == Dispatched && !w.attempts[id].NoOp()
      requires w.RefIs(w.attempts[id].ref, w.attempts[id].expected)
      modifies this
      ensures r.Dead? <==> !up
      ensures Wrote(r, old(w).(refs := old(w).refs[old(w).attempts[id].ref := old(w).attempts[id].candidate]), TakesEffect(fate(old(clock))))
    {
      var a := w.attempts[id];
      var f := Call();
      if TakesEffect(f) {
        Record(Swaps(id), w.(refs := w.refs[a.ref := a.candidate]));
      }
      r := Answer(f, Some(()));
    }

    /** `update-ref <private ref> <candidate> 0...0` */
    method CreatePrivateRef(id: AttemptId) returns (r: Reply<()>)
      requires Good() && up && driving == id && id in w.attempts && id !in w.pins && !w.attempts[id].NoOp()
      requires w.attempts[id].status == Prepared ||
               (w.attempts[id].status == Dispatched && w.RefIs(w.attempts[id].ref, w.attempts[id].expected))
      modifies this
      ensures r.Dead? <==> !up
      ensures Wrote(r, old(w).(pins := old(w).pins[id := old(w).attempts[id].candidate]), TakesEffect(fate(old(clock))))
    {
      var a := w.attempts[id];
      var f := Call();
      if TakesEffect(f) {
        Record(Pins(id), w.(pins := w.pins[id := a.candidate]));
      }
      r := Answer(f, Some(()));
    }

    /** When deleting an attempt's private ref keeps the candidate reachable or no longer wanted. */
    predicate MayUnpin(id: AttemptId)
      reads this
    {
      && id in w.attempts
      && var a := w.attempts[id];
      && a.status != Complete
      && (a.status == Dispatched ==> w.RefIs(a.ref, a.candidate) || (!honest && w.RefIs(a.ref, a.expected)))
    }

    /** `update-ref -d <private ref> <candidate>` */
    method RemovePrivateRef(id: AttemptId) returns (r: Reply<()>)
      requires Good() && up && driving == id && id in w.pins && MayUnpin(id)
      modifies this
      ensures r.Dead? <==> !up
      ensures Wrote(r, old(w).(pins := old(w).pins - {id}), TakesEffect(fate(old(clock))))
    {
      var f := Call();
      if TakesEffect(f) {
        Record(Unpins(id), w.(pins := w.pins - {id}));
      }
      r := Answer(f, Some(()));
    }

    /** A store transaction; with an honest store an error means that it was rolled back. */
    method Commit(s: Step, status: Status) returns (r: Reply<()>)
      requires Good() && up && (s.Dispatches? || s.Finishes? || s.Blocks?) && driving == s.id && s.id in w.attempts
      requires Does(honest, s, w, w.WithStatus(s.id, status))
      modifies this
      ensures r.Dead? <==> !up
      ensures Wrote(r, old(w).WithStatus(s.id, status), TakesEffect(fate(old(clock))) && !(honest && fate(old(clock)).Fails?))
      ensures honest && r.Err? ==> w.attempts == old(w).attempts
    {
      var f := Call();
      if TakesEffect(f) && !(honest && f.Fails?) {
        Record(s, w.WithStatus(s.id, status));
      }
      r := Answer(f, Some(()));
    }

    /** `read-tree -m -u <expected> <candidate>`; when it fails it may have rewritten some of the files. */
    method ReadTreeUpdate(id: AttemptId) returns (r: Reply<()>)
      requires Good() && up && driving == id && id in w.attempts && w.attempts[id].status == Dispatched
      requires w.RefIs(w.attempts[id].ref, w.attempts[id].candidate)
      modifies this
      ensures r.Dead? <==> !up
      ensures Continues() && clock == old(clock) + 1 && w == old(w).(checkout := w.checkout)
      ensures var a, c := w.attempts[id], owner(old(clock))(old(w.checkout));
              && (r.Ok? <==> fate(old(clock)) == Succeeds && Mergeable(a.expected.tree, a.candidate.tree, c))
              && w.checkout == (if !Mergeable(a.expected.tree, a.candidate.tree, c) then c
                                else if TakesEffect(fate(old(clock))) then ReadTree(a.expected.tree, a.candidate.tree, c)
                                else TornReadTree(a.expected.tree, a.candidate.tree, c, torn(old(clock))))
              && (r.Dead? <==> fate(old(clock)).Dies?)
              && KeepsOwnerWork(a.expected.tree, a.candidate.tree, c, w.checkout)
    {
      var a, partly := w.attempts[id], torn(clock);
      var f := Call();
      var from, to, c := a.expected.tree, a.candidate.tree, w.checkout;
      SynchronizationKeepsOwnerWork(from, to, c, partly);
      if Mergeable(from, to, c) {
        if TakesEffect(f) {
          Record(Syncs(id), w.(checkout := ReadTree(from, to, c)));
        } else {
          Record(Syncs(id), w.(checkout := TornReadTree(from, to, c, partly)));
        }
        r := Answer(f, Some(()));
      } else {
        r := if f.Dies? then Dead else Err;
      }
    }

    // ----- What the scripts may promise -----

    ghost predicate Idle(k: nat) {
      forall c :: owner(k)(c) == c
    }

    /** From call n on the Owner leaves the checkout alone. */
    ghost predicate OwnerIdle(n: nat) {
      forall k: nat {:trigger owner(k)} | k >= n :: Idle(k)
    }

    /** From call n on nothing fails, nobody interferes and the attempt's evidence stays fresh. */
    ghost predicate Smooth(n: nat, result: string, candidate: Commit) {
      && OwnerIdle(n) && FaultFree(n)
      && forall k: nat {:trigger gate(k)} | k >= n :: FreshAt(k, result, candidate)
    }

    ghost predicate FaultFree(n: nat) {
      forall k: nat {:trigger fate(k)} | k >= n :: fate(k) == Succeeds
    }

    /** What the gate must answer for the attempt: this very result, verified, with this final revision. */
    predicate FreshAt(k: nat, result: string, candidate: Commit) {
      gate(k) == Some(TaskResult(result, true, candidate))
    }

    /** Between the calls m and n one succeeded when the evidence was fresh. */
    ghost predicate SeenFresh(m: nat, n: nat, result: string, candidate: Commit) {
      exists k: nat {:trigger FreshAt(k, result, candidate)} :: m <= k < n && fate(k) == Succeeds && FreshAt(k, result, candidate)
    }

    /** From call n on nothing fails, and the evidence is not fresh any more. */
    ghost predicate Stale(n: nat, result: string, candidate: Commit) {
      FaultFree(n) && forall k: nat {:trigger gate(k)} | k >= n :: !FreshAt(k, result, candidate)
    }

    /** From call n on nothing fails but call k. */
    ghost predicate FaultFreeBut(n: nat, k: nat) {
      fate(k).Fails? && FaultFree(k + 1) && forall i: nat {:trigger fate(i)} | n <= i < k :: fate(i) == Succeeds
    }

    /** The calls from m up to n succeed. */
    ghost predicate Untroubled(m: nat, n: nat) {
      forall i: nat {:trigger fate(i)} | m <= i < n :: fate(i) == Succeeds
    }

    /**
     * What a drive leaves on disk, by the fate of the call `probe` that asks for the checked-out
     * branch before the synchronization: when it succeeds, an attempt that is done has its
     * candidate in the checkout; when it fails, the files stay as they were.
     */
    twostate predicate LeftByProbe(id: AttemptId, o: Outcome, probe: nat)
      requires id in w.attempts
      reads this
    {
      var a := w.attempts[id];
      && (o == Done && !a.NoOp() && SymbolicRef(old(w)) == Some(a.ref) ==>
            && old(clock) <= probe < clock
            && if fate(probe).Succeeds? then MatchesBase(w.checkout, a.candidate.tree) else w.checkout == old(w.checkout))
      && (o == SyncRequired ==> old(clock) <= probe < clock && (Untroubled(probe, clock) ==> w.checkout == old(w.checkout)))
    }

    // ----- internal/integration/manager_windows.go, method by method -----

    method ResolveCommit(c: Commit) returns (r: Reply<Commit>)
      requires Good() && up
      modifies this
      ensures r.Dead? <==> !up
      ensures Looked() && r == Answer(fate(old(clock)), Some(c))
    {
      var f := Call();
      r := Answer(f, Some(c));
    }

    method EnsureCandidateAnchor(id: AttemptId, ghost n: nat) returns (r: Reply<()>)
      requires Good() && up && n <= clock && driving == id && id in w.attempts && !w.attempts[id].NoOp()
      requires w.attempts[id].status == Prepared ||
               (w.attempts[id].status == Dispatched && w.RefIs(w.attempts[id].ref, w.attempts[id].expected))
      modifies this
      ensures r.Dead? <==> !up
      ensures Continues() && w.refs == old(w.refs) && w.attempts == old(w.attempts)
      ensures r.Ok? ==> id in w.pins
      ensures FaultFree(n) ==> r.Ok?
      ensures id !in old(w.pins) && fate(old(clock) + 2).Fails? && fate(old(clock)) == fate(old(clock) + 1) == fate(old(clock) + 3) == Succeeds ==>
                if fate(old(clock) + 2).applied then r.Ok? else r.Err?
      ensures OwnerIdle(n) ==> w.checkout == old(w.checkout)
    {
      var candidate := w.attempts[id].candidate;
      assert SoundAttempt(honest, w, id);
      var resolved := ResolveCommit(candidate);
      if !resolved.Ok? {
        return if resolved.Dead? then Dead else Err;
      }
      if resolved.value != candidate {
        return Err;
      }
      var observed := PrivateRef(id);
      if !observed.Ok? {
        return if observed.Dead? then Dead else Err;
      }
      if observed.value.Some? {
        return if observed.value.value == candidate then Ok(()) else Err;
      }
      var created := CreatePrivateRef(id);
      if created.Dead? {
        return Dead;
      }
      observed := PrivateRef(id);
      if observed.Dead? {
        return Dead;
      }
      return if observed.Ok? && observed.value == Some(candidate) then Ok(()) else Err;
    }

    method DeleteCandidateAnchor(id: AttemptId, ghost n: nat) returns (r: Reply<()>)
      requires Good() && up && n <= clock && driving == id && id in w.attempts && (id in w.pins ==> MayUnpin(id))
      modifies this
      ensures r.Dead? <==> !up
      ensures Continues() && w.refs == old(w.refs) && w.attempts == old(w.attempts)
      ensures r.Ok? ==> id !in w.pins
      ensures w.pins == old(w.pins) || w.pins == old(w.pins) - {id}
      ensures FaultFree(n) ==> r.Ok?
      ensures id in old(w.pins) && r.Ok? ==> Untroubled(old(clock), clock) && clock == old(clock) + 3
      ensures OwnerIdle(n) ==> w.checkout == old(w.checkout)
    {
      var candidate := w.attempts[id].candidate;
      assert SoundAttempt(honest, w, id);
      var observed := PrivateRef(id);
      if !observed.Ok? {
        return if observed.Dead? then Dead else Err;
      }
      if observed.value.None? {
        return Ok(());
      }
      if observed.value.value != candidate {
        return Err;
      }
      var removed := RemovePrivateRef(id);
      if !removed.Ok? {
        return removed;
      }
      observed := PrivateRef(id);
      if !observed.Ok? {
        return if observed.Dead? then Dead else Err;
      }
      return if observed.value.None? then Ok(()) else Err;
    }

    method BlockAttempt(id: AttemptId, ghost n: nat) returns (o: Outcome)
      requires Good() && up && n <= clock && driving == id && id in w.attempts && w.attempts[id].Live()
      requires w.attempts[id].status == Dispatched && !w.attempts[id].NoOp() ==> !w.RefIs(w.attempts[id].ref, w.attempts[id].candidate)
      modifies this
      ensures o == Crashed <==> !up
      ensures Continues() && w.refs == old(w.refs)
      ensures w.attempts == old(w.attempts) || w.attempts == old(w).WithStatus(id, Blocked).attempts
      ensures o in {IsBlocked, Failed, Crashed} && (o == IsBlocked ==> w.attempts == old(w).WithStatus(id, Blocked).attempts)
      ensures FaultFree(n) ==> o == IsBlocked && w.pins == old(w.pins) - {id}
      ensures up && fate(old(clock) + 1).Succeeds? && fate(old(clock) + 2).Succeeds? ==> o == IsBlocked
      ensures OwnerIdle(n) ==> w.checkout == old(w.checkout)
    {
      var a := w.attempts[id];
      assert SoundAttempt(honest, w, id);
      var observed := RefHead(a.ref);
      if observed.Dead? {
        return Crashed;
      }
      var stored := Commit(Blocks(id), Blocked);
      if !stored.Ok? {
        return GaveUp(stored);
      }
      var blocked := GetIntegrationAttempt(id);
      if !blocked.Ok? {
        return GaveUp(blocked);
      }
      if !a.NoOp() {
        var cleanup := DeleteCandidateAnchor(id, n);
        if cleanup.Dead? {
          return Crashed;
        }
      }
      return IsBlocked;
    }

    method ProjectCheckoutMatchesExpectedBase(expected: Commit, ghost n: nat) returns (r: Reply<bool>)
      requires Good() && up && n <= clock
      modifies this
      ensures r.Dead? <==> !up
      ensures Continues() && w == old(w).(checkout := w.checkout)
      ensures OwnerIdle(n) ==> w == old(w) && (r.Ok? ==> r.value == MatchesBase(w.checkout, expected.tree))
      ensures FaultFree(n) ==> r.Ok?
      ensures r == Ok(true) ==> clock == old(clock) + 3
    {
      var f := Call();
      if !f.Succeeds? || Staged(w.checkout, expected.tree) {
        return Answer(f, Some(false));
      }
      f := Call();
      if !f.Succeeds? || Unstaged(w.checkout) {
        return Answer(f, Some(false));
      }
      f := Call();
      return Answer(f, Some(!Untracked(w.checkout)));
    }

    /** The checks before dispatch; anything but Ok(true) or a crash blocks the attempt. */
    method ReadyToDispatch(id: AttemptId, ghost n: nat) returns (r: Reply<bool>)
      requires Good() && up && n <= clock && driving == id && id in w.attempts && w.attempts[id].status == Prepared
      modifies this
      ensures r.Dead? <==> !up
      ensures Continues() && w == old(w).(checkout := w.checkout)
      ensures r == Ok(true) ==> w.RefIs(w.attempts[id].ref, w.attempts[id].expected)
      ensures r == Ok(true) ==> SeenFresh(old(clock), clock, w.attempts[id].result, w.attempts[id].candidate)
      ensures Stale(n, w.attempts[id].result, w.attempts[id].candidate) ==> r == Err
      ensures OwnerIdle(n) ==> w.checkout == old(w.checkout)
      ensures FaultFree(n) ==> !r.Dead?
      ensures var a := w.attempts[id];
              Smooth(n, a.result, a.candidate) ==>
                (r == Ok(true) <==> SymbolicRef(w) == Some(a.ref) && w.RefIs(a.ref, a.expected) && (a.NoOp() || Clean(w)))
    {
      var a := w.attempts[id];
      var latest := LatestFreshResult();
      if !latest.Ok? || !FreshResultMatchesAttempt(latest.value, a.result, a.candidate) {
        return if latest.Dead? then Dead else Err;
      }
      assert FreshAt(old(clock), a.result, a.candidate);
      var current := SymbolicHead();
      if !current.Ok? || current.value != a.ref {
        return if current.Dead? then Dead else Err;
      }
      var head := RefHead(a.ref);
      if !head.Ok? || head.value != a.expected {
        return if head.Dead? then Dead else Err;
      }
      if a.NoOp() {
        return Ok(true);
      }
      r := ProjectClean();
    }

    method MarkDispatched(id: AttemptId, ghost n: nat) returns (o: Option<Outcome>)
      requires Good() && up && n <= clock && driving == id && id in w.attempts && w.attempts[id].status == Prepared
      requires w.RefIs(w.attempts[id].ref, w.attempts[id].expected) && (w.attempts[id].NoOp() || id in w.pins)
      modifies this
      ensures o == Some(Crashed) <==> !up
      ensures Continues() && w.refs == old(w.refs) && OnlyStatusOf(id)
      ensures o.None? ==> w.pins == old(w.pins) && w.attempts[id].status == Dispatched
      ensures o.Some? ==> o.value in {Failed, Crashed} && w.attempts[id].status in {Prepared, Dispatched}
      ensures OwnerIdle(n) ==> w.checkout == old(w.checkout)
      ensures FaultFree(n) ==> o.None?
      ensures honest && fate(old(clock)).Fails? && FaultFree(old(clock) + 1) ==>
                o == Some(Failed) && w.attempts == old(w.attempts) && w.pins == old(w.pins) - {id}
    {
      assert SoundAttempt(honest, w, id);
      var dispatched := Commit(Dispatches(id), Dispatched);
      if dispatched.Err? {
        if !w.attempts[id].NoOp() {
          if OwnerIdle(n) { IdleLater(n, clock); }
          var cleanup := DeleteCandidateAnchor(id, clock);
          if cleanup.Dead? {
            return Some(Crashed);
          }
        }
        return Some(Failed);
      }
      return if dispatched.Dead? then Some(Crashed) else None;
    }

    /** The part of driveAttempt that takes PREPARED to DISPATCHED; None means go on. */
    method Dispatch(id: AttemptId, ghost n: nat) returns (o: Option<Outcome>, anchorEnsured: bool)
      requires Good() && up && n <= clock && driving == id && id in w.attempts && w.attempts[id].status == Prepared
      modifies this
      ensures o == Some(Crashed) <==> !up
      ensures Continues() && w.refs == old(w.refs)
      ensures o.None? ==> w.attempts == old(w).WithStatus(id, Dispatched).attempts
      ensures o == Some(IsBlocked) ==> w.attempts == old(w).WithStatus(id, Blocked).attempts
      ensures o.Some? ==> o.value in {IsBlocked, Failed, Crashed} && OnlyStatusOf(id) && w.attempts[id].status != Complete
      ensures o.None? ==> w.RefIs(w.attempts[id].ref, w.attempts[id].expected)
      ensures o.None? && !w.attempts[id].NoOp() ==> anchorEnsured && id in w.pins
      ensures OwnerIdle(n) ==> w.checkout == old(w.checkout)
      ensures FaultFree(n) && o.Some? ==> o == Some(IsBlocked) && id !in w.pins
      ensures var a := old(w).attempts[id];
              && (o.None? || (w.attempts[id].status == Dispatched) ==> SeenFresh(old(clock), clock, a.result, a.candidate))
              && (Stale(n, a.result, a.candidate) ==> o == Some(IsBlocked))
      ensures var a := old(w).attempts[id];
              Smooth(n, a.result, a.candidate) ==>
                (o.None? <==> SymbolicRef(old(w)) == Some(a.ref) && old(w).RefIs(a.ref, a.expected) && (a.NoOp() || Clean(old(w))))
    {
      var a := w.attempts[id];
      anchorEnsured := false;
      var ready := ReadyToDispatch(id, n);
      if ready.Dead? {
        return Some(Crashed), false;
      }
      if ready != Ok(true) {
        var blocked := BlockAttempt(id, n);
        return Some(blocked), false;
      }
      if !a.NoOp() {
        var anchored := EnsureCandidateAnchor(id, n);
        if anchored.Dead? {
          return Some(Crashed), false;
        }
        if anchored.Err? {
          var blocked := BlockAttempt(id, n);
          return Some(blocked), false;
        }
        anchorEnsured := true;
      }
      o := MarkDispatched(id, n);
    }

    /** The compare-and-swap and its reconciliation: None means that the branch is at the candidate. */
    method AdvanceRef(id: AttemptId, ghost n: nat) returns (o: Option<Outcome>)
      requires Good() && up && n <= clock && driving == id && id in w.attempts && id in w.pins
      requires w.attempts[id].status == Dispatched && !w.attempts[id].NoOp()
      requires w.RefIs(w.attempts[id].ref, w.attempts[id].expected)
      modifies this
      ensures o == Some(Crashed) <==> !up
      ensures Continues()
      ensures o.None? ==>
                w.attempts == old(w.attempts) && w.refs == old(w.refs)[old(w).attempts[id].ref := old(w).attempts[id].candidate]
      ensures o == Some(IsBlocked) ==> w.attempts == old(w).WithStatus(id, Blocked).attempts
      ensures o.Some? ==>
                && o.value in {IsBlocked, Failed, Crashed}
                && w.refs in {old(w.refs), old(w.refs)[old(w).attempts[id].ref := old(w).attempts[id].candidate]}
      ensures o.Some? ==> w.attempts in {old(w.attempts), old(w).WithStatus(id, Blocked).attempts}
      ensures OwnerIdle(n) ==> w.checkout == old(w.checkout)
      ensures Smooth(n, old(w).attempts[id].result, old(w).attempts[id].candidate) ==> o.None?
      ensures var a := old(w).attempts[id];
              && (o.None? || w.refs != old(w.refs) ==> SeenFresh(old(clock), clock, a.result, a.candidate))
              && (Stale(n, a.result, a.candidate) ==> o == Some(IsBlocked) && w.refs == old(w.refs))
              && (FaultFree(n) ==> o in {None, Some(IsBlocked)} && (o.Some? ==> id !in w.pins))
      ensures var a, gated := old(w).attempts[id], fate(old(clock)).Succeeds? && FreshAt(old(clock), old(w).attempts[id].result, old(w).attempts[id].candidate);
              && (!gated ==> w.refs == old(w.refs) && (up && FaultFree(old(clock) + 1) ==> o == Some(IsBlocked)))
              && (gated && fate(old(clock) + 1).Fails? && fate(old(clock) + 2).Succeeds? ==>
                    if fate(old(clock) + 1).applied then o.None? else o == Some(Failed) && w == old(w).(checkout := w.checkout))
    {
      var a := w.attempts[id];
      var latest := LatestFreshResult();
      if latest.Dead? {
        return Some(Crashed);
      }
      if latest.Err? || !FreshResultMatchesAttempt(latest.value, a.result, a.candidate) {
        if OwnerIdle(n) { IdleLater(n, clock); }
        var blocked := BlockAttempt(id, clock);
        return Some(blocked);
      }
      assert FreshAt(old(clock), a.result, a.candidate);
      var swapped := CompareAndSwap(id);
      if swapped.Dead? {
        return Some(Crashed);
      }
      if swapped.Err? {
        var observed := RefHead(a.ref);
        if !observed.Ok? {
          return Some(GaveUp(observed));
        }
        if observed.value == a.expected {
          return Some(Failed);
        }
        if observed.value != a.candidate {
          var blocked := BlockAttempt(id, n);
          return Some(blocked);
        }
      }
      return None;
    }

    /** The two-tree sync of a checkout that is exactly at the base. */
    method MoveCheckout(id: AttemptId, ghost n: nat) returns (o: Option<Outcome>)
      requires Good() && up && n <= clock && driving == id && id in w.attempts && w.attempts[id].status == Dispatched
      requires w.RefIs(w.attempts[id].ref, w.attempts[id].candidate)
      modifies this
      ensures o == Some(Crashed) <==> !up
      ensures Continues() && w == old(w).(checkout := w.checkout)
      ensures o.Some? ==> o.value in {SyncRequired, Failed, Crashed}
      ensures FaultFree(n) ==> o in {None, Some(SyncRequired)}
      ensures var a := w.attempts[id];
              OwnerIdle(n) && SymbolicRef(old(w)) == Some(a.ref) ==>
                && KeepsOwnerWork(a.expected.tree, a.candidate.tree, old(w.checkout), w.checkout)
                && (w.checkout != old(w.checkout) ==> MatchesBase(old(w.checkout), a.expected.tree))
                && (o.None? ==> MatchesBase(w.checkout, a.candidate.tree))
                && (w.checkout != old(w.checkout) && o == Some(SyncRequired) ==> clock == old(clock) + 4 && fate(old(clock) + 3).Fails?)
                && (FaultFree(n) ==> o in {None, Some(SyncRequired)} && (o.None? <==> MatchesBase(old(w.checkout), a.expected.tree)))
    {
      var a := w.attempts[id];
      var safe := ProjectCheckoutMatchesExpectedBase(a.expected, n);
      if !safe.Ok? {
        return Some(GaveUp(safe));
      }
      if !safe.value {
        return Some(SyncRequired);
      }
      MatchesBaseExactly(w.checkout, a.expected.tree);
      ReadTreeFromBaseIfThere(a.expected.tree, a.candidate.tree, w.checkout);
      var synced := ReadTreeUpdate(id);
      if !synced.Ok? {
        return Some(if synced.Dead? then Crashed else SyncRequired);
      }
      MatchesBaseExactly(w.checkout, a.candidate.tree);
      var clean := ProjectClean();
      if !clean.Ok? {
        return Some(GaveUp(clean));
      }
      return if clean.value then None else Some(SyncRequired);
    }

    /**
     * Synchronize the registered root after the swap: None means go on to finalize. The clean
     * shortcut is taken only on a re-drive (`advanced` false). A failing symbolic-ref probe is
     * treated like a checkout of another branch: the synchronization is skipped.
     */
    method SyncCheckout(id: AttemptId, advanced: bool, ghost n: nat) returns (o: Option<Outcome>)
      requires Good() && up && n <= clock && driving == id && id in w.attempts && w.attempts[id].status == Dispatched
      requires w.RefIs(w.attempts[id].ref, w.attempts[id].candidate)
      modifies this
      ensures o == Some(Crashed) <==> !up
      ensures Continues() && w == old(w).(checkout := w.checkout)
      ensures o.Some? ==> o.value in {SyncRequired, Failed, Crashed}
      ensures var a := w.attempts[id];
              OwnerIdle(n) ==>
                && KeepsOwnerWork(a.expected.tree, a.candidate.tree, old(w.checkout), w.checkout)
                && (w.checkout != old(w.checkout) ==> MatchesBase(old(w.checkout), a.expected.tree) && SymbolicRef(old(w)) == Some(a.ref))
                && (o.None? && fate(old(clock)) == Succeeds && SymbolicRef(w) == Some(a.ref) ==>
                      MatchesBase(w.checkout, a.candidate.tree))
                && (!fate(old(clock)).Succeeds? || SymbolicRef(old(w)) != Some(a.ref) ==> w == old(w) && (o.None? || o == Some(Crashed)))
                && (o == Some(SyncRequired) && Untroubled(old(clock), clock) ==> w.checkout == old(w.checkout))
                && (FaultFree(n) ==> o in {None, Some(SyncRequired)} && (o.None? <==> Syncable(old(w), id, advanced)))
      ensures fate(old(clock)).Fails? ==> o.None? && clock == old(clock) + 1
      ensures clock > old(clock) && (o.None? ==> !fate(old(clock)).Dies?)
      ensures FaultFree(n) ==> o in {None, Some(SyncRequired)}
    {
      var a := w.attempts[id];
      var checkedOut := SymbolicHead();
      if checkedOut.Dead? {
        return Some(Crashed);
      }
      if checkedOut.Err? || checkedOut.value != a.ref {
        return None;
      }
      if !advanced {
        var clean := ProjectClean();
        if !clean.Ok? {
          return Some(GaveUp(clean));
        }
        if clean.value {
          return None;
        }
      }
      o := MoveCheckout(id, n);
    }

    /** Release the private ref, then record the application. */
    method Finalize(id: AttemptId, ghost n: nat) returns (o: Outcome)
      requires Good() && up && n <= clock && driving == id && id in w.attempts && w.attempts[id].status == Dispatched
      requires w.RefIs(w.attempts[id].ref, w.attempts[id].candidate)
      modifies this
      ensures o == Crashed <==> !up
      ensures Continues() && w.refs == old(w.refs) && OnlyStatusOf(id) && w.attempts[id].status in {Dispatched, Complete}
      ensures o in {Done, Failed, Crashed} && (o == Done ==> w.attempts[id].status == Complete && id !in w.pins)
      ensures OwnerIdle(n) ==> w.checkout == old(w.checkout)
      ensures FaultFree(n) ==> o == Done
    {
      if !w.attempts[id].NoOp() {
        var cleanup := DeleteCandidateAnchor(id, n);
        if !cleanup.Ok? {
          return GaveUp(cleanup);
        }
      }
      assert SoundAttempt(honest, w, id);
      var stored := Commit(Finishes(id), Complete);
      if !stored.Ok? {
        return GaveUp(stored);
      }
      var completed := GetIntegrationAttempt(id);
      assert SoundAttempt(honest, w, id);
      return if completed.Ok? then Done else GaveUp(completed);
    }

    method FinishNoOp(id: AttemptId, head: Commit, ghost n: nat) returns (o: Outcome)
      requires Good() && up && n <= clock && driving == id && id in w.attempts && w.attempts[id].status == Dispatched
      requires w.attempts[id].NoOp() && w.RefIs(w.attempts[id].ref, head)
      modifies this
      ensures o == Crashed <==> !up
      ensures Continues() && w.refs == old(w.refs) && OnlyStatusOf(id)
      ensures o in {Done, IsBlocked, Failed, Crashed}
      ensures o == Done ==> w.attempts[id].status == Complete && head == w.attempts[id].candidate && id !in w.pins
      ensures o == IsBlocked ==> w.attempts[id].status == Blocked
      ensures OwnerIdle(n) ==> w.checkout == old(w.checkout)
      ensures Smooth(n, w.attempts[id].result, w.attempts[id].candidate) ==>
                o == if head == w.attempts[id].candidate then Done else IsBlocked
      ensures var a := w.attempts[id];
              && (a.status == Complete ==> SeenFresh(old(clock), clock, a.result, a.candidate))
              && (Stale(n, a.result, a.candidate) ==> o == IsBlocked)
              && (FaultFree(n) ==> o in {Done, IsBlocked} && id !in w.pins)
              && (fate(old(clock)).Fails? && FaultFree(old(clock) + 1) ==> o == IsBlocked)
    {
      var a := w.attempts[id];
      var latest := LatestFreshResult();
      if latest.Dead? {
        return Crashed;
      }
      if latest.Err? || !FreshResultMatchesAttempt(latest.value, a.result, a.candidate) || head != a.expected {
        if OwnerIdle(n) { IdleLater(n, clock); }
        o := BlockAttempt(id, clock);
        return;
      }
      assert FreshAt(old(clock), a.result, a.candidate);
      o := Finalize(id, n);
    }

    /** Where an undisturbed drive of a dispatched attempt ends. */
    function Verdict(w: World, id: AttemptId): Outcome
      requires id in w.attempts
    {
      var a := w.attempts[id];
      if a.NoOp() then
        if w.RefIs(a.ref, a.expected) then Done else IsBlocked
      else if w.RefIs(a.ref, a.expected) then
        if Syncable(w, id, true) then Done else SyncRequired
      else if w.RefIs(a.ref, a.candidate) then
        if Syncable(w, id, false) then Done else SyncRequired
      else IsBlocked
    }

    /** Anchor and swap when the branch is still at the base; None means that it is at the candidate. */
    method BringRefToCandidate(id: AttemptId, anchorEnsured: bool, head: Commit, ghost n: nat)
      returns (o: Option<Outcome>, advanced: bool)
      requires Good() && up && n <= clock && driving == id && id in w.attempts && w.attempts[id].status == Dispatched
      requires !w.attempts[id].NoOp() && w.RefIs(w.attempts[id].ref, head) && (anchorEnsured ==> id in w.pins)
      modifies this
      ensures o == Some(Crashed) <==> !up
      ensures Continues() && OnlyStatusOf(id)
      ensures o.None? ==> w.attempts == old(w.attempts) && w.RefIs(w.attempts[id].ref, w.attempts[id].candidate)
      ensures o.Some? ==> o.value in {IsBlocked, Failed, Crashed} && (o.value == IsBlocked ==> w.attempts[id].status == Blocked)
      ensures advanced ==> head == w.attempts[id].expected
      ensures o.None? && head == w.attempts[id].expected ==> advanced
      ensures OwnerIdle(n) ==> w.checkout == old(w.checkout)
      ensures head == w.attempts[id].candidate ==> o.None? && w == old(w) && clock == old(clock)
      ensures var a := w.attempts[id];
              Smooth(n, a.result, a.candidate) ==> o == if head in {a.expected, a.candidate} then None else Some(IsBlocked)
      ensures var a := w.attempts[id];
              && (w.refs != old(w.refs) ==> SeenFresh(old(clock), clock, a.result, a.candidate))
              && (Stale(n, a.result, a.candidate) && head != a.candidate ==> o == Some(IsBlocked) && w.refs == old(w.refs))
              && (FaultFree(n) ==> o in {None, Some(IsBlocked)} && (o.Some? ==> id !in w.pins))
    {
      var a := w.attempts[id];
      if head == a.expected {
        if !anchorEnsured {
          var anchored := EnsureCandidateAnchor(id, n);
          if anchored.Dead? {
            return Some(Crashed), false;
          }
          if anchored.Err? {
            var blocked := BlockAttempt(id, n);
            return Some(blocked), false;
          }
        }
        o := AdvanceRef(id, n);
        return o, true;
      }
      if head != a.candidate {
        var blocked := BlockAttempt(id, n);
        return Some(blocked), false;
      }
      return None, false;
    }

    lemma IdleLater(n: nat, m: nat)
      requires OwnerIdle(n) && n <= m
      ensures OwnerIdle(m)
    {
      forall k: nat | k >= m ensures Idle(k) {
        assert owner(k) == owner(k);
      }
    }

    /** The part of driveAttempt after the swap; its first call is the probe of the checked-out branch. */
    method SyncAndFinalize(id: AttemptId, advanced: bool, ghost n: nat) returns (o: Outcome)
      requires Good() && up && n <= clock && driving == id && id in w.attempts && w.attempts[id].status == Dispatched
      requires !w.attempts[id].NoOp() && w.RefIs(w.attempts[id].ref, w.attempts[id].candidate)
      modifies this
      ensures o == Crashed <==> !up
      ensures Continues() && OnlyStatusOf(id) && w.refs == old(w.refs)
      ensures o in {Done, SyncRequired, Failed, Crashed}
      ensures o == Done ==> w.attempts[id].status == Complete && id !in w.pins
      ensures o == SyncRequired ==> w.attempts == old(w.attempts)
      ensures FaultFree(n) ==> o in {Done, SyncRequired}
      ensures OwnerIdle(n) ==> RewroteOnlyTheBase(id) && LeftByProbe(id, o, old(clock))
      ensures OwnerIdle(n) && FaultFree(n) ==> o == if Syncable(old(w), id, advanced) then Done else SyncRequired
      ensures OwnerIdle(n) && FaultFreeBut(old(clock), old(clock)) ==> o == Done && w.checkout == old(w.checkout)
    {
      var stopped := SyncCheckout(id, advanced, n);
      if stopped.Some? {
        return stopped.value;
      }
      if OwnerIdle(n) { IdleLater(n, clock); }
      o := Finalize(id, clock);
    }

    /** The part of driveAttempt after DISPATCHED, for an attempt that moves the branch. */
    method Apply(id: AttemptId, anchorEnsured: bool, head: Commit, ghost n: nat) returns (o: Outcome, ghost probe: nat)
      requires Good() && up && n <= clock && driving == id && id in w.attempts && w.attempts[id].status == Dispatched
      requires !w.attempts[id].NoOp() && w.RefIs(w.attempts[id].ref, head) && (anchorEnsured ==> id in w.pins)
      modifies this
      ensures o == Crashed <==> !up
      ensures Continues() && OnlyStatusOf(id)
      ensures o in {Done, IsBlocked, SyncRequired, Failed, Crashed}
      ensures var a := w.attempts[id];
              && (o == Done ==> a.status == Complete && w.RefIs(a.ref, a.candidate) && id !in w.pins)
              && (o == IsBlocked ==> a.status == Blocked)
              && (o == SyncRequired ==> a.status == Dispatched && w.RefIs(a.ref, a.candidate))
      ensures var a := w.attempts[id];
              OwnerIdle(n) ==>
                && KeepsOwnerWork(a.expected.tree, a.candidate.tree, old(w.checkout), w.checkout)
                && (w.checkout != old(w.checkout) ==> MatchesBase(old(w.checkout), a.expected.tree) && SymbolicRef(old(w)) == Some(a.ref))
      ensures var a := w.attempts[id];
              Smooth(n, a.result, a.candidate) ==>
                && o == Verdict(old(w), id)
                && (o == Done && SymbolicRef(old(w)) == Some(a.ref) ==> MatchesBase(w.checkout, a.candidate.tree))
                && (o == SyncRequired ==> w.checkout == old(w.checkout))
      ensures OwnerIdle(n) ==> LeftByProbe(id, o, probe)
      ensures OwnerIdle(n) && head == w.attempts[id].candidate && FaultFreeBut(old(clock), old(clock)) ==>
                o == Done && w.checkout == old(w.checkout)
      ensures OnlyIfFresh(id, n, o)
      ensures FaultFree(n) ==> o in {Done, IsBlocked, SyncRequired} && (o != SyncRequired ==> id !in w.pins)
    {
      var stopped, advanced := BringRefToCandidate(id, anchorEnsured, head, n);
      probe := clock;
      if stopped.Some? {
        return stopped.value, probe;
      }
      o := SyncAndFinalize(id, advanced, n);
    }

    /**
     * A branch moves, an attempt is dispatched, and one without a change completes, only on
     * evidence that was fresh during the drive. Without fresh evidence an attempt that has not swapped is blocked.
     */
    twostate predicate OnlyIfFresh(id: AttemptId, n: nat, o: Outcome)
      requires id in old(w.attempts) && id in w.attempts
      reads this
    {
      var a := old(w).attempts[id];
      && (w.refs != old(w.refs) || (a.NoOp() && a.status != Complete && w.attempts[id].status == Complete)
          || (a.status == Prepared && w.attempts[id].status in {Dispatched, Complete}) ==>
            SeenFresh(old(clock), clock, a.result, a.candidate))
      && (Stale(n, a.result, a.candidate) && a.Live() && a.ref in old(w).refs
          && (a.status == Prepared || a.NoOp() || !old(w).RefIs(a.ref, a.candidate))
          ==> o == IsBlocked && w.refs == old(w.refs))
    }

    /** driveAttempt from DISPATCHED on. */
    method DriveDispatched(id: AttemptId, anchorEnsured: bool, ghost n: nat) returns (o: Outcome, ghost probe: nat)
      requires Good() && up && n <= clock && driving == id && id in w.attempts && w.attempts[id].status == Dispatched
      requires !w.attempts[id].NoOp() && anchorEnsured ==> id in w.pins
      modifies this
      ensures o == Crashed <==> !up
      ensures Continues() && OnlyStatusOf(id) && TellsTheTruth(id, o)
      ensures o == Done ==> w.RefIs(w.attempts[id].ref, w.attempts[id].candidate)
      ensures OwnerIdle(n) ==> RewroteOnlyTheBase(id)
      ensures var a := old(w).attempts[id];
              Smooth(n, a.result, a.candidate) && a.ref in old(w).refs ==> o == Verdict(old(w), id) && LeftCheckoutRight(id, o)
      ensures OwnerIdle(n) ==> LeftByProbe(id, o, probe)
      ensures var a := old(w).attempts[id];
              OwnerIdle(n) && !a.NoOp() && old(w).RefIs(a.ref, a.candidate) && FaultFreeBut(old(clock), old(clock) + 1) ==>
                o == Done && w.checkout == old(w.checkout)
      ensures OnlyIfFresh(id, n, o)
      ensures FaultFree(n) && old(w).attempts[id].ref in old(w).refs ==>
                o in {Done, IsBlocked, SyncRequired} && (o != SyncRequired ==> id !in w.pins)
    {
      var a := w.attempts[id];
      probe := clock;
      var head := RefHead(a.ref);
      if !head.Ok? {
        return GaveUp(head), probe;
      }
      if a.NoOp() {
        o := FinishNoOp(id, head.value, n);
      } else {
        o, probe := Apply(id, anchorEnsured, head.value, n);
      }
    }

    predicate TellsTheTruth(id: AttemptId, o: Outcome)
      reads this
    {
      && id in w.attempts
      && var a := w.attempts[id];
      && o in {Done, IsBlocked, SyncRequired, Failed, Crashed}
      && (o == Done ==> a.status == Complete && w.Reached(a.ref, a.candidate) && id !in w.pins)
      && (o == IsBlocked ==> a.status == Blocked)
      && (o == SyncRequired ==> a.status == Dispatched && w.RefIs(a.ref, a.candidate))
    }

    /** Files changed only if nothing was staged, edited, missing or untracked, and only to the candidate's. */
    twostate predicate RewroteOnlyTheBase(id: AttemptId)
      requires id in w.attempts
      reads this
    {
      var a := w.attempts[id];
      && KeepsOwnerWork(a.expected.tree, a.candidate.tree, old(w.checkout), w.checkout)
      && (w.checkout != old(w.checkout) ==> MatchesBase(old(w.checkout), a.expected.tree) && SymbolicRef(old(w)) == Some(a.ref))
    }

    twostate predicate LeftCheckoutRight(id: AttemptId, o: Outcome)
      requires id in w.attempts
      reads this
    {
      var a := w.attempts[id];
      && (o == Done && !a.NoOp() && SymbolicRef(old(w)) == Some(a.ref) ==> MatchesBase(w.checkout, a.candidate.tree))
      && (o == SyncRequired ==> w.checkout == old(w.checkout))
    }

    /** driveAttempt from PREPARED on. */
    method DrivePrepared(id: AttemptId, ghost n: nat) returns (o: Outcome, ghost probe: nat)
      requires Good() && up && n <= clock && driving == id && id in w.attempts && w.attempts[id].status == Prepared
      modifies this
      ensures o == Crashed <==> !up
      ensures Continues() && OnlyStatusOf(id) && TellsTheTruth(id, o)
      ensures o == Done ==> w.RefIs(w.attempts[id].ref, w.attempts[id].candidate)
      ensures OwnerIdle(n) ==> RewroteOnlyTheBase(id)
      ensures var a := old(w).attempts[id];
              Smooth(n, a.result, a.candidate) ==>
                && o in {Done, IsBlocked} && LeftCheckoutRight(id, o)
                && (o == Done <==> SymbolicRef(old(w)) == Some(a.ref) && old(w).RefIs(a.ref, a.expected) && (a.NoOp() || Clean(old(w))))
      ensures OwnerIdle(n) ==> LeftByProbe(id, o, probe)
      ensures OnlyIfFresh(id, n, o)
      ensures FaultFree(n) ==> o in {Done, IsBlocked, SyncRequired} && (o != SyncRequired ==> id !in w.pins)
    {
      probe := clock;
      var stopped, anchorEnsured := Dispatch(id, n);
      if stopped.Some? {
        return stopped.value, probe;
      }
      o, probe := DriveDispatched(id, anchorEnsured, n);
    }

    /** driveAttempt on an attempt that is already COMPLETE or BLOCKED: only the latest result is read. */
    method ReportSettled(id: AttemptId) returns (o: Outcome)
      requires Good() && up && id in w.attempts && !w.attempts[id].Live()
      modifies this
      ensures o == Crashed <==> !up
      ensures Looked() && TellsTheTruth(id, o) && o != SyncRequired
      ensures fate(old(clock)) == Succeeds ==> o == if w.attempts[id].status == Complete then Done else IsBlocked
      ensures fate(old(clock)).Fails? ==> o == if w.attempts[id].status == Complete then Failed else IsBlocked
    {
      assert SoundAttempt(honest, w, id);
      var complete := w.attempts[id].status == Complete;
      var result := LatestTaskResult();
      if result.Dead? || (result.Err? && complete) {
        return GaveUp(result);
      }
      return if complete then Done else IsBlocked;
    }

    /** The daemon is started again, if it has died. */
    ghost method Restart()
      modifies this`up
      ensures up && (Good() <==> old(Good()))
    {
      up := true;
    }

    ghost method Begin(id: AttemptId)
      requires Good()
      modifies this`driving, this`from, this`start
      ensures Good() && driving == id && start == w
    {
      driving, from, start := id, |run.steps|, w;
    }

    method Load(id: AttemptId, ghost n: nat) returns (r: Reply<Attempt>)
      requires Good() && up && n <= clock && id in w.attempts
      modifies this
      ensures r.Dead? <==> !up
      ensures Continues() && w == old(w).(checkout := w.checkout)
      ensures r.Ok? ==> r.value == w.attempts[id]
      ensures (OwnerIdle(n) ==> w == old(w)) && (FaultFree(n) ==> r.Ok?)
      ensures Untroubled(old(clock), old(clock) + 2) ==> r.Ok? && clock == old(clock) + 2
    {
      var project := GetProject();
      if !project.Ok? {
        return if project.Dead? then Dead else Err;
      }
      r := GetIntegrationAttempt(id);
    }

    /**
     * Without faults a drive gets through: to what was recorded for a settled attempt, else to one
     * of the three proper ends; left undisturbed, to the end that the attempt deserves.
     */
    twostate predicate AsDeserved(id: AttemptId, n: nat, o: Outcome)
      requires id in old(w.attempts) && id in w.attempts
      reads this
    {
      var a := old(w).attempts[id];
      && (FaultFree(n) && !a.Live() ==> o == if a.status == Complete then Done else IsBlocked)
      && (FaultFree(n) && a.Live() && a.ref in old(w).refs ==>
            o in {Done, IsBlocked, SyncRequired} && (o != SyncRequired ==> id !in w.pins))
      && (Smooth(n, a.result, a.candidate) && a.status == Dispatched && a.ref in old(w).refs ==>
            o == Verdict(old(w), id) && LeftCheckoutRight(id, o))
      && (Smooth(n, a.result, a.candidate) && a.status == Prepared ==>
            && o in {Done, IsBlocked} && LeftCheckoutRight(id, o)
            && (o == Done <==> SymbolicRef(old(w)) == Some(a.ref) && old(w).RefIs(a.ref, a.expected) && (a.NoOp() || Clean(old(w)))))
    }

    /** driveAttempt on a live attempt, once it is loaded. */
    method DriveLive(id: AttemptId, ghost n: nat) returns (o: Outcome, ghost probe: nat)
      requires Good() && up && n <= clock && driving == id && id in w.attempts && w.attempts[id].Live()
      modifies this
      ensures o == Crashed <==> !up
      ensures Continues() && OnlyStatusOf(id) && TellsTheTruth(id, o)
      ensures o == Done ==> w.RefIs(w.attempts[id].ref, w.attempts[id].candidate)
      ensures OwnerIdle(n) ==> RewroteOnlyTheBase(id) && LeftByProbe(id, o, probe)
      ensures AsDeserved(id, n, o)
      ensures OwnerIdle(n) && Swapped(old(w), id) && FaultFreeBut(old(clock), old(clock) + 1) ==> o == Done && w.checkout == old(w.checkout)
      ensures OnlyIfFresh(id, n, o)
    {
      if w.attempts[id].status == Prepared {
        o, probe := DrivePrepared(id, n);
      } else {
        o, probe := DriveDispatched(id, false, n);
      }
    }

    /** driveAttempt once the attempt is loaded. */
    method DriveLoaded(id: AttemptId, ghost n: nat) returns (o: Outcome, ghost probe: nat)
      requires Good() && up && n <= clock && driving == id && id in w.attempts
      modifies this
      ensures o == Crashed <==> !up
      ensures Continues() && OnlyStatusOf(id) && TellsTheTruth(id, o)
      ensures !old(w).attempts[id].Live() ==> w.attempts == old(w.attempts) && w.refs == old(w.refs)
      ensures o == Done && old(w).attempts[id].status != Complete ==> w.RefIs(w.attempts[id].ref, w.attempts[id].candidate)
      ensures OwnerIdle(n) ==> RewroteOnlyTheBase(id) && (old(w).attempts[id].Live() ==> LeftByProbe(id, o, probe))
      ensures AsDeserved(id, n, o) && OnlyIfFresh(id, n, o)
      ensures OwnerIdle(n) && Swapped(old(w), id) && FaultFreeBut(old(clock), old(clock) + 1) ==> o == Done && w.checkout == old(w.checkout)
    {
      probe := clock;
      if w.attempts[id].Live() {
        o, probe := DriveLive(id, n);
      } else {
        o := ReportSettled(id);
      }
    }

    /** The branch of this dispatched attempt is at its candidate. */
    predicate Swapped(w: World, id: AttemptId) {
      id in w.attempts && w.attempts[id].status == Dispatched && !w.attempts[id].NoOp() && w.RefIs(w.attempts[id].ref, w.attempts[id].candidate)
    }

    /**
     * driveAttempt. `n` is any call from which the caller wants to assume good behaviour.
     * Whatever the scripts do, the drive adds only its own steps to the run, and its outcome tells
     * the truth; left undisturbed, it reaches the outcome that the attempt deserves.
     */
    method DriveAttempt(id: AttemptId, ghost n: nat) returns (o: Outcome, ghost probe: nat)
      requires Good() && up && n <= clock && id in w.attempts
      modifies this
      ensures o == Crashed <==> !up
      ensures Good() && clock >= old(clock) && driving == id && start == old(w)
      ensures OnlyStatusOf(id) && TellsTheTruth(id, o)
      ensures !old(w).attempts[id].Live() ==> w.attempts == old(w.attempts) && w.refs == old(w.refs)
      ensures o == Done && old(w).attempts[id].status != Complete ==> w.RefIs(w.attempts[id].ref, w.attempts[id].candidate)
      ensures OwnerIdle(n) ==> RewroteOnlyTheBase(id) && (old(w).attempts[id].Live() ==> LeftByProbe(id, o, probe))
      ensures AsDeserved(id, n, o) && OnlyIfFresh(id, n, o)
      ensures OwnerIdle(n) && Swapped(old(w), id) && FaultFreeBut(old(clock), old(clock) + 3) ==> o == Done && w.checkout == old(w.checkout)
    {
      Begin(id);
      probe := clock;
      var loaded := Load(id, n);
      if !loaded.Ok? {
        return GaveUp(loaded), probe;
      }
      o, probe := DriveLoaded(id, n);
    }

    // ----- Entry points -----

    /** A call that reads or writes only records outside this model: a workspace, a project, a task result. */
    method OtherStoreCall() returns (r: Reply<()>)
      requires Good() && up
      modifies this
      ensures r.Dead? <==> !up
      ensures Looked() && r == Answer(fate(old(clock)), Some(()))
    {
      var f := Call();
      r := Answer(f, Some(()));
    }

    /** `merge-base --is-ancestor` */
    method IsAncestor(a: Commit, d: Commit) returns (r: Reply<()>)
      requires Good() && up
      modifies this
      ensures r.Dead? <==> !up
      ensures Looked() && r == Answer(fate(old(clock)), if AtOrAfter(d, a) then Some(()) else None)
    {
      var f := Call();
      r := Answer(f, if AtOrAfter(d, a) then Some(()) else None);
    }

    method PrepareIntegrationAttempt(id: AttemptId, a: Attempt) returns (r: Reply<()>)
      requires Good() && up && id !in w.attempts
      requires a.status == Prepared && w.RefIs(a.ref, a.expected) && AtOrAfter(a.candidate, a.expected)
      modifies this
      ensures r.Dead? <==> !up
      ensures Good() && clock >= old(clock) && w.refs == old(w.refs)
      ensures w.attempts in {old(w.attempts), old(w.attempts)[id := a]} && (r.Ok? ==> id in w.attempts)
      ensures forall n: nat {:trigger FaultFree(n)} | n <= old(clock) && FaultFree(n) :: r.Ok?
      ensures forall n: nat {:trigger OwnerIdle(n)} | n <= old(clock) && OwnerIdle(n) :: w.checkout == old(w.checkout)
    {
      var f := Call();
      if TakesEffect(f) {
        var w' := w.(attempts := w.attempts[id := a]);
        RunGrows(honest, run, Prepares(id), w');
        SoundIsKept(honest, Prepares(id), w, w');
        run := Run(run.steps + [Prepares(id)], run.worlds + [w']);
        w := w';
        driving, from, start := id, |run.steps|, w;
      }
      r := Answer(f, Some(()));
    }

    /** The checks before an attempt is prepared; None means that it may be. */
    method CheckCandidate(base: Commit, candidate: Commit, ghost n: nat) returns (refused: Option<Outcome>, ref: Ref)
      requires Good() && up && n <= clock
      modifies this
      ensures refused == Some(Crashed) <==> !up
      ensures Continues() && w == old(w).(checkout := w.checkout)
      ensures refused.None? ==> w.RefIs(ref, base) && AtOrAfter(candidate, base)
      ensures refused.Some? ==> refused.value in {HeadDrift, IsBlocked, Failed, Crashed}
      ensures OwnerIdle(n) ==> w == old(w)
      ensures OwnerIdle(n) && FaultFree(n) && SymbolicRef(w).Some? && SymbolicRef(w).value in w.refs ==>
                && ref == SymbolicRef(w).value
                && refused == if w.refs[ref] != base then Some(HeadDrift)
                              else if candidate == base || (Clean(w) && Descends(candidate, base)) then None
                              else Some(IsBlocked)
    {
      var expected := SymbolicHead();
      if !expected.Ok? {
        return Some(GaveUp(expected)), "";
      }
      ref := expected.value;
      var head := RefHead(ref);
      if !head.Ok? {
        return Some(GaveUp(head)), ref;
      }
      if head.value != base {
        var stored := OtherStoreCall();
        return Some(if stored.Ok? then HeadDrift else GaveUp(stored)), ref;
      }
      if candidate == base {
        return None, ref;
      }
      var clean := ProjectClean();
      if !clean.Ok? {
        return Some(GaveUp(clean)), ref;
      }
      if clean.value {
        var ancestor := IsAncestor(base, candidate);
        if ancestor.Dead? {
          return Some(Crashed), ref;
        }
        if ancestor.Ok? {
          return None, ref;
        }
      }
      var stored := OtherStoreCall();
      return Some(if stored.Ok? then IsBlocked else GaveUp(stored)), ref;
    }

    /** The attempt is prepared, bound to its task result, and driven. */
    method PrepareAndDrive(task: string, id: AttemptId, result: string, ref: Ref, base: Commit, candidate: Commit, ghost n: nat)
      returns (o: Outcome)
      requires Good() && up && n <= clock && id !in w.attempts && w.RefIs(ref, base) && AtOrAfter(candidate, base)
      modifies this
      ensures o == Crashed <==> !up
      ensures Good() && AddedAtMost(id, task, base)
      ensures o in {Done, IsBlocked, SyncRequired, Failed, Crashed}
      ensures o == Done ==>
                id in w.attempts && w.attempts[id].status == Complete && w.Reached(w.attempts[id].ref, w.attempts[id].candidate)
      ensures Smooth(n, result, candidate) && SymbolicRef(old(w)) == Some(ref) && (candidate == base || Clean(old(w)))
              ==> o == Done && w.attempts[id].candidate == candidate
      ensures w.refs != old(w.refs) ==> id in w.attempts && SeenFresh(old(clock), clock, result, candidate)
      ensures id in w.attempts ==> w.attempts[id].result == result && w.attempts[id].candidate == candidate
      ensures Stale(n, result, candidate) ==> o == IsBlocked && w.refs == old(w.refs)
      ensures FaultFree(n) ==> o in {Done, IsBlocked, SyncRequired}
    {
      var prepared := PrepareIntegrationAttempt(id, Attempt(task, result, ref, base, candidate, Prepared));
      if !prepared.Ok? {
        return GaveUp(prepared);
      }
      ghost var probe;
      o, probe := DriveAttempt(id, n);
    }

    /** Integrate for a task without an attempt: `id` is a new attempt id, `base` the workspace's base revision. */
    method IntegrateFirst(task: string, id: AttemptId, base: Commit, ghost n: nat) returns (o: Outcome)
      requires Good() && up && n <= clock && id !in w.attempts
      modifies this
      ensures o == Crashed <==> !up
      ensures Good() && AddedAtMost(id, task, base)
      ensures o in {HeadDrift, NotReady} ==> w.attempts == old(w.attempts) && w.refs == old(w.refs)
      ensures o == Done ==>
                id in w.attempts && w.attempts[id].status == Complete && w.Reached(w.attempts[id].ref, w.attempts[id].candidate)
      ensures forall result: string, candidate: Commit {:trigger Smooth(n, result, candidate)} ::
                && Smooth(n, result, candidate) && Descends(candidate, base) && Clean(old(w))
                && SymbolicRef(old(w)).Some? && old(w).RefIs(SymbolicRef(old(w)).value, base)
                ==> o == Done && w.attempts[id].candidate == candidate
      ensures PublishedFresh(id)
      ensures o == NotReady ==> gate(old(clock)).None? || !gate(old(clock)).value.verified
      ensures FaultFree(n) && OwnerIdle(n) && SymbolicRef(old(w)).Some? && SymbolicRef(old(w)).value in old(w).refs ==>
                FirstOutcome(gate(old(clock)), old(w), base, o)
    {
      var result := LatestFreshResult();
      if !result.Ok? {
        return GaveUp(result);
      }
      if result.value.None? || !result.value.value.verified {
        return NotReady;
      }
      o := IntegrateCandidate(task, id, base, result.value.value.id, result.value.value.finalRevision, n);
    }

    /** The same once the gate has answered with a verified result. */
    method IntegrateCandidate(task: string, id: AttemptId, base: Commit, result: string, candidate: Commit, ghost n: nat)
      returns (o: Outcome)
      requires Good() && up && n <= clock && id !in w.attempts
      modifies this
      ensures o == Crashed <==> !up
      ensures Good() && AddedAtMost(id, task, base) && PublishedFresh(id)
      ensures o != NotReady && (o == HeadDrift ==> w.attempts == old(w.attempts) && w.refs == old(w.refs))
      ensures o == Done ==>
                id in w.attempts && w.attempts[id].status == Complete && w.Reached(w.attempts[id].ref, w.attempts[id].candidate)
      ensures && Smooth(n, result, candidate) && Descends(candidate, base) && Clean(old(w))
              && SymbolicRef(old(w)).Some? && old(w).RefIs(SymbolicRef(old(w)).value, base)
              ==> o == Done && w.attempts[id].candidate == candidate
      ensures FaultFree(n) && OwnerIdle(n) && SymbolicRef(old(w)).Some? && SymbolicRef(old(w)).value in old(w).refs ==>
                FirstOutcome(Some(TaskResult(result, true, candidate)), old(w), base, o)
    {
      var workspace := OtherStoreCall();
      if !workspace.Ok? {
        return GaveUp(workspace);
      }
      var project := GetProject();
      if !project.Ok? {
        return GaveUp(project);
      }
      var refused, ref := CheckCandidate(base, candidate, n);
      if refused.Some? {
        return refused.value;
      }
      o := PrepareAndDrive(task, id, result, ref, base, candidate, n);
    }

    /** What becomes of a first integration when nothing fails and the Owner keeps still, by the answer of the gate. */
    predicate FirstOutcome(answer: Option<TaskResult>, w: World, base: Commit, o: Outcome)
      requires SymbolicRef(w).Some? && SymbolicRef(w).value in w.refs
    {
      if answer.None? || !answer.value.verified then o == NotReady
      else if w.refs[SymbolicRef(w).value] != base then o == HeadDrift
      else if answer.value.finalRevision == base || (Clean(w) && Descends(answer.value.finalRevision, base)) then
        o in {Done, IsBlocked, SyncRequired}
      else o == IsBlocked
    }

    /** A branch moves only on evidence for the attempt that was fresh meanwhile. */
    twostate predicate PublishedFresh(id: AttemptId)
      reads this
    {
      w.refs != old(w.refs) ==>
        id in w.attempts && SeenFresh(old(clock), clock, w.attempts[id].result, w.attempts[id].candidate)
    }

    /** A new attempt is bound to the head that was seen and to a candidate that descends from it. */
    twostate predicate AddedAtMost(id: AttemptId, task: string, base: Commit)
      reads this
    {
      && w.attempts - {id} == old(w.attempts) - {id}
      && (id in w.attempts ==>
            var a := w.attempts[id];
            a.task == task && a.expected == base && AtOrAfter(a.candidate, base) && old(w).RefIs(a.ref, base))
    }

    /** Integrate. `latest` is its task's newest attempt, which is driven instead of preparing another. */
    method Integrate(task: string, latest: Option<AttemptId>, id: AttemptId, base: Commit, ghost n: nat) returns (o: Outcome)
      requires Good() && up && n <= clock && id !in w.attempts
      requires latest.Some? ==> latest.value in w.attempts && w.attempts[latest.value].task == task
      modifies this
      ensures o == Crashed <==> !up
      ensures Good()
      ensures if latest.Some? then OnlyStatusOf(latest.value) else AddedAtMost(id, task, base)
      ensures PublishedFresh(if latest.Some? then latest.value else id)
      ensures o == Done ==>
                var done := if latest.Some? then latest.value else id;
                done in w.attempts && w.attempts[done].status == Complete && w.Reached(w.attempts[done].ref, w.attempts[done].candidate)
      ensures latest.Some? ==> AsDeserved(latest.value, n, o)
      ensures latest.None? && FaultFree(n) && OwnerIdle(n) && SymbolicRef(old(w)).Some? && SymbolicRef(old(w)).value in old(w).refs ==>
                FirstOutcome(gate(old(clock) + 2), old(w), base, o)
      ensures forall result: string, candidate: Commit {:trigger Smooth(n, result, candidate)} ::
                && latest.None? && Smooth(n, result, candidate) && Descends(candidate, base) && Clean(old(w))
                && SymbolicRef(old(w)).Some? && old(w).RefIs(SymbolicRef(old(w)).value, base)
                ==> o == Done && w.attempts[id].candidate == candidate
    {
      var read := OtherStoreCall();
      if !read.Ok? {
        return GaveUp(read);
      }
      read := OtherStoreCall();
      if !read.Ok? {
        return GaveUp(read);
      }
      if latest.None? {
        o := IntegrateFirst(task, id, base, n);
      } else if w.attempts[latest.value].Live() {
        ghost var probe;
        o, probe := DriveAttempt(latest.value, n);
      } else {
        o := ReportSettled(latest.value);
      }
    }

    /** The checks before a blocked verified result is tried again; nothing is stored for a refusal here. */
    method CheckRetry(base: Commit, candidate: Commit, ghost n: nat) returns (refused: Option<Outcome>, ref: Ref)
      requires Good() && up && n <= clock
      modifies this
      ensures refused == Some(Crashed) <==> !up
      ensures Continues() && w == old(w).(checkout := w.checkout)
      ensures refused.None? ==> w.RefIs(ref, base) && AtOrAfter(candidate, base)
      ensures refused.Some? ==> refused.value in {HeadDrift, IsBlocked, Failed, Crashed}
      ensures OwnerIdle(n) ==> w == old(w)
      ensures OwnerIdle(n) && FaultFree(n) && SymbolicRef(w).Some? && SymbolicRef(w).value in w.refs ==>
                && ref == SymbolicRef(w).value
                && refused == if w.refs[ref] != base then Some(HeadDrift)
                              else if candidate == base || (Clean(w) && Descends(candidate, base)) then None
                              else Some(IsBlocked)
    {
      var expected := SymbolicHead();
      if !expected.Ok? {
        return Some(GaveUp(expected)), "";
      }
      ref := expected.value;
      var head := RefHead(ref);
      if !head.Ok? {
        return Some(GaveUp(head)), ref;
      }
      if head.value != base {
        return Some(HeadDrift), ref;
      }
      if candidate == base {
        return None, ref;
      }
      var clean := ProjectClean();
      if !clean.Ok? {
        return Some(GaveUp(clean)), ref;
      }
      if !clean.value {
        return Some(IsBlocked), ref;
      }
      var ancestor := IsAncestor(base, candidate);
      return if ancestor.Ok? then None else Some(if ancestor.Dead? then Crashed else IsBlocked), ref;
    }

    /** AcknowledgeBlockedVerifiedIntegrationRetry: the Owner's control is consumed, and the cause reported. */
    method Acknowledge(cause: Outcome) returns (o: Outcome)
      requires Good() && (cause == Crashed <==> !up)
      modifies this
      ensures o == Crashed <==> !up
      ensures Continues() && w == old(w).(checkout := w.checkout) && o in {cause, Crashed}
      ensures cause != Crashed ==> clock == old(clock) + 1 && (o == cause <==> !fate(old(clock)).Dies?)
    {
      if cause == Crashed {
        return Crashed;
      }
      var stored := OtherStoreCall();
      return if stored.Dead? then Crashed else cause;
    }

    /**
     * RetryBlockedVerifiedIntegration: the sealed candidate of a blocked task is integrated again,
     * without another worker, if everything it was verified against still holds. `latest` is the
     * task's latest result, `eligible` says that it is verified with a blocked integration,
     * `workspaceMatches` that the workspace is still the one it was verified in.
     */
    method RetryBlockedVerifiedIntegration(task: string, latest: TaskResult, eligible: bool, workspaceMatches: bool,
                                           id: AttemptId, base: Commit, ghost n: nat)
      returns (handled: bool, o: Outcome)
      requires Good() && up && n <= clock && id !in w.attempts
      modifies this
      ensures o == Crashed <==> !up
      ensures Good() && AddedAtMost(id, task, base)
      ensures !handled || !eligible || !workspaceMatches || o in {HeadDrift, NotReady} ==>
                w.attempts == old(w.attempts) && w.refs == old(w.refs)
      ensures o == Done && handled ==>
                && id in w.attempts && w.attempts[id].status == Complete && w.Reached(w.attempts[id].ref, w.attempts[id].candidate)
      ensures Smooth(n, latest.id, latest.finalRevision) && latest.verified && eligible && workspaceMatches
              && SymbolicRef(old(w)).Some? && old(w).RefIs(SymbolicRef(old(w)).value, base)
              && (latest.finalRevision == base || (Clean(old(w)) && Descends(latest.finalRevision, base)))
              ==> handled && o == Done && w.attempts[id].candidate == latest.finalRevision
      ensures PublishedFresh(id)
      ensures handled <==> eligible && fate(old(clock)).Succeeds? && fate(old(clock) + 1).Succeeds?
      ensures eligible && Stale(n, latest.id, latest.finalRevision) && latest.verified ==>
                handled && o == NotReady && w.attempts == old(w.attempts) && w.refs == old(w.refs)
    {
      var read := OtherStoreCall();
      if !read.Ok? {
        return false, GaveUp(read);
      }
      read := LatestTaskResult();
      if !read.Ok? {
        return false, GaveUp(read);
      }
      if !eligible {
        return false, NotReady;
      }
      handled := true;
      var refused := RetryEvidence(latest, workspaceMatches, n);
      if refused.Some? {
        o := Acknowledge(refused.value);
        return;
      }
      o := RetryCandidate(task, latest, id, base, n);
    }

    /** The same once the evidence has been found to hold. */
    method RetryCandidate(task: string, latest: TaskResult, id: AttemptId, base: Commit, ghost n: nat) returns (o: Outcome)
      requires Good() && up && n <= clock && id !in w.attempts
      modifies this
      ensures o == Crashed <==> !up
      ensures Good() && AddedAtMost(id, task, base) && PublishedFresh(id)
      ensures o in {HeadDrift, NotReady} ==> w.attempts == old(w.attempts) && w.refs == old(w.refs)
      ensures o == Done ==>
                && id in w.attempts && w.attempts[id].status == Complete && w.Reached(w.attempts[id].ref, w.attempts[id].candidate)
      ensures && Smooth(n, latest.id, latest.finalRevision)
              && SymbolicRef(old(w)).Some? && old(w).RefIs(SymbolicRef(old(w)).value, base)
              && (latest.finalRevision == base || (Clean(old(w)) && Descends(latest.finalRevision, base)))
              ==> o == Done && w.attempts[id].candidate == latest.finalRevision
      ensures FaultFree(n) && OwnerIdle(n) && SymbolicRef(old(w)).Some? && SymbolicRef(old(w)).value in old(w).refs ==>
                FirstOutcome(Some(latest.(verified := true)), old(w), base, o)
    {
      var refused, ref := CheckRetry(base, latest.finalRevision, n);
      if refused.Some? {
        o := Acknowledge(refused.value);
        return;
      }
      o := PrepareAndDrive(task, id, latest.id, ref, base, latest.finalRevision, n);
    }

    /** The evidence must still be fresh and the same, and the workspace the one it was made in. */
    method RetryEvidence(latest: TaskResult, workspaceMatches: bool, ghost n: nat) returns (refused: Option<Outcome>)
      requires Good() && up && n <= clock
      modifies this
      ensures refused == Some(Crashed) <==> !up
      ensures Continues() && w == old(w).(checkout := w.checkout)
      ensures refused.Some? ==> refused.value in {NotReady, Failed, Crashed}
      ensures !workspaceMatches ==> refused.Some?
      ensures OwnerIdle(n) ==> w == old(w)
      ensures Smooth(n, latest.id, latest.finalRevision) && latest.verified && workspaceMatches ==> refused.None?
      ensures Stale(n, latest.id, latest.finalRevision) && latest.verified ==> refused == Some(NotReady)
    {
      var answer := LatestFreshResult();
      if answer.Dead? {
        return Some(Crashed);
      }
      if answer.Err? || answer.value != Some(latest) {
        return Some(NotReady);
      }
      var workspace := OtherStoreCall();
      if !workspace.Ok? {
        return Some(GaveUp(workspace));
      }
      if !workspaceMatches {
        return Some(NotReady);
      }
      var project := GetProject();
      return if project.Ok? then None else Some(GaveUp(project));
    }

    static predicate Settled(w: World, id: AttemptId) {
      id in w.attempts && (!w.attempts[id].Live() || w.Reached(w.attempts[id].ref, w.attempts[id].candidate))
    }

    /** RecoverPending stops at the first failure; otherwise every pending attempt is settled or only waits for a sync. */
    method RecoverPending(pending: seq<AttemptId>, ghost n: nat) returns (ok: bool)
      requires Good() && up && n <= clock && forall id | id in pending :: id in w.attempts
      modifies this
      ensures ok ==> up
      ensures Good() && w.attempts.Keys == old(w.attempts).Keys
      ensures ok ==> forall id | id in pending :: Settled(w, id)
      ensures FaultFree(n) && (forall id | id in pending :: old(w).attempts[id].ref in old(w).refs) ==> ok
    {
      for i := 0 to |pending|
        invariant Good() && up && n <= clock && w.attempts.Keys == old(w.attempts).Keys && old(w.refs).Keys <= w.refs.Keys
        invariant forall id | id in w.attempts :: w.attempts[id].ref == old(w).attempts[id].ref
        invariant forall id | id in pending[..i] :: Settled(w, id)
      {
        ghost var before := w;
        var o, _ := DriveAttempt(pending[i], n);
        DriveKeepsRefs(before);
        if o in {Failed, Crashed} {
          return false;
        }
        DriveKeepsAllSettled(before, pending[i], pending[..i]);
      }
      return true;
    }

    lemma DriveKeepsAllSettled(before: World, driven: AttemptId, ids: seq<AttemptId>)
      requires Good() && start == before && Sound(honest, before) && forall id | id in ids :: Settled(before, id)
      requires driven in before.attempts && driven in w.attempts
      requires w.attempts == before.WithStatus(driven, w.attempts[driven].status).attempts
      requires !before.attempts[driven].Live() ==> !w.attempts[driven].Live()
      ensures forall id | id in ids :: Settled(w, id)
    {
      forall id | id in ids ensures Settled(w, id) {
        DriveKeepsSettled(before, driven, id);
      }
    }

    lemma DriveKeepsSettled(before: World, driven: AttemptId, id: AttemptId)
      requires Good() && start == before && Sound(honest, before) && Settled(before, id)
      requires driven in before.attempts && driven in w.attempts
      requires w.attempts == before.WithStatus(driven, w.attempts[driven].status).attempts
      requires !before.attempts[driven].Live() ==> !w.attempts[driven].Live()
      ensures Settled(w, id)
    {
      var a := before.attempts[id];
      if before.Reached(a.ref, a.candidate) {
        DriveKeepsReached(before, a.ref, a.candidate);
      }
    }

    lemma DriveKeepsRefs(before: World)
      requires Good() && start == before && Sound(honest, before)
      ensures before.refs.Keys <= w.refs.Keys
    {
      forall r | r in before.refs ensures r in w.refs {
        DriveKeepsReached(before, r, before.refs[r]);
      }
    }

    lemma DriveKeepsReached(before: World, ref: Ref, c: Commit)
      requires Good() && start == before && Sound(honest, before) && before.Reached(ref, c)
      ensures w.Reached(ref, c)
    {
      var r := Run(run.steps[from..], run.worlds[from..]);
      SuffixIsARun(honest, run, from);
      BranchesNeverGoBack(honest, r, 0, |r.steps|, ref, c);
    }

    /** All or nothing, for the code: the only live attempt of the project is driven any number of times, by as many daemons. */
    method Redrive(id: AttemptId, times: nat, ghost n: nat)
      requires Good() && n <= clock && SoleLive(w, id) && Decided(w, id)
      modifies this
      ensures Good() && SoleLive(w, id) && Decided(w, id)
      ensures var a := w.attempts[id];
              && (a.status == Blocked ==> w.RefIs(a.ref, a.expected))
              && (a.status == Complete ==> w.RefIs(a.ref, a.candidate))
    {
      for i := 0 to times
        invariant Good() && n <= clock && SoleLive(w, id) && Decided(w, id)
      {
        Restart();
        ghost var before := w;
        var _, _ := DriveAttempt(id, n);
        DriveKeepsDecided(before, id);
      }
    }

    lemma DriveKeepsDecided(before: World, id: AttemptId)
      requires Good() && driving == id && start == before && Sound(honest, before)
      requires SoleLive(before, id) && Decided(before, id)
      ensures SoleLive(w, id) && Decided(w, id)
    {
      var r := Run(run.steps[from..], run.worlds[from..]);
      SuffixIsARun(honest, run, from);
      forall i | 0 <= i < |r.steps| ensures !r.steps[i].Prepares? {
        assert For(driving, run.steps[from + i]);
      }
      DecidedThroughout(honest, r, id, |r.steps|);
    }

    /** When an undisturbed synchronization succeeds. */
    predicate Syncable(w: World, id: AttemptId, advanced: bool)
      requires id in w.attempts
    {
      var a := w.attempts[id];
      || SymbolicRef(w) != Some(a.ref)
      || MatchesBase(w.checkout, a.expected.tree)
      || (!advanced && MatchesBase(w.checkout, a.candidate.tree))
    }
  }

  /**
   * A drive that finds the swap done and the registered root still on the branch with the old
   * files. When just the probe of the checked-out branch fails, it completes the attempt all the
   * same, and the old files stay.
   */
  method FailedProbeFinishesWithOldFiles(w: World, id: AttemptId) returns (h: Host, o: Outcome)
    requires Sound(true, w) && id in w.attempts && w.attempts[id].status == Dispatched
    requires var a := w.attempts[id];
             && w.RefIs(a.ref, a.candidate) && SymbolicRef(w) == Some(a.ref)
             && MatchesBase(w.checkout, a.expected.tree) && a.candidate.tree != a.expected.tree
    ensures o == Done && id in h.w.attempts && h.w.attempts[id].status == Complete
    ensures h.w.checkout == w.checkout && !MatchesBase(h.w.checkout, w.attempts[id].candidate.tree)
  {
    h := new Host(w, true, (k: nat) => if k == 3 then Fails(false) else Succeeds,
                  (k: nat) => (c: Checkout) => c, (k: nat) => {}, (k: nat) => None);
    forall k: nat ensures h.Idle(k) {
      assert h.owner(k) == (c: Checkout) => c;
    }
    assert h.OwnerIdle(0) && h.FaultFreeBut(0, 3);
    ghost var probe;
    o, probe := h.DriveAttempt(id, 0);
    MatchesBaseExactly(w.checkout, w.attempts[id].expected.tree);
    MatchesBaseExactly(w.checkout, w.attempts[id].candidate.tree);
  }
}
