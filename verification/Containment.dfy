/**
 * One live worker tree per task: contained launch, termination proofs and the gates they open.
 *
 * An attempt is a small machine whose steps are single operating-system or store calls; any
 * interleaving of the launcher, the tree's owner, recovery, the processes themselves and daemon
 * crashes is a run of it. Two facts about the operating system are built into the steps: closing
 * the last handle of a job kills every process in it, and a job's name is found exactly while a
 * handle is open.
 */
module Containment {

  datatype Authority = Active | LogicallyFenced | PhysicallyTerminated

  datatype Launch =
    | Begun       // the attempt row exists, nothing launched
    | Created     // the job exists
    | Started     // the root process is suspended, outside the job
    | Assigned
    | Marked
    | Resumed
    | Supervised  // a Tree exists
    | Confirmed   // the Tree's owner has seen zero active processes
    | Cleaning    // a launch step failed
    | Over        // no thread of the daemon will touch the launch again

  datatype Process = NotStarted | SuspendedOutside | SuspendedInside | Running | Dead

  datatype Attempt = Attempt(
    authority: Authority,
    launch: Launch,
    marker: bool,      // the durable ASSIGNED marker
    own: bool,         // the launcher's job handle is open
    recoverers: nat,   // job handles opened by RecoverTermination
    root: Process,
    children: nat,     // live descendants of the root; without breakaway they are in the job
    proof: bool)       // the daemon holds a valid TerminationProof
  {
    /** Processes that can change the workspace. */
    predicate Live() {
      root == Running || children > 0
    }

    /** The job's counter of active processes is zero. */
    predicate Quiet() {
      root != SuspendedInside && root != Running && children == 0
    }

    predicate JobFound() {
      own || recoverers > 0
    }

    function Killed(): Attempt {
      this.(root := if root == SuspendedInside || root == Running then Dead else root, children := 0)
    }

    /** KILL_ON_JOB_CLOSE. */
    function HandlesClosed(): Attempt {
      if JobFound() then this else Killed()
    }

    /** Every handle of the daemon closes, every thread and every proof in its memory is gone. */
    function Crashed(): Attempt {
      this.(launch := Over, own := false, recoverers := 0, proof := false).HandlesClosed()
    }
  }

  function NewAttempt(): Attempt {
    Attempt(Active, Begun, false, false, 0, NotStarted, 0, false)
  }

  datatype Call =
    // startContainedJob and Start
    | CreateJob(ok: bool)
    | StartSuspended(ok: bool, closed: bool)
    | AssignProcess(done: bool, ok: bool)
    | WriteMarker(written: bool, ok: bool)
    | ResumeProcess(done: bool, ok: bool)
    | CheckContained(ok: bool)
    | CleanTerminate
    | CleanKill
    | CleanClose(closed: bool)
    // Tree
    | TreeTerminate
    | TreeQuiet
    | TreeTimeout
    | TreeClose(ok: bool)
    | TreeCloseUnverified(closed: bool)
    // RecoverTermination
    | RecoverMissingJob
    | RecoverOpen
    | RecoverTerminate
    | RecoverQuiet
    | RecoverGiveUp
    // the processes
    | RootExits
    | ChildExits
    | Spawns
    // the store
    | Fence
    | Confirm
    // the daemon dies and is started again
    | Crash

  /** Whether the call can happen now; `rooted` says that a recovery root is configured. */
  predicate Can(rooted: bool, x: Attempt, c: Call) {
    match c
    case CreateJob(_) => x.launch == Begun
    case StartSuspended(_, _) => x.launch == Created
    case AssignProcess(done, ok) => x.launch == Started && (ok ==> done) && (done ==> x.root == SuspendedOutside)
    case WriteMarker(written, ok) => x.launch == Assigned && (ok && rooted ==> written) && (written ==> rooted)
    case ResumeProcess(done, ok) => x.launch == Marked && (ok && x.root == SuspendedInside ==> done)
    case CheckContained(_) => x.launch == Resumed
    case CleanTerminate => x.launch == Cleaning
    case CleanKill => x.launch == Cleaning && x.root != NotStarted
    case CleanClose(_) => x.launch == Cleaning
    case TreeTerminate => x.launch == Supervised
    case TreeQuiet => x.launch == Supervised && x.Quiet()
    case TreeTimeout => x.launch == Confirmed
    case TreeClose(_) => x.launch == Confirmed
    case TreeCloseUnverified(_) => x.launch == Supervised
    case RecoverMissingJob => rooted && x.marker && !x.JobFound()
    case RecoverOpen => rooted && x.marker && x.JobFound()
    case RecoverTerminate => x.recoverers > 0
    case RecoverQuiet => x.recoverers > 0 && x.Quiet()
    case RecoverGiveUp => x.recoverers > 0
    case RootExits => x.root != NotStarted && x.root != Dead
    case ChildExits => x.children > 0
    case Spawns => x.Live()
    case Fence => x.authority == Active
    case Confirm => x.proof && x.authority != PhysicallyTerminated
    case Crash => true
  }

  function Do(x: Attempt, c: Call): Attempt {
    match c
    case CreateJob(ok) => if ok then x.(launch := Created, own := true) else x.(launch := Over)
    case StartSuspended(ok, closed) =>
      if ok then x.(launch := Started, root := SuspendedOutside) else x.(launch := Over, own := !closed).HandlesClosed()
    case AssignProcess(done, ok) =>
      x.(launch := if ok then Assigned else Cleaning, root := if done then SuspendedInside else x.root)
    case WriteMarker(written, ok) => x.(launch := if ok then Marked else Cleaning, marker := x.marker || written)
    case ResumeProcess(done, ok) =>
      x.(launch := if ok then Resumed else Cleaning, root := if done && x.root == SuspendedInside then Running else x.root)
    case CheckContained(ok) => x.(launch := if ok then Supervised else Cleaning)
    case CleanTerminate => x.Killed()
    case CleanKill => x.(root := Dead)
    case CleanClose(closed) => x.(launch := Over, own := !closed).HandlesClosed()
    case TreeTerminate => x.Killed()
    case TreeQuiet => x.(launch := Confirmed)
    case TreeTimeout => x.(launch := Supervised)
    case TreeClose(ok) => if ok then x.(launch := Over, own := false, proof := true).HandlesClosed() else x.(launch := Supervised)
    case TreeCloseUnverified(closed) => x.(launch := Over, own := !closed).HandlesClosed()
    case RecoverMissingJob => x.(proof := true)
    case RecoverOpen => x.(recoverers := x.recoverers + 1)
    case RecoverTerminate => x.Killed()
    case RecoverQuiet => x.(proof := true, recoverers := if x.recoverers > 0 then x.recoverers - 1 else 0).HandlesClosed()
    case RecoverGiveUp => x.(recoverers := if x.recoverers > 0 then x.recoverers - 1 else 0).HandlesClosed()
    case RootExits => x.(root := Dead)
    case ChildExits => x.(children := if x.children > 0 then x.children - 1 else 0)
    case Spawns => x.(children := x.children + 1)
    case Fence => x.(authority := LogicallyFenced)
    case Confirm => x.(authority := PhysicallyTerminated)
    case Crash => x.Crashed()
  }

  /** The calls are possible one after the other, and lead from `x` to `y`. */
  predicate Runs(rooted: bool, x: Attempt, cs: seq<Call>, y: Attempt)
    decreases cs
  {
    if cs == [] then x == y
    else Can(rooted, x, cs[0]) && Runs(rooted, Do(x, cs[0]), cs[1..], y)
  }

  lemma {:induction false} RunsExtend(rooted: bool, x: Attempt, cs: seq<Call>, y: Attempt, c: Call)
    requires Runs(rooted, x, cs, y) && Can(rooted, y, c)
    ensures Runs(rooted, x, cs + [c], Do(y, c))
    decreases cs
  {
    if cs == [] {
      assert (cs + [c])[1..] == [];
    } else {
      RunsExtend(rooted, Do(x, cs[0]), cs[1..], y, c);
      assert (cs + [c])[0] == cs[0] && (cs + [c])[1..] == cs[1..] + [c];
    }
  }

  // ----- What every call keeps -----

  ghost predicate Sane(x: Attempt) {
    Launching(x) && MarkedOnlyInside(x) && Killable(x) && ProvedOnlyEnded(x)
  }

  ghost predicate Launching(x: Attempt) {
    && (x.launch == Begun || x.launch == Created ==> x.root == NotStarted)
    && (x.launch != Begun && x.launch != Over ==> x.own)
  }

  ghost predicate MarkedOnlyInside(x: Attempt) {
    && (PastAssign(x.launch) || x.marker || x.recoverers > 0 ==> Contained(x))
    && (x.launch == Begun || x.launch == Created || x.launch == Started || x.launch == Assigned ==> !x.marker)
    && (x.root == NotStarted || x.root == SuspendedOutside ==> x.children == 0)
  }

  ghost predicate Killable(x: Attempt) {
    !x.Quiet() ==> x.JobFound()
  }

  ghost predicate ProvedOnlyEnded(x: Attempt) {
    x.launch == Confirmed || x.proof || x.authority == PhysicallyTerminated ==> Ended(x)
  }

  predicate PastAssign(l: Launch) {
    l == Assigned || PastMarker(l)
  }

  predicate PastMarker(l: Launch) {
    l == Marked || l == Resumed || l == Supervised || l == Confirmed
  }

  /** The root process has entered the job. */
  predicate Contained(x: Attempt) {
    x.root != NotStarted && x.root != SuspendedOutside
  }

  /** No process of the attempt is left, running or suspended. */
  predicate Ended(x: Attempt) {
    x.root == Dead && x.children == 0
  }

  lemma LaunchingIsKept(rooted: bool, x: Attempt, c: Call)
    requires Launching(x) && Can(rooted, x, c)
    ensures Launching(Do(x, c))
  {}

  lemma MarkedOnlyInsideIsKept(rooted: bool, x: Attempt, c: Call)
    requires Launching(x) && MarkedOnlyInside(x) && Can(rooted, x, c)
    ensures MarkedOnlyInside(Do(x, c))
  {}

  lemma KillableIsKept(rooted: bool, x: Attempt, c: Call)
    requires Launching(x) && Killable(x) && Can(rooted, x, c)
    ensures Killable(Do(x, c))
  {}

  lemma ProvedOnlyEndedIsKept(rooted: bool, x: Attempt, c: Call)
    requires Sane(x) && Can(rooted, x, c)
    ensures ProvedOnlyEnded(Do(x, c))
  {}

  lemma SaneIsKept(rooted: bool, x: Attempt, c: Call)
    requires Sane(x) && Can(rooted, x, c)
    ensures Sane(Do(x, c))
  {
    LaunchingIsKept(rooted, x, c);
    MarkedOnlyInsideIsKept(rooted, x, c);
    KillableIsKept(rooted, x, c);
    ProvedOnlyEndedIsKept(rooted, x, c);
  }

  lemma {:induction false} SaneAlways(rooted: bool, x: Attempt, cs: seq<Call>, y: Attempt)
    requires Sane(x) && Runs(rooted, x, cs, y)
    ensures Sane(y)
    decreases cs
  {
    if cs != [] {
      SaneIsKept(rooted, x, cs[0]);
      SaneAlways(rooted, Do(x, cs[0]), cs[1..], y);
    }
  }

  lemma EndedIsKept(rooted: bool, x: Attempt, c: Call)
    requires Sane(x) && Ended(x) && Can(rooted, x, c)
    ensures Ended(Do(x, c))
  {}

  lemma {:induction false} EndedForGood(rooted: bool, x: Attempt, cs: seq<Call>, y: Attempt)
    requires Sane(x) && Ended(x) && Runs(rooted, x, cs, y)
    ensures Ended(y)
    decreases cs
  {
    if cs != [] {
      SaneIsKept(rooted, x, cs[0]);
      EndedIsKept(rooted, x, cs[0]);
      EndedForGood(rooted, Do(x, cs[0]), cs[1..], y);
    }
  }

  /** A valid proof, or a confirmed attempt, means that no process is alive then or at any later time. */
  lemma ProofIsFinal(rooted: bool, before: seq<Call>, x: Attempt, after: seq<Call>, y: Attempt)
    requires Runs(rooted, NewAttempt(), before, x) && Runs(rooted, x, after, y)
    requires x.proof || x.authority == PhysicallyTerminated
    ensures Ended(x) && Ended(y) && !y.Live()
  {
    SaneAlways(rooted, NewAttempt(), before, x);
    EndedForGood(rooted, x, after, y);
  }

  /** A worker never runs outside a job that somebody can still kill, and never before its marker is durable. */
  lemma LiveIsContained(cs: seq<Call>, x: Attempt)
    requires Runs(true, NewAttempt(), cs, x) && x.Live()
    ensures x.JobFound() && x.marker
  {
    SaneAlways(true, NewAttempt(), cs, x);
    MarkerComesFirst(NewAttempt(), cs, x);
  }

  ghost predicate MarkedOrHeldBack(x: Attempt) {
    x.marker || (!x.Live() && !PastMarker(x.launch))
  }

  lemma MarkerComesFirstStep(x: Attempt, c: Call)
    requires MarkedOrHeldBack(x) && Can(true, x, c)
    ensures MarkedOrHeldBack(Do(x, c))
  {}

  lemma {:induction false} MarkerComesFirst(x: Attempt, cs: seq<Call>, y: Attempt)
    requires MarkedOrHeldBack(x) && Runs(true, x, cs, y)
    ensures MarkedOrHeldBack(y)
    decreases cs
  {
    if cs != [] {
      MarkerComesFirstStep(x, cs[0]);
      MarkerComesFirst(Do(x, cs[0]), cs[1..], y);
    }
  }

  /** The job's counter alone would not do: it reads zero while the launcher is still on its way to a live worker. */
  lemma QuietJobIsNoProof()
    ensures exists before, x, after, y ::
              && Runs(true, NewAttempt(), before, x) && x.JobFound() && x.Quiet() && !x.marker
              && Runs(true, x, after, y) && y.Live()
  {
    var x0 := NewAttempt();
    var x1 := Do(x0, CreateJob(true));
    var x2 := Do(x1, StartSuspended(true, false));
    var x3 := Do(x2, AssignProcess(true, true));
    var x4 := Do(x3, WriteMarker(true, true));
    var x5 := Do(x4, ResumeProcess(true, true));
    assert Runs(true, x1, [], x1) && Runs(true, x5, [], x5);
    RunsExtend(true, x0, [], x0, CreateJob(true));
    RunsExtend(true, x1, [], x1, StartSuspended(true, false));
    RunsExtend(true, x1, [] + [StartSuspended(true, false)], x2, AssignProcess(true, true));
    RunsExtend(true, x1, [] + [StartSuspended(true, false)] + [AssignProcess(true, true)], x3, WriteMarker(true, true));
    RunsExtend(true, x1, [] + [StartSuspended(true, false)] + [AssignProcess(true, true)] + [WriteMarker(true, true)],
               x4, ResumeProcess(true, true));
  }

  // ----- When a lost launch can still be settled -----

  ghost predicate CanBeConfirmed(rooted: bool, x: Attempt) {
    exists cs, y :: Runs(rooted, x, cs, y) && y.authority == PhysicallyTerminated
  }

  ghost predicate Unprovable(x: Attempt) {
    x.launch == Over && !x.marker && !x.proof && x.recoverers == 0 && x.authority != PhysicallyTerminated
  }

  lemma {:induction false} UnprovableForGood(rooted: bool, x: Attempt, cs: seq<Call>, y: Attempt)
    requires Unprovable(x) && Runs(rooted, x, cs, y)
    ensures Unprovable(y)
    decreases cs
  {
    if cs != [] {
      UnprovableForGood(rooted, Do(x, cs[0]), cs[1..], y);
    }
  }

  ghost predicate RecoversByMarker(rooted: bool, x: Attempt) {
    (x.marker ==> rooted) && (x.recoverers > 0 ==> x.marker)
  }

  lemma RecoversByMarkerStep(rooted: bool, x: Attempt, c: Call)
    requires RecoversByMarker(rooted, x) && Can(rooted, x, c)
    ensures RecoversByMarker(rooted, Do(x, c))
  {}

  lemma {:induction false} RecoversByMarkerAlways(rooted: bool, x: Attempt, cs: seq<Call>, y: Attempt)
    requires RecoversByMarker(rooted, x) && Runs(rooted, x, cs, y)
    ensures RecoversByMarker(rooted, y)
    decreases cs
  {
    if cs != [] {
      RecoversByMarkerStep(rooted, x, cs[0]);
      RecoversByMarkerAlways(rooted, Do(x, cs[0]), cs[1..], y);
    }
  }

  lemma Settles(x: Attempt)
    requires x.marker && x.authority != PhysicallyTerminated
    ensures CanBeConfirmed(true, x)
  {
    var x1 := Do(x, Crash);
    var x2 := Do(x1, RecoverMissingJob);
    var x3 := Do(x2, Confirm);
    assert Runs(true, x2, [Confirm], x3);
    assert [RecoverMissingJob, Confirm][1..] == [Confirm];
    assert Runs(true, x1, [RecoverMissingJob, Confirm], x3);
    assert [Crash, RecoverMissingJob, Confirm][1..] == [RecoverMissingJob, Confirm];
    assert Runs(true, x, [Crash, RecoverMissingJob, Confirm], x3);
  }

  /**
   * Recovery is fail-closed, and never more than that: once the launching thread is gone, the
   * attempt can ever be confirmed exactly when it is confirmed, proved or durably marked.
   */
  lemma LostLaunchSettlesIffMarked(rooted: bool, before: seq<Call>, x: Attempt)
    requires Runs(rooted, NewAttempt(), before, x) && x.launch == Over
    ensures CanBeConfirmed(rooted, x) <==> x.authority == PhysicallyTerminated || x.proof || x.marker
  {
    RecoversByMarkerAlways(rooted, NewAttempt(), before, x);
    if x.authority == PhysicallyTerminated {
      assert Runs(rooted, x, [], x);
    } else if x.proof {
      assert Runs(rooted, x, [Confirm], Do(x, Confirm));
    } else if x.marker {
      Settles(x);
    } else {
      forall cs, y | Runs(rooted, x, cs, y) ensures y.authority != PhysicallyTerminated {
        UnprovableForGood(rooted, x, cs, y);
      }
    }
  }

  // ----- All attempts of all tasks -----

  type Task = string

  datatype System = System(
    ready: set<Task>,          // tasks in WORKSPACE_READY
    attempts: seq<Attempt>,
    tasks: seq<Task>)          // each attempt's task

  datatype Step =
    | MakeReady(task: Task)    // RecoverTaskToWorkspaceReady, or the first preparation of a workspace
    | BeginAttempt(task: Task)
    | On(attempt: nat, call: Call)
    | DaemonCrash

  predicate AllTerminated(s: System, t: Task)
    requires |s.tasks| == |s.attempts|
  {
    forall i | 0 <= i < |s.attempts| && s.tasks[i] == t :: s.attempts[i].authority == PhysicallyTerminated
  }

  predicate Enabled(rooted: bool, s: System, e: Step)
    requires |s.tasks| == |s.attempts|
  {
    match e
    case MakeReady(t) => AllTerminated(s, t)
    case BeginAttempt(t) => t in s.ready && AllTerminated(s, t)
    case On(i, c) => i < |s.attempts| && !c.Crash? && Can(rooted, s.attempts[i], c)
    case DaemonCrash => true
  }

  function Next(s: System, e: Step): (r: System)
    requires |s.tasks| == |s.attempts|
    ensures |r.tasks| == |r.attempts|
  {
    match e
    case MakeReady(t) => s.(ready := s.ready + {t})
    case BeginAttempt(t) => s.(ready := s.ready - {t}, attempts := s.attempts + [NewAttempt()], tasks := s.tasks + [t])
    case On(i, c) => if i < |s.attempts| then s.(attempts := s.attempts[i := Do(s.attempts[i], c)]) else s
    case DaemonCrash => s.(attempts := seq(|s.attempts|, i requires 0 <= i < |s.attempts| => s.attempts[i].Crashed()))
  }

  predicate SystemRuns(rooted: bool, s: System, es: seq<Step>, s': System)
    requires |s.tasks| == |s.attempts|
    decreases |es|
  {
    if es == [] then s == s'
    else Enabled(rooted, s, es[0]) && SystemRuns(rooted, Next(s, es[0]), es[1..], s')
  }

  /** The process of every earlier attempt of the task is confirmed to be gone. */
  ghost predicate NoneLeft(s: System, t: Task)
    requires |s.tasks| == |s.attempts|
  {
    forall i | 0 <= i < |s.tasks| && s.tasks[i] == t :: s.attempts[i].authority == PhysicallyTerminated
  }

  /**
   * The gates open exactly when nothing is left: then a task can be made ready and an attempt
   * begun, which is one more attempt and nothing else, and uses the readiness up.
   */
  lemma ReplacementGetsThroughIff(rooted: bool, s: System, t: Task)
    requires |s.tasks| == |s.attempts|
    ensures Enabled(rooted, s, MakeReady(t)) <==> NoneLeft(s, t)
    ensures Enabled(rooted, s, BeginAttempt(t)) <==> t in s.ready && NoneLeft(s, t)
    ensures NoneLeft(s, t) ==>
              var ready := Next(s, MakeReady(t));
              && ready == s.(ready := s.ready + {t}) && Enabled(rooted, ready, BeginAttempt(t))
              && var begun := Next(ready, BeginAttempt(t));
              && begun.attempts == s.attempts + [NewAttempt()] && begun.tasks == s.tasks + [t] && t !in begun.ready
              && !Enabled(rooted, begun, MakeReady(t)) && !Enabled(rooted, begun, BeginAttempt(t))
  {
    var begun := Next(Next(s, MakeReady(t)), BeginAttempt(t));
    assert begun.tasks[|s.tasks|] == t && begun.attempts[|s.attempts|] == NewAttempt();
  }

  /** Every attempt is sane, and all but the latest attempt of a task are terminated. */
  ghost predicate Fenced(s: System) {
    && |s.tasks| == |s.attempts|
    && (forall i | 0 <= i < |s.attempts| :: Sane(s.attempts[i]))
    && (forall i, j | 0 <= i < j < |s.attempts| && s.tasks[i] == s.tasks[j] :: s.attempts[i].authority == PhysicallyTerminated)
  }

  lemma TerminationIsKept(rooted: bool, x: Attempt, c: Call)
    requires Can(rooted, x, c) && x.authority == PhysicallyTerminated
    ensures Do(x, c).authority == PhysicallyTerminated
  {}

  lemma FencedIsKept(rooted: bool, s: System, e: Step)
    requires Fenced(s) && Enabled(rooted, s, e)
    ensures Fenced(Next(s, e))
  {
    match e
    case On(i, c) =>
      SaneIsKept(rooted, s.attempts[i], c);
      if s.attempts[i].authority == PhysicallyTerminated {
        TerminationIsKept(rooted, s.attempts[i], c);
      }
    case DaemonCrash =>
      forall i | 0 <= i < |s.attempts| ensures Sane(s.attempts[i].Crashed()) {
        SaneIsKept(rooted, s.attempts[i], Crash);
      }
    case _ =>
  }

  lemma {:induction false} FencedAlways(rooted: bool, s: System, es: seq<Step>, s': System)
    requires Fenced(s) && SystemRuns(rooted, s, es, s')
    ensures Fenced(s')
    decreases |es|
  {
    if es != [] {
      FencedIsKept(rooted, s, es[0]);
      FencedAlways(rooted, Next(s, es[0]), es[1..], s');
    }
  }

  /**
   * Over every run, with any crashes, retries and replacements: whatever processes a task has
   * belong to its latest attempt; of an earlier one nothing is left, running or suspended.
   */
  lemma SingleLiveWriter(rooted: bool, es: seq<Step>, s: System, i: nat, j: nat)
    requires SystemRuns(rooted, System({}, [], []), es, s) && |s.tasks| == |s.attempts|
    requires i < j < |s.attempts| && s.tasks[i] == s.tasks[j]
    ensures Ended(s.attempts[i]) && !s.attempts[i].Live()
  {
    FencedAlways(rooted, System({}, [], []), es, s);
    assert Sane(s.attempts[i]);
  }

  lemma AttemptStaysEnded(rooted: bool, s: System, e: Step, i: nat)
    requires Fenced(s) && Enabled(rooted, s, e) && i < |s.attempts| && Ended(s.attempts[i])
    ensures i < |Next(s, e).attempts| && Ended(Next(s, e).attempts[i])
  {
    assert Sane(s.attempts[i]);
    if e.On? && e.attempt == i {
      EndedIsKept(rooted, s.attempts[i], e.call);
    }
  }

  lemma {:induction false} AttemptEndedForGood(rooted: bool, s: System, es: seq<Step>, s': System, i: nat)
    requires Fenced(s) && SystemRuns(rooted, s, es, s') && i < |s.attempts| && Ended(s.attempts[i])
    ensures |s'.tasks| == |s'.attempts| && i < |s'.attempts| && Ended(s'.attempts[i])
    decreases |es|
  {
    if es != [] {
      FencedIsKept(rooted, s, es[0]);
      AttemptStaysEnded(rooted, s, es[0], i);
      AttemptEndedForGood(rooted, Next(s, es[0]), es[1..], s', i);
    }
  }

  /** A replacement is only begun when no earlier attempt of its task will ever have a process again. */
  lemma ReplacementIsSafe(rooted: bool, es: seq<Step>, s: System, t: Task, more: seq<Step>, s': System, i: nat)
    requires SystemRuns(rooted, System({}, [], []), es, s) && |s.tasks| == |s.attempts|
    requires Enabled(rooted, s, BeginAttempt(t)) && i < |s.attempts| && s.tasks[i] == t
    requires SystemRuns(rooted, Next(s, BeginAttempt(t)), more, s')
    ensures |s'.tasks| == |s'.attempts| && i < |s'.attempts| && !s'.attempts[i].Live()
  {
    FencedAlways(rooted, System({}, [], []), es, s);
    assert Sane(s.attempts[i]);
    FencedIsKept(rooted, s, BeginAttempt(t));
    AttemptEndedForGood(rooted, Next(s, BeginAttempt(t)), more, s', i);
  }
}
