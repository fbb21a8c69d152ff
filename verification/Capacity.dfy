/**
 * Execution capacity of the daemon under every interleaving of launch, park, resume and removal.
 *
 * Each step is one critical section of the daemon's mutex or one call into the governor; between
 * two steps any other thread may run. A thread that is between two steps is in `threads`, with
 * the lease that only its stack holds.
 */
module Capacity {
  import opened FiniteSets
  import opened Options

  type Task = string
  type Thread = nat
  type LeaseId = nat

  /** An activeExecution; `uid` is the identity of the object that the map entry points to. */
  datatype Execution = Execution(uid: nat, lease: Option<LeaseId>, resuming: bool) {
    predicate Counts() {
      lease.Some? || resuming
    }
  }

  datatype Pc =
    | Launching(task: Task, lease: LeaseId)               // admitted by the governor, not yet in the active map
    | Dropping(task: Task, lease: LeaseId)                // about to release a lease nobody else can reach
    | Reacquiring(task: Task, uid: nat)                   // marked resuming, about to ask the governor
    | Reacquired(task: Task, uid: nat, got: Option<LeaseId>) // answered, about to look at the map again

  datatype System = System(
    max: nat,
    active: map<Task, Execution>,
    claims: map<Task, LeaseId>,  // the governor's claims "execution:<task>" and the lease each was granted to
    released: set<LeaseId>,      // leases whose Release has run
    threads: map<Thread, Pc>,
    next: nat)                   // bound of all uids and lease ids in use
  {
    function Capacity(): nat {
      |set t | t in active && active[t].Counts()|
    }

    function Parked(): nat {
      |set t | t in active && !active[t].Counts()|
    }
  }

  datatype Step =
    | Admit(thread: Thread, task: Task)
    | Launch(thread: Thread)
    | Release(thread: Thread)
    | Park(thread: Thread, task: Task)
    | ResumeBegin(thread: Thread, task: Task)
    | ResumeAsk(thread: Thread, granted: bool)
    | ResumeEnd(thread: Thread)
    | Remove(thread: Thread, task: Task)

  /** Whether the step can be taken now. */
  predicate Enabled(s: System, e: Step) {
    match e
    case Admit(th, t) => th !in s.threads && t !in s.claims
    case Launch(th) => th in s.threads && s.threads[th].Launching?
    case Release(th) => th in s.threads && s.threads[th].Dropping?
    case Park(th, t) =>
      && th !in s.threads && t in s.active && s.active[t].lease.Some? && !s.active[t].resuming && s.Parked() < s.max
    case ResumeBegin(th, t) =>
      && th !in s.threads && t in s.active && s.active[t].lease.None? && !s.active[t].resuming && s.Capacity() < s.max
    case ResumeAsk(th, granted) =>
      && th in s.threads && s.threads[th].Reacquiring? && (granted ==> s.threads[th].task !in s.claims)
    case ResumeEnd(th) => th in s.threads && s.threads[th].Reacquired?
    case Remove(th, t) => th !in s.threads && t in s.active
  }

  /** The entry that the thread marked resuming is still the one in the map. */
  predicate ComesBack(s: System, th: Thread)
    requires th in s.threads && s.threads[th].Reacquired?
  {
    var Reacquired(t, uid, _) := s.threads[th];
    t in s.active && s.active[t].uid == uid
  }

  function Next(s: System, e: Step): System
    requires Enabled(s, e)
  {
    match e
    case Admit(th, t) =>
      s.(claims := s.claims[t := s.next], threads := s.threads[th := Launching(t, s.next)], next := s.next + 1)
    case Launch(th) =>
      var Launching(t, l) := s.threads[th];
      if t in s.active || s.Capacity() >= s.max || |s.active| >= 2 * s.max then
        s.(threads := s.threads[th := Dropping(t, l)])
      else
        s.(active := s.active[t := Execution(s.next, Some(l), false)], threads := s.threads - {th}, next := s.next + 1)
    case Release(th) =>
      var Dropping(t, l) := s.threads[th];
      if l in s.released then s.(threads := s.threads - {th})
      else s.(claims := s.claims - {t}, released := s.released + {l}, threads := s.threads - {th})
    case Park(th, t) =>
      s.(active := s.active[t := s.active[t].(lease := None)], threads := s.threads[th := Dropping(t, s.active[t].lease.value)])
    case ResumeBegin(th, t) =>
      s.(active := s.active[t := s.active[t].(resuming := true)], threads := s.threads[th := Reacquiring(t, s.active[t].uid)])
    case ResumeAsk(th, granted) =>
      var Reacquiring(t, uid) := s.threads[th];
      if granted then
        s.(claims := s.claims[t := s.next], threads := s.threads[th := Reacquired(t, uid, Some(s.next))], next := s.next + 1)
      else
        s.(threads := s.threads[th := Reacquired(t, uid, None)])
    case ResumeEnd(th) =>
      var Reacquired(t, uid, got) := s.threads[th];
      if ComesBack(s, th) then
        s.(active := s.active[t := s.active[t].(resuming := false, lease := if got.Some? then got else s.active[t].lease)],
           threads := s.threads - {th})
      else if got.Some? then
        s.(threads := s.threads[th := Dropping(t, got.value)])
      else
        s.(threads := s.threads - {th})
    case Remove(th, t) =>
      if s.active[t].lease.Some? then
        s.(active := s.active - {t}, threads := s.threads[th := Dropping(t, s.active[t].lease.value)])
      else
        s.(active := s.active - {t})
  }

  function Initial(max: nat): System {
    System(max, map[], map[], {}, map[], 0)
  }

  /** A state together with how it was reached. */
  ghost predicate Reaches(max: nat, es: seq<Step>, s: System) {
    if es == [] then s == Initial(max)
    else
      var last := es[|es| - 1];
      exists s0 :: Reaches(max, es[..|es| - 1], s0) && Enabled(s0, last) && s == Next(s0, last)
  }

  // ----- Who owns a lease -----

  datatype Place = Entry(task: Task) | Stack(thread: Thread)

  /** The lease that a map entry or a thread's stack holds, with its task. */
  function Held(s: System, p: Place): Option<(Task, LeaseId)> {
    match p
    case Entry(t) => if t in s.active && s.active[t].lease.Some? then Some((t, s.active[t].lease.value)) else None
    case Stack(th) =>
      if th !in s.threads then None
      else match s.threads[th]
        case Launching(t, l) => Some((t, l))
        case Dropping(t, l) => Some((t, l))
        case Reacquiring(_, _) => None
        case Reacquired(t, _, got) => if got.Some? then Some((t, got.value)) else None
  }

  /** The lease is the unreleased one behind its task's claim. */
  predicate Backed(s: System, held: (Task, LeaseId)) {
    held.0 in s.claims && s.claims[held.0] == held.1 && held.1 !in s.released && held.1 < s.next
  }

  /** Every held lease is the unreleased one behind its task's claim, and no two places hold one claim's lease. */
  ghost predicate Owned(s: System) {
    && (forall p :: Held(s, p).Some? ==> Backed(s, Held(s, p).value))
    && (forall p, q :: Held(s, p).Some? && Held(s, q).Some? && Held(s, p).value.0 == Held(s, q).value.0 ==> p == q)
  }

  ghost predicate NoOrphan(s: System) {
    forall t | t in s.claims :: exists p :: Held(s, p) == Some((t, s.claims[t]))
  }

  function Resumer(s: System, th: Thread): Option<(Task, nat)> {
    if th !in s.threads then None
    else match s.threads[th]
      case Reacquiring(t, uid) => Some((t, uid))
      case Reacquired(t, uid, _) => Some((t, uid))
      case _ => None
  }

  /** Ids are never reused. */
  ghost predicate Tidy(s: System) {
    UidsBelow(s) && LeasesBelow(s) && ClaimsDiffer(s)
  }

  ghost predicate UidsBelow(s: System) {
    && (forall t | t in s.active :: s.active[t].uid < s.next)
    && (forall th :: Resumer(s, th).Some? ==> Resumer(s, th).value.1 < s.next)
  }

  ghost predicate LeasesBelow(s: System) {
    && (forall l | l in s.released :: l < s.next)
    && (forall t | t in s.claims :: s.claims[t] < s.next)
  }

  ghost predicate ClaimsDiffer(s: System) {
    forall t, u | t in s.claims && u in s.claims && s.claims[t] == s.claims[u] :: t == u
  }

  /** An execution that a thread is reacquiring for is marked resuming and holds no lease, and that thread is unique. */
  ghost predicate OneResumer(s: System) {
    ResumingHoldsNoLease(s) && ResumersAreMarked(s) && ResumersDiffer(s)
  }

  ghost predicate ResumingHoldsNoLease(s: System) {
    forall t | t in s.active :: s.active[t].resuming ==> s.active[t].lease.None?
  }

  ghost predicate ResumersAreMarked(s: System) {
    forall th, t :: t in s.active && Resumer(s, th) == Some((t, s.active[t].uid)) ==> s.active[t].resuming
  }

  ghost predicate ResumersDiffer(s: System) {
    forall th, th' :: Resumer(s, th).Some? && Resumer(s, th) == Resumer(s, th') ==> th == th'
  }

  ghost predicate Bounded(s: System) {
    s.Capacity() <= s.max && |s.active| <= 2 * s.max
  }

  /** Where a lease held after the step was before it: at the same place, at the place it moved from, or nowhere. */
  function Origin(s: System, e: Step, p: Place): Option<Place>
    requires Enabled(s, e)
  {
    match e
    case Admit(th, _) => if p == Stack(th) then None else Some(p)
    case Launch(th) => if p == Entry(s.threads[th].task) && s.threads[th].task !in s.active then Some(Stack(th)) else Some(p)
    case Park(th, t) => if p == Stack(th) then Some(Entry(t)) else Some(p)
    case ResumeAsk(th, _) => if p == Stack(th) then None else Some(p)
    case ResumeEnd(th) =>
      if p == Entry(s.threads[th].task) && ComesBack(s, th) && s.threads[th].got.Some? then Some(Stack(th)) else Some(p)
    case Remove(th, t) => if p == Stack(th) then Some(Entry(t)) else Some(p)
    case _ => Some(p)
  }

  /** `p` holds after the step what its origin held before it, or a lease that was just granted. */
  ghost predicate Moved(s: System, e: Step, p: Place)
    requires Enabled(s, e)
  {
    var held, o := Held(Next(s, e), p), Origin(s, e, p);
    held.Some? ==> if o.Some? then Held(s, o.value) == held else held.value.0 !in s.claims && held.value.1 == s.next
  }

  lemma EntryLeasesMove(s: System, e: Step, t: Task)
    requires Enabled(s, e)
    ensures Moved(s, e, Entry(t))
  {
    if e.ResumeEnd? {
      EntryLeaseComesBack(s, e, t);
    } else if e.Launch? {
      EntryLeaseIsLaunched(s, e, t);
    }
  }

  lemma EntryLeaseComesBack(s: System, e: Step, t: Task)
    requires Enabled(s, e) && e.ResumeEnd?
    ensures Moved(s, e, Entry(t))
  {}

  lemma EntryLeaseIsLaunched(s: System, e: Step, t: Task)
    requires Enabled(s, e) && e.Launch?
    ensures Moved(s, e, Entry(t))
  {}

  lemma StackLeasesMove(s: System, e: Step, th: Thread)
    requires Enabled(s, e)
    ensures Moved(s, e, Stack(th))
  {
    if e.ResumeEnd? {
    } else if e.thread == th {
    }
  }

  lemma LeasesMove(s: System, e: Step, p: Place)
    requires Enabled(s, e)
    ensures Moved(s, e, p)
  {
    if p.Entry? {
      EntryLeasesMove(s, e, p.task);
    } else {
      StackLeasesMove(s, e, p.thread);
    }
  }

  lemma BackedIsKept(s: System, e: Step, held: (Task, LeaseId))
    requires Enabled(s, e) && Tidy(s) && Backed(s, held)
    requires e.Release? ==> Backed(s, (s.threads[e.thread].task, s.threads[e.thread].lease))
    requires e.Release? ==> held != (s.threads[e.thread].task, s.threads[e.thread].lease)
    ensures Backed(Next(s, e), held)
  {}

  lemma GrantIsBacked(s: System, e: Step, p: Place)
    requires Enabled(s, e) && LeasesBelow(s) && Held(Next(s, e), p).Some? && Origin(s, e, p).None?
    ensures Backed(Next(s, e), Held(Next(s, e), p).value)
  {
    match e
    case Admit(th, _) => assert p == Stack(th);
    case ResumeAsk(th, _) => assert p == Stack(th);
    case _ =>
  }

  lemma ReleasedIsGone(s: System, e: Step, p: Place)
    requires Enabled(s, e) && e.Release? && Owned(s) && Held(Next(s, e), p).Some?
    ensures Held(s, Stack(e.thread)) != Held(Next(s, e), p)
  {
    LeasesMove(s, e, p);
    assert p != Stack(e.thread);
    assert Held(s, p).Some? && (Held(s, p) == Held(s, Stack(e.thread)) ==> Held(s, Stack(e.thread)).Some?);
  }

  lemma HeldLeaseIsClaimed(s: System, e: Step, p: Place)
    requires Enabled(s, e) && Owned(s) && Tidy(s) && Held(Next(s, e), p).Some?
    ensures Backed(Next(s, e), Held(Next(s, e), p).value)
  {
    LeasesMove(s, e, p);
    var o := Origin(s, e, p);
    if o.Some? {
      assert Held(s, o.value).Some?;
      if e.Release? {
        ReleasedIsGone(s, e, p);
        assert Held(s, Stack(e.thread)).Some?;
      }
      BackedIsKept(s, e, Held(s, o.value).value);
    } else {
      GrantIsBacked(s, e, p);
    }
  }

  lemma OwnedIsKept(s: System, e: Step)
    requires Enabled(s, e) && Owned(s) && Tidy(s)
    ensures Owned(Next(s, e))
  {
    var s' := Next(s, e);
    forall p | Held(s', p).Some? ensures Backed(s', Held(s', p).value) {
      HeldLeaseIsClaimed(s, e, p);
    }
    forall p, q | Held(s', p).Some? && Held(s', q).Some? && Held(s', p).value.0 == Held(s', q).value.0 ensures p == q {
      LeasesMove(s, e, p);
      LeasesMove(s, e, q);
      OriginsDiffer(s, e, p, q);
    }
  }

  lemma OriginsDiffer(s: System, e: Step, p: Place, q: Place)
    requires Enabled(s, e) && Owned(s) && Held(Next(s, e), p).Some? && Held(Next(s, e), q).Some?
    requires Held(Next(s, e), p).value.0 == Held(Next(s, e), q).value.0
    ensures p == q
  {
    LeasesMove(s, e, p);
    LeasesMove(s, e, q);
    var o, o' := Origin(s, e, p), Origin(s, e, q);
    if o.Some? && o'.Some? {
      assert o.value == o'.value;
    }
  }

  lemma ReleasedLeaseIsClaimed(s: System, e: Step)
    requires Enabled(s, e) && e.Release? && Owned(s)
    ensures var t := s.threads[e.thread].task; t in s.claims && s.claims[t] == s.threads[e.thread].lease
  {
    assert Held(s, Stack(e.thread)).Some?;
  }

  lemma LeasesStayBelow(s: System, e: Step)
    requires Enabled(s, e) && Owned(s) && LeasesBelow(s)
    ensures LeasesBelow(Next(s, e))
  {
    if e.Release? {
      ReleasedLeaseIsClaimed(s, e);
    }
  }

  lemma ClaimsStayDifferent(s: System, e: Step)
    requires Enabled(s, e) && LeasesBelow(s) && ClaimsDiffer(s)
    ensures ClaimsDiffer(Next(s, e))
  {}

  /** Who resumes after the step was resuming before it, or has just begun. */
  lemma ResumerBefore(s: System, e: Step, th: Thread)
    requires Enabled(s, e) && Resumer(Next(s, e), th).Some?
    ensures if e.ResumeBegin? && th == e.thread then Resumer(Next(s, e), th) == Some((e.task, s.active[e.task].uid))
            else Resumer(s, th) == Resumer(Next(s, e), th) && !(e.ResumeEnd? && th == e.thread)
  {}

  /** An entry keeps its identity, or is a new one. */
  ghost predicate SameOrNew(s: System, e: Step, t: Task)
    requires Enabled(s, e) && t in Next(s, e).active
  {
    var x := Next(s, e).active[t];
    if t in s.active then x.uid == s.active[t].uid
    else e.Launch? && x.uid == s.next && !x.resuming && x.lease.Some?
  }

  lemma EntryBefore(s: System, e: Step, t: Task)
    requires Enabled(s, e) && t in Next(s, e).active
    ensures SameOrNew(s, e, t)
  {
    if e.ResumeEnd? {
      EntryBeforeResumeEnd(s, e, t);
    }
  }

  lemma EntryBeforeResumeEnd(s: System, e: Step, t: Task)
    requires Enabled(s, e) && e.ResumeEnd? && t in Next(s, e).active
    ensures SameOrNew(s, e, t)
  {}

  lemma UidsStayBelow(s: System, e: Step)
    requires Enabled(s, e) && UidsBelow(s)
    ensures UidsBelow(Next(s, e))
  {
    var s' := Next(s, e);
    forall t | t in s'.active ensures s'.active[t].uid < s'.next {
      EntryBefore(s, e, t);
    }
    forall th | Resumer(s', th).Some? ensures Resumer(s', th).value.1 < s'.next {
      ResumerBefore(s, e, th);
    }
  }

  lemma TidyIsKept(s: System, e: Step)
    requires Enabled(s, e) && Owned(s) && Tidy(s)
    ensures Tidy(Next(s, e))
  {
    UidsStayBelow(s, e);
    LeasesStayBelow(s, e);
    ClaimsStayDifferent(s, e);
  }

  lemma MarkIsKept(s: System, e: Step, th: Thread, t: Task)
    requires Enabled(s, e) && UidsBelow(s) && OneResumer(s)
    requires t in Next(s, e).active && Resumer(Next(s, e), th) == Some((t, Next(s, e).active[t].uid))
    ensures Next(s, e).active[t].resuming
  {
    ResumerBefore(s, e, th);
    EntryBefore(s, e, t);
    if e.ResumeEnd? && t == s.threads[e.thread].task {
      assert Resumer(s, e.thread).Some? && Resumer(s, th).Some?;
    }
  }

  lemma LeasesStayOut(s: System, e: Step)
    requires Enabled(s, e) && OneResumer(s)
    ensures ResumingHoldsNoLease(Next(s, e))
  {}

  lemma ResumersStayDifferent(s: System, e: Step, th: Thread, th': Thread)
    requires Enabled(s, e) && OneResumer(s)
    requires Resumer(Next(s, e), th).Some? && Resumer(Next(s, e), th) == Resumer(Next(s, e), th')
    ensures th == th'
  {
    ResumerBefore(s, e, th);
    ResumerBefore(s, e, th');
  }

  lemma OneResumerIsKept(s: System, e: Step)
    requires Enabled(s, e) && Tidy(s) && OneResumer(s)
    ensures OneResumer(Next(s, e))
  {
    var s' := Next(s, e);
    LeasesStayOut(s, e);
    forall th, t | t in s'.active && Resumer(s', th) == Some((t, s'.active[t].uid)) ensures s'.active[t].resuming {
      MarkIsKept(s, e, th, t);
    }
    forall th, th' | Resumer(s', th).Some? && Resumer(s', th) == Resumer(s', th') ensures th == th' {
      ResumersStayDifferent(s, e, th, th');
    }
  }

  /** A thread is reacquiring for the entry. */
  ghost predicate HasResumer(s: System, t: Task)
    requires t in s.active
  {
    exists th :: Resumer(s, th) == Some((t, s.active[t].uid))
  }

  /** No mark is left behind: for every entry marked resuming some thread is still under way. */
  ghost predicate MarksAreLive(s: System) {
    forall t | t in s.active && s.active[t].resuming :: HasResumer(s, t)
  }

  lemma ResumerAfter(s: System, e: Step, th: Thread)
    requires Enabled(s, e) && Resumer(s, th).Some? && !(e.ResumeEnd? && th == e.thread)
    ensures Resumer(Next(s, e), th) == Resumer(s, th)
  {}

  /** Who is marked after the step was marked before it, unless the step marks it; the end of a resume takes the mark away. */
  lemma MarkBefore(s: System, e: Step, t: Task)
    requires Enabled(s, e) && t in Next(s, e).active && Next(s, e).active[t].resuming
    ensures t in s.active && Next(s, e).active[t].uid == s.active[t].uid
    ensures (e.ResumeBegin? && e.task == t) || s.active[t].resuming
    ensures e.ResumeEnd? ==> !(s.threads[e.thread].task == t && s.threads[e.thread].uid == s.active[t].uid)
  {}

  lemma MarkStaysLive(s: System, e: Step, t: Task)
    requires Enabled(s, e) && MarksAreLive(s) && t in Next(s, e).active && Next(s, e).active[t].resuming
    ensures HasResumer(Next(s, e), t)
  {
    var s' := Next(s, e);
    MarkBefore(s, e, t);
    if e.ResumeBegin? && e.task == t {
      assert Resumer(s', e.thread) == Some((t, s'.active[t].uid));
    } else {
      assert HasResumer(s, t);
      var th :| Resumer(s, th) == Some((t, s.active[t].uid));
      ResumerAfter(s, e, th);
    }
  }

  lemma MarksStayLive(s: System, e: Step)
    requires Enabled(s, e) && MarksAreLive(s)
    ensures MarksAreLive(Next(s, e))
  {
    forall t | t in Next(s, e).active && Next(s, e).active[t].resuming ensures HasResumer(Next(s, e), t) {
      MarkStaysLive(s, e, t);
    }
  }

  /** Where the holder of a lease keeps it after the step. */
  function Destination(s: System, e: Step, p: Place): Place
    requires Enabled(s, e)
  {
    match e
    case Launch(th) =>
      var t := s.threads[th].task;
      if p == Stack(th) && !(t in s.active || s.Capacity() >= s.max || |s.active| >= 2 * s.max) then Entry(t) else p
    case Park(th, t) => if p == Entry(t) then Stack(th) else p
    case ResumeEnd(th) =>
      var t := s.threads[th].task;
      if p == Stack(th) && ComesBack(s, th) then Entry(t) else p
    case Remove(th, t) => if p == Entry(t) then Stack(th) else p
    case _ => p
  }

  ghost predicate Survives(s: System, e: Step, p: Place)
    requires Enabled(s, e)
  {
    Held(Next(s, e), Destination(s, e, p)) == Held(s, p)
  }

  lemma EntryLeaseSurvives(s: System, e: Step, t: Task)
    requires Enabled(s, e) && OneResumer(s) && Held(s, Entry(t)).Some?
    ensures Survives(s, e, Entry(t))
  {
    if e.ResumeEnd? {
      assert Resumer(s, e.thread).Some?;
    }
  }

  lemma StackLeaseSurvives(s: System, e: Step, th: Thread)
    requires Enabled(s, e) && Held(s, Stack(th)).Some? && !(e.Release? && th == e.thread)
    ensures Survives(s, e, Stack(th))
  {}

  lemma NothingIsLost(s: System, e: Step, p: Place)
    requires Enabled(s, e) && OneResumer(s) && Held(s, p).Some? && !(e.Release? && p == Stack(e.thread))
    ensures Survives(s, e, p)
  {
    if p.Entry? {
      EntryLeaseSurvives(s, e, p.task);
    } else {
      StackLeaseSurvives(s, e, p.thread);
    }
  }

  lemma NoOrphanIsKept(s: System, e: Step)
    requires Enabled(s, e) && Owned(s) && OneResumer(s) && NoOrphan(s)
    ensures NoOrphan(Next(s, e))
  {
    var s' := Next(s, e);
    forall t | t in s'.claims ensures exists p :: Held(s', p) == Some((t, s'.claims[t])) {
      if t !in s.claims {
        assert Held(s', Stack(e.thread)) == Some((t, s'.claims[t]));
      } else {
        var p :| Held(s, p) == Some((t, s.claims[t]));
        if e.Release? {
          assert Held(s, Stack(e.thread)).Some?;
        }
        NothingIsLost(s, e, p);
      }
    }
  }

  function Counted(s: System): set<Task> {
    set t | t in s.active && s.active[t].Counts()
  }

  lemma AtMostOneMore<T>(a: set<T>, b: set<T>, x: T)
    requires b <= a + {x}
    ensures |b| <= |a| + 1
  {
    SubsetIsNoLarger(b, a + {x});
  }

  lemma NoneCountedAnew(s: System, e: Step, t: Task)
    requires Enabled(s, e) && OneResumer(s) && !e.Launch? && !e.ResumeBegin? && t in Next(s, e).active
    ensures t in s.active && (Next(s, e).active[t].Counts() ==> s.active[t].Counts())
  {
    if e.ResumeEnd? {
      assert Resumer(s, e.thread).Some?;
    }
  }

  lemma OthersCountAsBefore(s: System, e: Step, t: Task)
    requires Enabled(s, e) && (e.Launch? || e.ResumeBegin?) && t in Next(s, e).active
    requires t != if e.Launch? then s.threads[e.thread].task else e.task
    ensures t in s.active && Next(s, e).active[t] == s.active[t]
  {}

  /** Only a launch and the beginning of a resume take a slot, and only after finding one free. */
  lemma TakesOneFreeSlot(s: System, e: Step)
    requires Enabled(s, e) && (e.Launch? || e.ResumeBegin?)
    ensures Next(s, e).max == s.max && (Next(s, e).active == s.active || s.Capacity() < s.max)
    ensures |Next(s, e).active| <= |s.active| || |s.active| < 2 * s.max
  {}

  lemma BoundedIsKept(s: System, e: Step)
    requires Enabled(s, e) && OneResumer(s) && Bounded(s)
    ensures Bounded(Next(s, e))
  {
    var s' := Next(s, e);
    assert s.Capacity() == |Counted(s)| && s'.Capacity() == |Counted(s')|;
    if e.Launch? || e.ResumeBegin? {
      var x := if e.Launch? then s.threads[e.thread].task else e.task;
      forall t | t in s'.active && t != x ensures t in s.active && s'.active[t] == s.active[t] {
        OthersCountAsBefore(s, e, t);
      }
      AtMostOneMore(Counted(s), Counted(s'), x);
      AtMostOneMore(s.active.Keys, s'.active.Keys, x);
      TakesOneFreeSlot(s, e);
    } else {
      forall t | t in s'.active ensures t in s.active && (s'.active[t].Counts() ==> s.active[t].Counts()) {
        NoneCountedAnew(s, e, t);
      }
      SubsetIsNoLarger(Counted(s'), Counted(s));
      SubsetIsNoLarger(s'.active.Keys, s.active.Keys);
    }
  }

  ghost predicate Inv(s: System) {
    Owned(s) && NoOrphan(s) && Tidy(s) && OneResumer(s) && MarksAreLive(s) && Bounded(s)
  }

  lemma InvIsKept(s: System, e: Step)
    requires Enabled(s, e) && Inv(s)
    ensures Inv(Next(s, e)) && Next(s, e).max == s.max
  {
    OwnedIsKept(s, e);
    NoOrphanIsKept(s, e);
    TidyIsKept(s, e);
    OneResumerIsKept(s, e);
    MarksStayLive(s, e);
    BoundedIsKept(s, e);
  }

  lemma {:induction false} InvAlways(max: nat, es: seq<Step>, s: System)
    requires Reaches(max, es, s)
    ensures Inv(s) && s.max == max
    decreases |es|
  {
    if es != [] {
      var last := es[|es| - 1];
      var s0 :| Reaches(max, es[..|es| - 1], s0) && Enabled(s0, last) && s == Next(s0, last);
      InvAlways(max, es[..|es| - 1], s0);
      InvIsKept(s0, last);
    }
  }

  /** At every moment: the worker slots in use stay within the limit, and the resident executions within twice that. */
  lemma CapacityIsBounded(max: nat, es: seq<Step>, s: System)
    requires Reaches(max, es, s)
    ensures s.Capacity() <= max && |s.active| <= 2 * max
  {
    InvAlways(max, es, s);
  }

  /** At every moment: each governor claim of an execution has exactly one holder of its one unreleased lease. */
  lemma EveryClaimHasOneOwner(max: nat, es: seq<Step>, s: System, t: Task)
    requires Reaches(max, es, s) && t in s.claims
    ensures s.claims[t] !in s.released
    ensures exists p :: Held(s, p) == Some((t, s.claims[t])) && forall q :: Held(s, q).Some? && Held(s, q).value.0 == t ==> q == p
  {
    InvAlways(max, es, s);
    var p :| Held(s, p) == Some((t, s.claims[t]));
    assert forall q :: Held(s, q).Some? && Held(s, q).value.0 == t ==> q == p;
  }

  lemma NothingHeld(s: System, p: Place)
    requires s.active == map[] && s.threads == map[]
    ensures Held(s, p).None?
  {
    assert p.Entry? ==> p.task !in s.active;
  }

  /** Nothing leaks: when no execution is registered and no thread is between two steps, no claim is left. */
  lemma NoClaimOutlivesItsExecutions(max: nat, es: seq<Step>, s: System)
    requires Reaches(max, es, s) && s.active == map[] && s.threads == map[]
    ensures s.claims == map[]
  {
    InvAlways(max, es, s);
    forall p ensures Held(s, p).None? {
      NothingHeld(s, p);
    }
  }

  /** A thread that is about to release a lease really frees its claim, and nobody else's: no lease is released twice. */
  lemma ReleaseFreesItsOwnClaim(max: nat, es: seq<Step>, s: System, th: Thread)
    requires Reaches(max, es, s) && Enabled(s, Release(th))
    ensures var t := s.threads[th].task;
            && s.threads[th].lease !in s.released && t in s.claims && s.claims[t] == s.threads[th].lease
            && Next(s, Release(th)).claims == s.claims - {t}
            && forall p :: p != Stack(th) && Held(s, p).Some? ==> Held(s, p).value.0 != t
  {
    InvAlways(max, es, s);
    assert Held(s, Stack(th)).Some?;
  }

  // ----- Nothing gets stuck -----

  /** Exactly while an entry is marked resuming, one thread is reacquiring for it. */
  lemma ResumingIffUnderWay(max: nat, es: seq<Step>, s: System, t: Task)
    requires Reaches(max, es, s) && t in s.active
    ensures s.active[t].resuming <==> exists th :: Resumer(s, th) == Some((t, s.active[t].uid))
  {
    InvAlways(max, es, s);
    if s.active[t].resuming {
      assert HasResumer(s, t);
    }
  }

  function Leased(s: System): set<Task> {
    set t | t in s.active && s.active[t].lease.Some?
  }

  /** With no thread between two steps nothing is resuming, and the capacity in use is the number of leases held. */
  lemma CapacityIsLeasesHeld(max: nat, es: seq<Step>, s: System)
    requires Reaches(max, es, s) && s.threads == map[]
    ensures forall t | t in s.active :: !s.active[t].resuming
    ensures s.Capacity() == |Leased(s)| && s.Parked() == |s.active.Keys - Leased(s)|
  {
    InvAlways(max, es, s);
    forall t | t in s.active ensures !s.active[t].resuming {
      ResumingIffUnderWay(max, es, s, t);
    }
    assert Leased(s) == set t | t in s.active && s.active[t].Counts();
    assert s.active.Keys - Leased(s) == set t | t in s.active && !s.active[t].Counts();
  }

  /**
   * So a slot that nobody holds can be taken: with no thread between two steps and fewer leases
   * than the limit a parked execution can begin to resume, and with fewer parked executions than
   * the limit one that holds a lease can be parked.
   */
  lemma FreeSlotsCanBeTaken(max: nat, es: seq<Step>, s: System, th: Thread, t: Task)
    requires Reaches(max, es, s) && s.threads == map[] && t in s.active
    ensures t !in Leased(s) ==> (Enabled(s, ResumeBegin(th, t)) <==> |Leased(s)| < max)
    ensures t in Leased(s) ==> (Enabled(s, Park(th, t)) <==> |s.active.Keys - Leased(s)| < max)
  {
    CapacityIsLeasesHeld(max, es, s);
    InvAlways(max, es, s);
  }

  /** An attempt to resume that the governor denies leaves everything as it was. */
  lemma DeniedResumeChangesNothing(s: System, th: Thread, t: Task)
    requires Enabled(s, ResumeBegin(th, t))
    ensures var s1 := Next(s, ResumeBegin(th, t));
            Enabled(s1, ResumeAsk(th, false)) && var s2 := Next(s1, ResumeAsk(th, false));
            Enabled(s2, ResumeEnd(th)) && Next(s2, ResumeEnd(th)) == s
  {
    var s1 := Next(s, ResumeBegin(th, t));
    var s2 := Next(s1, ResumeAsk(th, false));
    var s3 := Next(s2, ResumeEnd(th));
    assert ComesBack(s2, th);
    assert s3.active == s.active && s3.threads == s.threads;
  }

  /** Of two systems that differ in one entry, which holds a lease in the one and nothing in the other. */
  lemma SlotsAfter(s: System, s': System, t: Task)
    requires t in s.active && s.active[t].lease.Some? && s'.active == s.active[t := s.active[t].(lease := None)] && !s.active[t].resuming
    ensures s'.Capacity() == s.Capacity() - 1
  {
    assert Counted(s) == Counted(s') + {t};
  }

  /** Parking frees the claim and the slot. */
  lemma ParkFreesTheSlot(s: System, th: Thread, t: Task) returns (parked: System)
    requires Inv(s) && Enabled(s, Park(th, t))
    ensures var s1 := Next(s, Park(th, t)); Enabled(s1, Release(th)) && parked == Next(s1, Release(th))
    ensures parked.active == s.active[t := s.active[t].(lease := None)] && parked.Capacity() == s.Capacity() - 1
    ensures parked.claims == s.claims - {t} && s.active[t].lease.value in parked.released && parked.threads == s.threads
  {
    var l := s.active[t].lease.value;
    assert Held(s, Entry(t)) == Some((t, l)) && Backed(s, (t, l));
    parked := Next(Next(s, Park(th, t)), Release(th));
    assert parked.threads == s.threads;
    SlotsAfter(s, parked, t);
  }

  /** A resume that the governor grants takes a new lease, and the slot with it. */
  lemma GrantedResumeTakesTheSlot(s: System, th: Thread, t: Task) returns (back: System)
    requires LeasesBelow(s) && Enabled(s, ResumeBegin(th, t)) && t !in s.claims
    ensures var s1 := Next(s, ResumeBegin(th, t));
            Enabled(s1, ResumeAsk(th, true)) && var s2 := Next(s1, ResumeAsk(th, true));
            Enabled(s2, ResumeEnd(th)) && back == Next(s2, ResumeEnd(th))
    ensures back.active == s.active[t := s.active[t].(lease := Some(s.next))] && back.Capacity() == s.Capacity() + 1
    ensures back.claims == s.claims[t := s.next] && s.next !in back.released && back.threads == s.threads
  {
    var s2 := Next(Next(s, ResumeBegin(th, t)), ResumeAsk(th, true));
    assert ComesBack(s2, th);
    back := Next(s2, ResumeEnd(th));
    assert back.threads == s.threads;
    assert back.active[t := back.active[t].(lease := None)] == s.active;
    SlotsAfter(back, s, t);
  }

  /** There is a free slot and a free place for the execution. */
  predicate HasRoom(s: System, t: Task) {
    t !in s.active && s.Capacity() < s.max && |s.active| < 2 * s.max
  }

  /** An admitted execution is registered with its lease exactly if there is room for it. */
  lemma LaunchRegistersIff(s: System, th: Thread, t: Task)
    requires Enabled(s, Admit(th, t))
    ensures var s1 := Next(s, Admit(th, t));
            Enabled(s1, Launch(th)) && var s2 := Next(s1, Launch(th));
            && s2.claims == s.claims[t := s.next]
            && if HasRoom(s, t) then s2.active == s.active[t := Execution(s.next + 1, Some(s.next), false)] && s2.threads == s.threads
               else s2.active == s.active && Enabled(s2, Release(th))
  {
    var s1 := Next(s, Admit(th, t));
    assert s1.Capacity() == s.Capacity();
    if HasRoom(s, t) {
      assert Next(s1, Launch(th)).threads == s.threads;
    }
  }

  /** Without room its claim goes again, and nothing else has changed. */
  lemma RefusedLaunchChangesNothing(s: System, th: Thread, t: Task)
    requires LeasesBelow(s) && Enabled(s, Admit(th, t)) && !HasRoom(s, t)
    ensures var s2 := Next(Next(s, Admit(th, t)), Launch(th));
            Enabled(s2, Release(th)) && var end := Next(s2, Release(th));
            end.active == s.active && end.claims == s.claims && end.threads == s.threads
  {
    var s1 := Next(s, Admit(th, t));
    assert s1.Capacity() == s.Capacity() && s.next !in s.released;
    var end := Next(Next(s1, Launch(th)), Release(th));
    assert end.claims == s.claims && end.threads == s.threads;
  }

  /** Removing an execution takes its entry away, and with a lease its claim. */
  lemma RemovedIsGone(s: System, th: Thread, t: Task)
    requires Inv(s) && Enabled(s, Remove(th, t))
    ensures var s1 := Next(s, Remove(th, t));
            if s.active[t].lease.Some? then
              Enabled(s1, Release(th)) && var end := Next(s1, Release(th));
              end.active == s.active - {t} && end.claims == s.claims - {t} && end.threads == s.threads
            else s1 == s.(active := s.active - {t})
  {
    if s.active[t].lease.Some? {
      var l := s.active[t].lease.value;
      assert Held(s, Entry(t)) == Some((t, l)) && Backed(s, (t, l));
      var end := Next(Next(s, Remove(th, t)), Release(th));
      assert end.threads == s.threads;
    }
  }
}
