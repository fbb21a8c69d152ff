/**
 * Ordered keyed mutexes: the registry of internal/processctl/sandbox_windows.go and the order in
 * which profile and path locks are taken.
 *
 * A step is one registry entry or one mutex. The registry's own mutex makes several of them one;
 * everything below holds without that help. The named mutexes shared between processes follow the
 * same rules: opening one is a reference, closing the last handle destroys it.
 */
module KeyedLocks {
  import opened FiniteSets
  import opened StringOrder

  type Id = nat
  type Tid = nat

  /** `level` orders the registries: profile, named profile, path, named path. */
  datatype Lock = Lock(level: nat, process: nat, key: string)

  predicate Before(a: Lock, b: Lock) {
    a.level < b.level || (a.level == b.level && Less(a.key, b.key))
  }

  lemma BeforeIsStrict(a: Lock, b: Lock, c: Lock)
    ensures !Before(a, a) && !(Before(a, b) && Before(b, a))
    ensures Before(a, b) && Before(b, c) ==> Before(a, c)
    ensures a.level < b.level ==> Before(a, b)
    ensures a.level == b.level && a.key != b.key ==> Before(a, b) || Before(b, a)
  {
    LessIsTotal(a.key, b.key);
    LessIsTotal(a.key, a.key);
    if Less(a.key, b.key) && Less(b.key, c.key) {
      LessIsTransitive(a.key, b.key, c.key);
    }
  }

  // ----- The registry -----

  datatype Registry = Registry(entries: map<Lock, Id>, refs: map<Id, nat>, next: Id)
  {
    function Referenced(k: Lock): Registry {
      if k in entries then
        var id := entries[k];
        this.(refs := refs[id := (if id in refs then refs[id] else 0) + 1])
      else
        Registry(entries[k := next], refs[next := 1], next + 1)
    }

    function IdOf(k: Lock): Id {
      if k in entries then entries[k] else next
    }

    function Dereferenced(k: Lock, id: Id): Registry {
      var left: nat := if id in refs && refs[id] > 0 then refs[id] - 1 else 0;
      this.(refs := refs[id := left], entries := if left == 0 && k in entries && entries[k] == id then entries - {k} else entries)
    }
  }

  // ----- Threads -----

  datatype Slot = Slot(lock: Lock, id: Id, taken: bool)

  /** The locks a thread refers to, in the order it asked for them; `falling` while it unlocks. */
  datatype Thread = Thread(slots: seq<Slot>, falling: bool)
  {
    predicate Uses(k: Lock) {
      exists i :: 0 <= i < |slots| && slots[i].lock == k
    }

    predicate Holds(k: Lock) {
      exists i :: 0 <= i < |slots| && slots[i].lock == k && slots[i].taken
    }

    /** The first slot that is not taken. */
    predicate Awaits(i: nat) {
      i < |slots| && !slots[i].taken && forall j | 0 <= j < i :: slots[j].taken
    }

    predicate LastTaken(i: nat) {
      i < |slots| && slots[i].taken && forall j | i < j < |slots| :: !slots[j].taken
    }

    predicate Ordered() {
      && (forall i, j | 0 <= i < j < |slots| :: Before(slots[i].lock, slots[j].lock))
      && (forall i, j | 0 <= i < j < |slots| :: slots[j].taken ==> slots[i].taken)
    }

    function Marked(i: nat, taken: bool): Thread
      requires i < |slots|
    {
      this.(slots := slots[i := slots[i].(taken := taken)])
    }

    function Without(i: nat): Thread
      requires i < |slots|
    {
      this.(slots := slots[..i] + slots[i + 1..])
    }
  }

  datatype System = System(registry: Registry, owner: map<Id, Tid>, threads: map<Tid, Thread>)
  {
    function At(th: Tid): Thread {
      if th in threads then threads[th] else Thread([], false)
    }
  }

  datatype Step =
    | Refer(thread: Tid, lock: Lock)
    | Take(thread: Tid, slot: nat)
    | Turn(thread: Tid)
    | Drop(thread: Tid, slot: nat)
    | Forget(thread: Tid, slot: nat)
    | Rise(thread: Tid)

  predicate Enabled(s: System, e: Step) {
    var t := s.At(e.thread);
    match e
    case Refer(_, k) => !t.falling && forall i | 0 <= i < |t.slots| :: Before(t.slots[i].lock, k)
    case Take(_, i) => !t.falling && t.Awaits(i) && t.slots[i].id !in s.owner
    case Turn(_) => !t.falling
    case Drop(_, i) => t.falling && t.LastTaken(i)
    case Forget(_, i) => t.falling && i < |t.slots| && !t.slots[i].taken
    case Rise(_) => t.falling && forall i | 0 <= i < |t.slots| :: t.slots[i].taken
  }

  function Next(s: System, e: Step): System
    requires Enabled(s, e)
  {
    var th, t := e.thread, s.At(e.thread);
    match e
    case Refer(_, k) =>
      s.(registry := s.registry.Referenced(k),
         threads := s.threads[th := t.(slots := t.slots + [Slot(k, s.registry.IdOf(k), false)])])
    case Take(_, i) => s.(owner := s.owner[t.slots[i].id := th], threads := s.threads[th := t.Marked(i, true)])
    case Turn(_) => s.(threads := s.threads[th := t.(falling := true)])
    case Drop(_, i) => s.(owner := s.owner - {t.slots[i].id}, threads := s.threads[th := t.Marked(i, false)])
    case Forget(_, i) =>
      s.(registry := s.registry.Dereferenced(t.slots[i].lock, t.slots[i].id), threads := s.threads[th := t.Without(i)])
    case Rise(_) => s.(threads := s.threads[th := t.(falling := false)])
  }

  ghost predicate Reaches(es: seq<Step>, s: System) {
    if es == [] then s == System(Registry(map[], map[], 0), map[], map[])
    else
      var last := es[|es| - 1];
      exists s0 :: Reaches(es[..|es| - 1], s0) && Enabled(s0, last) && s == Next(s0, last)
  }

  // ----- Invariants -----

  function Users(s: System, k: Lock): set<Tid> {
    set th | th in s.threads && s.threads[th].Uses(k)
  }

  ghost predicate AllOrdered(s: System) {
    forall th :: s.At(th).Ordered()
  }

  /** Whatever a thread refers to is the object that the map holds for the key. */
  ghost predicate Bound(s: System, th: Tid) {
    forall i | 0 <= i < |s.At(th).slots| ::
      var x := s.At(th).slots[i]; x.lock in s.registry.entries && s.registry.entries[x.lock] == x.id
  }

  ghost predicate AllBound(s: System) {
    forall th :: Bound(s, th)
  }

  ghost predicate Counted(s: System, k: Lock) {
    k in s.registry.entries ==>
      && s.registry.entries[k] in s.registry.refs
      && s.registry.refs[s.registry.entries[k]] == |Users(s, k)| > 0
  }

  ghost predicate AllCounted(s: System) {
    forall k :: Counted(s, k)
  }

  ghost predicate Distinct(r: Registry) {
    && (forall k | k in r.entries :: r.entries[k] < r.next)
    && (forall k, l | k in r.entries && l in r.entries && r.entries[k] == r.entries[l] :: k == l)
  }

  ghost predicate TakenIsOwned(s: System, th: Tid) {
    forall i | 0 <= i < |s.At(th).slots| && s.At(th).slots[i].taken ::
      s.At(th).slots[i].id in s.owner && s.owner[s.At(th).slots[i].id] == th
  }

  ghost predicate OwnedIsTaken(s: System, id: Id) {
    id in s.owner ==>
      exists i :: 0 <= i < |s.At(s.owner[id]).slots| && s.At(s.owner[id]).slots[i].id == id && s.At(s.owner[id]).slots[i].taken
  }

  ghost predicate Owners(s: System) {
    (forall th :: TakenIsOwned(s, th)) && (forall id :: OwnedIsTaken(s, id))
  }

  ghost predicate Inv(s: System) {
    AllOrdered(s) && AllBound(s) && AllCounted(s) && Distinct(s.registry) && Owners(s)
  }

  lemma OrderedIsKept(s: System, e: Step)
    requires Enabled(s, e) && AllOrdered(s)
    ensures AllOrdered(Next(s, e))
  {
    var s', t := Next(s, e), s.At(e.thread);
    assert t.Ordered();
    forall th ensures s'.At(th).Ordered() {
      if th != e.thread {
        assert s.At(th).Ordered();
      }
    }
  }

  /** Two slots of a thread never name the same lock. */
  lemma SlotsDiffer(t: Thread, i: nat, j: nat)
    requires t.Ordered() && i < |t.slots| && j < |t.slots| && i != j
    ensures t.slots[i].lock != t.slots[j].lock
  {
    BeforeIsStrict(t.slots[i].lock, t.slots[j].lock, t.slots[j].lock);
  }

  lemma DistinctIsKept(s: System, e: Step)
    requires Enabled(s, e) && Distinct(s.registry)
    ensures Distinct(Next(s, e).registry)
  {}

  // ----- Who uses a key -----

  lemma UsesAfter(s: System, e: Step, th: Tid, k: Lock)
    requires Enabled(s, e) && AllOrdered(s)
    ensures Next(s, e).At(th).Uses(k) <==>
            if e.Refer? && th == e.thread && k == e.lock then true
            else if e.Forget? && th == e.thread && k == s.At(th).slots[e.slot].lock then false
            else s.At(th).Uses(k)
  {
    var t, t' := s.At(th), Next(s, e).At(th);
    if th == e.thread {
      match e
      case Refer(_, l) =>
        assert forall i | 0 <= i < |t.slots| :: t'.slots[i] == t.slots[i];
        assert t'.slots[|t.slots|].lock == l;
      case Forget(_, n) =>
        ForgottenSlots(t, n, k);
      case _ =>
        SameLocks(t, t', k);
    }
  }

  lemma SameLocks(t: Thread, t': Thread, k: Lock)
    requires |t.slots| == |t'.slots| && forall i | 0 <= i < |t.slots| :: t'.slots[i].lock == t.slots[i].lock
    ensures t'.Uses(k) <==> t.Uses(k)
  {}

  lemma ForgottenSlots(t: Thread, n: nat, k: Lock)
    requires n < |t.slots| && t.Ordered()
    ensures t.Without(n).Uses(k) <==> t.Uses(k) && k != t.slots[n].lock
  {
    var t' := t.Without(n);
    assert forall i | 0 <= i < |t'.slots| :: t'.slots[i] == t.slots[if i < n then i else i + 1];
    if i :| 0 <= i < |t.slots| && t.slots[i].lock == k && i != n {
      assert t'.slots[if i < n then i else i - 1].lock == k;
      SlotsDiffer(t, i, n);
    }
    if i :| 0 <= i < |t'.slots| && t'.slots[i].lock == k {
      var j := if i < n then i else i + 1;
      SlotsDiffer(t, j, n);
    }
  }

  lemma UsersAfter(s: System, e: Step, k: Lock)
    requires Enabled(s, e) && AllOrdered(s)
    ensures Users(Next(s, e), k) ==
            if e.Refer? && k == e.lock then Users(s, k) + {e.thread}
            else if e.Forget? && k == s.At(e.thread).slots[e.slot].lock then Users(s, k) - {e.thread}
            else Users(s, k)
  {
    var s' := Next(s, e);
    forall th ensures th in Users(s', k) <==> s'.At(th).Uses(k) {}
    forall th ensures th in Users(s, k) <==> s.At(th).Uses(k) {}
    forall th ensures s'.At(th).Uses(k) <==>
        if e.Refer? && th == e.thread && k == e.lock then true
        else if e.Forget? && th == e.thread && k == s.At(th).slots[e.slot].lock then false
        else s.At(th).Uses(k)
    {
      UsesAfter(s, e, th, k);
    }
  }

  lemma ReferrerIsNew(s: System, e: Step)
    requires Enabled(s, e) && e.Refer? && AllOrdered(s)
    ensures e.thread !in Users(s, e.lock)
  {
    forall i | 0 <= i < |s.At(e.thread).slots| ensures s.At(e.thread).slots[i].lock != e.lock {
      BeforeIsStrict(e.lock, e.lock, e.lock);
    }
  }

  /** Counts are right after the step, and a key without an entry has no user. */
  ghost predicate CountedAfter(s: System, e: Step, k: Lock)
    requires Enabled(s, e)
  {
    Counted(Next(s, e), k) && (k !in Next(s, e).registry.entries ==> Users(Next(s, e), k) == {})
  }

  lemma CountedAfterRefer(s: System, e: Step, k: Lock)
    requires Enabled(s, e) && e.Refer? && AllOrdered(s) && Distinct(s.registry) && Counted(s, k)
    requires k !in s.registry.entries ==> Users(s, k) == {}
    ensures CountedAfter(s, e, k)
  {
    UsersAfter(s, e, k);
    if k == e.lock { ReferrerIsNew(s, e); }
  }

  /** Dropping one of the references to a key touches no other key, and its entry goes with the last. */
  lemma DereferencedEntry(r: Registry, l: Lock, k: Lock)
    requires Distinct(r) && l in r.entries && r.entries[l] in r.refs && r.refs[r.entries[l]] > 0
    requires k in r.entries && r.entries[k] in r.refs
    ensures var r', id, left := r.Dereferenced(l, r.entries[l]), r.entries[k], r.refs[r.entries[k]] - (if k == l then 1 else 0);
            (k in r'.entries <==> k != l || left > 0) && (k in r'.entries ==> r'.entries[k] == id && r'.refs[id] == left)
  {}

  lemma CountedAfterForget(s: System, e: Step, k: Lock)
    requires Enabled(s, e) && e.Forget? && AllOrdered(s) && AllBound(s) && Distinct(s.registry) && AllCounted(s)
    ensures CountedAfter(s, e, k)
  {
    var t, l := s.At(e.thread), s.At(e.thread).slots[e.slot].lock;
    UsersAfter(s, e, k);
    assert Bound(s, e.thread) && Counted(s, l) && Counted(s, k);
    if k !in s.registry.entries {
      UnusedIsAbsent(s, k);
    } else {
      DereferencedEntry(s.registry, l, k);
      if k == l {
        assert t.Uses(l) && e.thread in Users(s, l);
      }
    }
  }

  lemma CountedIsKept(s: System, e: Step, k: Lock)
    requires Enabled(s, e) && AllOrdered(s) && AllBound(s) && Distinct(s.registry) && AllCounted(s)
    ensures CountedAfter(s, e, k)
  {
    assert Counted(s, k);
    if k !in s.registry.entries { UnusedIsAbsent(s, k); }
    if e.Refer? {
      CountedAfterRefer(s, e, k);
    } else if e.Forget? {
      CountedAfterForget(s, e, k);
    } else {
      UsersAfter(s, e, k);
    }
  }

  lemma UnusedIsAbsent(s: System, k: Lock)
    requires AllBound(s) && k !in s.registry.entries
    ensures Users(s, k) == {}
  {
    forall th ensures th !in Users(s, k) {
      assert Bound(s, th);
      assert th in s.threads ==> s.At(th) == s.threads[th];
    }
  }

  lemma AllCountedIsKept(s: System, e: Step)
    requires Enabled(s, e) && AllOrdered(s) && AllBound(s) && Distinct(s.registry) && AllCounted(s)
    ensures AllCounted(Next(s, e))
  {
    forall k ensures Counted(Next(s, e), k) {
      CountedIsKept(s, e, k);
    }
  }

  /** A key that a thread uses after the step keeps its object. */
  lemma UsedStays(s: System, e: Step, th: Tid, k: Lock)
    requires Enabled(s, e) && AllOrdered(s) && AllBound(s) && AllCounted(s) && Distinct(s.registry)
    requires k in s.registry.entries && Next(s, e).At(th).Uses(k)
    ensures k in Next(s, e).registry.entries && Next(s, e).registry.entries[k] == s.registry.entries[k]
  {
    CountedIsKept(s, e, k);
    assert th in Users(Next(s, e), k);
  }

  /** A slot after the step is the one `Refer` made, or it stood there before with the same lock and object. */
  lemma SlotWasThere(s: System, e: Step, th: Tid, i: nat)
    requires Enabled(s, e) && i < |Next(s, e).At(th).slots|
    requires !(e.Refer? && th == e.thread && i == |s.At(th).slots|)
    ensures var x, j := Next(s, e).At(th).slots[i], if th == e.thread && e.Forget? && i >= e.slot then i + 1 else i;
            j < |s.At(th).slots| && s.At(th).slots[j].lock == x.lock && s.At(th).slots[j].id == x.id
  {}

  lemma BoundSlot(s: System, e: Step, th: Tid, i: nat)
    requires Enabled(s, e) && AllOrdered(s) && AllBound(s) && AllCounted(s) && Distinct(s.registry)
    requires i < |Next(s, e).At(th).slots|
    ensures var s' := Next(s, e); var x := s'.At(th).slots[i];
            x.lock in s'.registry.entries && s'.registry.entries[x.lock] == x.id
  {
    if e.Refer? && th == e.thread && i == |s.At(th).slots| {
      assert Next(s, e).At(th).slots[i] == Slot(e.lock, s.registry.IdOf(e.lock), false);
    } else {
      SlotWasThere(s, e, th, i);
      assert Bound(s, th);
      var x := Next(s, e).At(th).slots[i];
      assert Next(s, e).At(th).Uses(x.lock);
      UsedStays(s, e, th, x.lock);
    }
  }

  lemma BoundIsKept(s: System, e: Step, th: Tid)
    requires Enabled(s, e) && AllOrdered(s) && AllBound(s) && AllCounted(s) && Distinct(s.registry)
    ensures Bound(Next(s, e), th)
  {
    forall i | 0 <= i < |Next(s, e).At(th).slots|
      ensures var s' := Next(s, e); var x := s'.At(th).slots[i];
              x.lock in s'.registry.entries && s'.registry.entries[x.lock] == x.id
    {
      BoundSlot(s, e, th, i);
    }
  }

  // ----- Who owns a mutex -----

  /** Of one thread, a lock's object belongs to one slot only. */
  lemma SlotOfId(s: System, th: Tid, i: nat, j: nat)
    requires Bound(s, th) && s.At(th).Ordered() && Distinct(s.registry)
    requires i < |s.At(th).slots| && j < |s.At(th).slots| && i != j
    ensures s.At(th).slots[i].id != s.At(th).slots[j].id
  {
    SlotsDiffer(s.At(th), i, j);
  }

  lemma TakenSlot(s: System, e: Step, th: Tid, i: nat)
    requires Enabled(s, e) && AllOrdered(s) && AllBound(s) && Distinct(s.registry) && Owners(s)
    requires i < |Next(s, e).At(th).slots| && Next(s, e).At(th).slots[i].taken
    ensures var s' := Next(s, e); var id := s'.At(th).slots[i].id; id in s'.owner && s'.owner[id] == th
  {
    assert TakenIsOwned(s, th) && TakenIsOwned(s, e.thread) && Bound(s, th) && s.At(th).Ordered();
    if !(e.Refer? && th == e.thread && i == |s.At(th).slots|) {
      SlotWasThere(s, e, th, i);
      if e.Drop? && th == e.thread && i != e.slot {
        SlotOfId(s, th, i, e.slot);
      }
    }
  }

  lemma TakenStaysOwned(s: System, e: Step, th: Tid)
    requires Enabled(s, e) && AllOrdered(s) && AllBound(s) && Distinct(s.registry) && Owners(s)
    ensures TakenIsOwned(Next(s, e), th)
  {
    var s' := Next(s, e);
    forall i | 0 <= i < |s'.At(th).slots| && s'.At(th).slots[i].taken
      ensures s'.At(th).slots[i].id in s'.owner && s'.owner[s'.At(th).slots[i].id] == th
    {
      TakenSlot(s, e, th, i);
    }
  }

  lemma OwnedStaysTaken(s: System, e: Step, id: Id)
    requires Enabled(s, e) && OwnedIsTaken(s, id)
    ensures OwnedIsTaken(Next(s, e), id)
  {
    var s' := Next(s, e);
    if id in s'.owner {
      var th := s'.owner[id];
      if e.Take? && id == s.At(e.thread).slots[e.slot].id {
        assert s'.At(th).slots[e.slot].id == id;
      } else {
        var t := s.At(th);
        var i :| 0 <= i < |t.slots| && t.slots[i].id == id && t.slots[i].taken;
        var j := if th == e.thread && e.Forget? && i > e.slot then i - 1 else i;
        assert s'.At(th).slots[j] == t.slots[i];
      }
    }
  }

  lemma InvIsKept(s: System, e: Step)
    requires Enabled(s, e) && Inv(s)
    ensures Inv(Next(s, e))
  {
    OrderedIsKept(s, e);
    DistinctIsKept(s, e);
    AllCountedIsKept(s, e);
    forall th ensures Bound(Next(s, e), th) && TakenIsOwned(Next(s, e), th) {
      BoundIsKept(s, e, th);
      TakenStaysOwned(s, e, th);
    }
    forall id ensures OwnedIsTaken(Next(s, e), id) {
      assert OwnedIsTaken(s, id);
      OwnedStaysTaken(s, e, id);
    }
  }

  lemma {:induction false} InvAlways(es: seq<Step>, s: System)
    requires Reaches(es, s)
    ensures Inv(s)
    decreases |es|
  {
    if es != [] {
      var last := es[|es| - 1];
      var s0 :| Reaches(es[..|es| - 1], s0) && Enabled(s0, last) && s == Next(s0, last);
      InvAlways(es[..|es| - 1], s0);
      InvIsKept(s0, last);
    }
  }

  // ----- One lock from beginning to end -----

  /** A thread without locks asks for a free one and takes it. */
  lemma FreeLockIsTaken(s: System, th: Tid, k: Lock) returns (held: System)
    requires Inv(s) && s.At(th) == Thread([], false) && s.registry.IdOf(k) !in s.owner
    ensures Enabled(s, Refer(th, k)) && var s1 := Next(s, Refer(th, k));
            Enabled(s1, Take(th, 0)) && held == Next(s1, Take(th, 0))
    ensures Inv(held) && held.At(th).Holds(k) && held.At(th) == Thread([Slot(k, s.registry.IdOf(k), true)], false)
    ensures held.owner == s.owner[s.registry.IdOf(k) := th] && held.registry == s.registry.Referenced(k)
    ensures forall u | u != th :: held.At(u) == s.At(u)
  {
    var s1 := Next(s, Refer(th, k));
    InvIsKept(s, Refer(th, k));
    assert s1.At(th).slots == [Slot(k, s.registry.IdOf(k), false)];
    held := Next(s1, Take(th, 0));
    InvIsKept(s1, Take(th, 0));
    assert held.At(th).slots[0].lock == k && held.At(th).slots[0].taken;
  }

  /** Unlocking gives the mutex back and forgets the reference. */
  lemma HeldLockIsGivenBack(s: System, th: Tid, k: Lock, id: Id) returns (end: System)
    requires Inv(s) && s.At(th) == Thread([Slot(k, id, true)], false)
    ensures Enabled(s, Turn(th)) && var s1 := Next(s, Turn(th));
            Enabled(s1, Drop(th, 0)) && var s2 := Next(s1, Drop(th, 0));
            Enabled(s2, Forget(th, 0)) && var s3 := Next(s2, Forget(th, 0));
            Enabled(s3, Rise(th)) && end == Next(s3, Rise(th))
    ensures end.At(th) == Thread([], false) && end.owner == s.owner - {id} && end.registry == s.registry.Dereferenced(k, id)
    ensures forall u | u != th :: end.At(u) == s.At(u)
  {
    var s1 := Next(s, Turn(th));
    var s2 := Next(s1, Drop(th, 0));
    assert s2.At(th).slots == [Slot(k, id, false)];
    var s3 := Next(s2, Forget(th, 0));
    assert s3.At(th).slots == [];
    end := Next(s3, Rise(th));
  }

  lemma ReferenceIsUndone(r: Registry, k: Lock)
    requires k in r.entries ==> r.entries[k] in r.refs && r.refs[r.entries[k]] > 0
    ensures var end := r.Referenced(k).Dereferenced(k, r.IdOf(k));
            end.entries == r.entries && (k in r.entries ==> end.refs == r.refs)
  {
    var end := r.Referenced(k).Dereferenced(k, r.IdOf(k));
    if k in r.entries {
      assert end.refs == r.refs;
    } else {
      assert end.entries == r.entries;
    }
  }

  /** Locking and unlocking leaves the entries, the owners and every thread as they were. */
  lemma LockAndUnlock(s: System, th: Tid, k: Lock) returns (end: System)
    requires Inv(s) && s.At(th) == Thread([], false) && s.registry.IdOf(k) !in s.owner
    ensures end.registry.entries == s.registry.entries && end.owner == s.owner && forall u :: end.At(u) == s.At(u)
    ensures k in s.registry.entries ==> end.registry.refs == s.registry.refs
  {
    var held := FreeLockIsTaken(s, th, k);
    end := HeldLockIsGivenBack(held, th, k, s.registry.IdOf(k));
    assert Counted(s, k);
    ReferenceIsUndone(s.registry, k);
    assert s.owner[s.registry.IdOf(k) := th] - {s.registry.IdOf(k)} == s.owner;
  }

  // ----- Results -----

  /** Two holders of one key are one thread. */
  lemma MutualExclusion(es: seq<Step>, s: System, k: Lock, a: Tid, b: Tid)
    requires Reaches(es, s) && s.At(a).Holds(k) && s.At(b).Holds(k)
    ensures a == b
  {
    InvAlways(es, s);
    assert Bound(s, a) && Bound(s, b) && TakenIsOwned(s, a) && TakenIsOwned(s, b);
  }

  /** An entry is in the map exactly while somebody uses it, and its count is the number of users. */
  lemma EntryWhileUsed(es: seq<Step>, s: System, k: Lock)
    requires Reaches(es, s)
    ensures k in s.registry.entries <==> exists th :: s.At(th).Uses(k)
    ensures k in s.registry.entries ==>
              s.registry.entries[k] in s.registry.refs && s.registry.refs[s.registry.entries[k]] == |Users(s, k)|
  {
    InvAlways(es, s);
    assert Counted(s, k);
    if k in s.registry.entries {
      var th :| th in Users(s, k);
      assert s.At(th).Uses(k);
    }
    forall th | s.At(th).Uses(k) ensures k in s.registry.entries {
      assert Bound(s, th);
    }
  }

  /** Nobody waits on a mutex that has been dropped from the map. */
  lemma NoWaiterIsStranded(es: seq<Step>, s: System, th: Tid, i: nat)
    requires Reaches(es, s) && s.At(th).Awaits(i)
    ensures var x := s.At(th).slots[i]; x.lock in s.registry.entries && s.registry.entries[x.lock] == x.id
  {
    InvAlways(es, s);
    assert Bound(s, th);
  }

  /** The thread is climbing, and the mutex it needs next belongs to somebody. */
  predicate Blocked(s: System, th: Tid, i: nat) {
    !s.At(th).falling && s.At(th).Awaits(i) && s.At(th).slots[i].id in s.owner
  }

  ghost predicate Stuck(s: System, th: Tid) {
    exists i: nat :: Blocked(s, th, i)
  }

  ghost predicate BlockedBy(s: System, th: Tid, holder: Tid) {
    exists i: nat :: Blocked(s, th, i) && s.owner[s.At(th).slots[i].id] == holder
  }

  /** Each thread of the chain is blocked by the next, and the last one is not blocked and holds something. */
  ghost predicate WaitChain(s: System, chain: seq<Tid>) {
    && |chain| > 1
    && !Stuck(s, chain[|chain| - 1])
    && s.At(chain[|chain| - 1]).slots != []
    && forall c | 0 <= c < |chain| - 1 :: BlockedBy(s, chain[c], chain[c + 1])
  }

  function Above(s: System, k: Lock): set<Lock> {
    set l | l in s.registry.entries && Before(k, l)
  }

  lemma {:induction false} EveryWaitEnds(s: System, th: Tid, i: nat) returns (chain: seq<Tid>)
    requires Inv(s) && Blocked(s, th, i)
    ensures WaitChain(s, chain) && chain[0] == th
    decreases |Above(s, s.At(th).slots[i].lock)|
  {
    var k, id := s.At(th).slots[i].lock, s.At(th).slots[i].id;
    var holder := s.owner[id];
    assert OwnedIsTaken(s, id) && Bound(s, th) && Bound(s, holder) && s.At(holder).Ordered();
    var h :| 0 <= h < |s.At(holder).slots| && s.At(holder).slots[h].id == id && s.At(holder).slots[h].taken;
    assert BlockedBy(s, th, holder);
    if j: nat :| Blocked(s, holder, j) {
      AboveShrinks(s, k, s.At(holder).slots[j].lock);
      var rest := EveryWaitEnds(s, holder, j);
      chain := [th] + rest;
      assert forall c | 0 < c < |chain| :: chain[c] == rest[c - 1];
    } else {
      chain := [th, holder];
    }
  }

  lemma AboveShrinks(s: System, k: Lock, l: Lock)
    requires Before(k, l) && l in s.registry.entries
    ensures |Above(s, l)| < |Above(s, k)|
  {
    BeforeIsStrict(l, l, l);
    forall m | m in Above(s, l) ensures m in Above(s, k) {
      BeforeIsStrict(k, l, m);
    }
    ProperSubsetIsSmaller(Above(s, l), Above(s, k), l);
  }

  /** No deadlock: behind every blocked thread there is one that is not, at the end of the chain of holders. */
  lemma NoDeadlock(es: seq<Step>, s: System, th: Tid)
    requires Reaches(es, s) && Stuck(s, th)
    ensures exists chain :: WaitChain(s, chain) && chain[0] == th
  {
    InvAlways(es, s);
    var i: nat :| Blocked(s, th, i);
    var chain := EveryWaitEnds(s, th, i);
  }
}
