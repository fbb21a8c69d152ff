/**
 * The governor's admission gate and the sensor's disk-usage cache, under every interleaving.
 *
 * TryAcquire holds the gate for reading across snapshot and admission; idle maintenance holds it
 * for writing. `clock` numbers the steps, `now` is the wall clock.
 */
module AdmissionGate {
  import opened Governor
  import opened Options

  type Thread = nat
  type Time = nat

  // ----- The cache and its three critical sections -----

  /** A scan of the MAR roots: when it was asked for, and the step at which it began. */
  datatype Scan = Scan(asked: Time, began: nat, beganAt: Time)

  datatype Cache = Cache(generation: nat, cached: Option<Scan>)
  {
    /** What a call that asks at time `t` may take from the cache. */
    function Lookup(ttl: Time, t: Time): Option<Scan> {
      if ttl > 0 && cached.Some? && t < cached.value.asked + ttl then cached else None
    }

    function Published(generation: nat, scan: Scan): Cache {
      if this.generation == generation then this.(cached := Some(scan)) else this
    }

    function Invalidated(): Cache {
      Cache(generation + 1, None)
    }
  }

  datatype Pc =
    | Entered
    | Asking(asked: Time)                         // in marDiskUsage, has read the clock
    | Scanning(generation: nat, scan: Scan, checked: nat)
    | Informed                                    // has a snapshot, not yet evaluated

  /** What one call of marDiskUsage returned: the step of its cache check, and the scan it reports. */
  datatype Report = Report(checked: nat, asked: Time, scan: Scan, hit: bool)

  datatype System = System(
    calls: map<Thread, Pc>,      // threads inside a snapshot
    gate: set<Thread>,           // those of them that hold the gate for reading
    writer: Option<Thread>,
    maintaining: bool,           // the writer's callback runs
    active: set<string>,
    cache: Cache,
    clock: nat,
    now: Time,
    invalidations: set<nat>,     // the steps at which the cache was invalidated
    reports: seq<Report>)

  datatype Step =
    | Enter(thread: Thread, gated: bool)  // TryAcquire takes the gate, Evaluate does not
    | ReadClock(thread: Thread)
    | CheckCache(thread: Thread)
    | FinishScan(thread: Thread)
    | AbortScan(thread: Thread)  // the scan fails or its context ends
    | Admit(thread: Thread, id: string)
    | Leave(thread: Thread)
    | LockForMaintenance(thread: Thread)
    | CheckIdle
    | EndMaintenance
    | Release(id: string)
    | Invalidate
    | Wait(time: Time)

  predicate Enabled(s: System, e: Step) {
    match e
    case Enter(th, gated) => th !in s.calls && (gated ==> s.writer.None?)
    case ReadClock(th) => th in s.calls && s.calls[th].Entered?
    case CheckCache(th) => th in s.calls && s.calls[th].Asking?
    case FinishScan(th) => th in s.calls && s.calls[th].Scanning?
    case AbortScan(th) => th in s.calls && s.calls[th].Scanning?
    case Admit(th, id) => th in s.gate && th in s.calls && s.calls[th].Informed? && id !in s.active
    case Leave(th) => th in s.calls && !s.calls[th].Scanning?
    case LockForMaintenance(th) => s.writer.None? && s.gate == {}
    case CheckIdle => s.writer.Some? && !s.maintaining
    case EndMaintenance => s.maintaining
    case Release(id) => id in s.active
    case Invalidate => true
    case Wait(_) => true
  }

  function Tick(s: System): System {
    s.(clock := s.clock + 1)
  }

  function Next(ttl: Time, s: System, e: Step): System
    requires Enabled(s, e)
  {
    match e
    case Enter(th, gated) => Tick(s.(calls := s.calls[th := Entered], gate := if gated then s.gate + {th} else s.gate))
    case ReadClock(th) => Tick(s.(calls := s.calls[th := Asking(s.now)]))
    case CheckCache(th) =>
      var t := s.calls[th].asked;
      var found := s.cache.Lookup(ttl, t);
      if found.Some? then
        Tick(s.(calls := s.calls[th := Informed], reports := s.reports + [Report(s.clock, t, found.value, true)]))
      else
        Tick(s.(calls := s.calls[th := Scanning(s.cache.generation, Scan(t, s.clock, s.now), s.clock)]))
    case FinishScan(th) =>
      var Scanning(generation, scan, checked) := s.calls[th];
      Tick(s.(calls := s.calls[th := Informed], cache := s.cache.Published(generation, scan),
              reports := s.reports + [Report(checked, scan.asked, scan, false)]))
    case AbortScan(th) => Tick(s.(calls := s.calls - {th}, gate := s.gate - {th}))
    case Admit(th, id) => Tick(s.(active := s.active + {id}, calls := s.calls - {th}, gate := s.gate - {th}))
    case Leave(th) => Tick(s.(calls := s.calls - {th}, gate := s.gate - {th}))
    case LockForMaintenance(th) => Tick(s.(writer := Some(th)))
    case CheckIdle => Tick(if s.active == {} then s.(maintaining := true) else s.(writer := None))
    case EndMaintenance => Tick(s.(maintaining := false, writer := None))
    case Release(id) => Tick(s.(active := s.active - {id}))
    case Invalidate => Tick(s.(cache := s.cache.Invalidated(), invalidations := s.invalidations + {s.clock}))
    case Wait(t) => Tick(s.(now := s.now + t))
  }

  function Initial(): System {
    System(map[], {}, None, false, {}, Cache(0, None), 0, 0, {}, [])
  }

  ghost predicate Reaches(ttl: Time, es: seq<Step>, s: System) {
    if es == [] then s == Initial()
    else
      var last := es[|es| - 1];
      exists s0 :: Reaches(ttl, es[..|es| - 1], s0) && Enabled(s0, last) && s == Next(ttl, s0, last)
  }

  // ----- Invariants -----

  ghost predicate Exclusive(s: System) {
    && (s.writer.Some? ==> s.gate == {})
    && (s.maintaining ==> s.writer.Some? && s.active == {})
  }

  /** The scan began after every invalidation so far. */
  ghost predicate Current(s: System, scan: Scan) {
    forall i | i in s.invalidations :: i < scan.began
  }

  ghost predicate Timely(scan: Scan) {
    scan.asked <= scan.beganAt
  }

  ghost predicate CacheIsCurrent(s: System) {
    && (forall i | i in s.invalidations :: i < s.clock)
    && (s.cache.cached.Some? ==> Current(s, s.cache.cached.value) && Timely(s.cache.cached.value))
  }

  ghost predicate ScanIsFair(s: System, th: Thread)
    requires th in s.calls
  {
    s.calls[th].Scanning? ==>
      && s.calls[th].generation <= s.cache.generation
      && (s.calls[th].generation == s.cache.generation <==> Current(s, s.calls[th].scan))
      && Timely(s.calls[th].scan)
      && s.calls[th].checked == s.calls[th].scan.began < s.clock
  }

  /** Whoever holds the gate is inside a call. */
  ghost predicate GateIsHeldInside(s: System) {
    s.gate <= s.calls.Keys
  }

  ghost predicate ScansAreFair(s: System) {
    && (forall th | th in s.calls :: ScanIsFair(s, th))
    && (forall th | th in s.calls :: s.calls[th].Asking? ==> s.calls[th].asked <= s.now)
  }

  /** The report is no older than any invalidation before its cache check, and a hit is younger than the TTL. */
  ghost predicate Truthful(ttl: Time, s: System, r: Report) {
    && (forall i | i in s.invalidations && i < r.checked :: i < r.scan.began)
    && (r.hit ==> ttl > 0 && r.asked < r.scan.beganAt + ttl)
    && r.checked < s.clock
  }

  ghost predicate ReportsAreTruthful(ttl: Time, s: System) {
    forall r | r in s.reports :: Truthful(ttl, s, r)
  }

  ghost predicate Inv(ttl: Time, s: System) {
    Exclusive(s) && GateIsHeldInside(s) && CacheIsCurrent(s) && ScansAreFair(s) && ReportsAreTruthful(ttl, s)
  }

  lemma ExclusiveIsKept(ttl: Time, s: System, e: Step)
    requires Enabled(s, e) && Exclusive(s)
    ensures Exclusive(Next(ttl, s, e))
  {}

  lemma GateStaysInside(ttl: Time, s: System, e: Step)
    requires Enabled(s, e) && GateIsHeldInside(s)
    ensures GateIsHeldInside(Next(ttl, s, e))
  {}

  lemma CacheStaysCurrent(ttl: Time, s: System, e: Step)
    requires Enabled(s, e) && CacheIsCurrent(s) && ScansAreFair(s)
    ensures CacheIsCurrent(Next(ttl, s, e))
  {
    if e.FinishScan? {
      assert ScanIsFair(s, e.thread);
    }
  }

  lemma ScansStayFair(ttl: Time, s: System, e: Step)
    requires Enabled(s, e) && CacheIsCurrent(s) && ScansAreFair(s)
    ensures ScansAreFair(Next(ttl, s, e))
  {
    var s' := Next(ttl, s, e);
    forall th | th in s'.calls ensures ScanIsFair(s', th) {
      assert th in s.calls ==> ScanIsFair(s, th);
    }
  }

  lemma ReportsStayTruthful(ttl: Time, s: System, e: Step)
    requires Enabled(s, e) && CacheIsCurrent(s) && ScansAreFair(s) && ReportsAreTruthful(ttl, s)
    ensures ReportsAreTruthful(ttl, Next(ttl, s, e))
  {
    var s' := Next(ttl, s, e);
    if e.FinishScan? {
      assert ScanIsFair(s, e.thread);
    }
    forall r | r in s'.reports ensures Truthful(ttl, s', r) {
      assert r in s.reports ==> Truthful(ttl, s, r);
    }
  }

  lemma {:induction false} InvAlways(ttl: Time, es: seq<Step>, s: System)
    requires Reaches(ttl, es, s)
    ensures Inv(ttl, s)
    decreases |es|
  {
    if es != [] {
      var last := es[|es| - 1];
      var s0 :| Reaches(ttl, es[..|es| - 1], s0) && Enabled(s0, last) && s == Next(ttl, s0, last);
      InvAlways(ttl, es[..|es| - 1], s0);
      ExclusiveIsKept(ttl, s0, last);
      GateStaysInside(ttl, s0, last);
      CacheStaysCurrent(ttl, s0, last);
      ScansStayFair(ttl, s0, last);
      ReportsStayTruthful(ttl, s0, last);
    }
  }

  // ----- Admission, maintenance and the cache get through -----

  /** The gate is given back with every call: without calls it is free, and maintenance can lock it unless it is locked. */
  lemma GateIsGivenBack(ttl: Time, es: seq<Step>, s: System, th: Thread)
    requires Reaches(ttl, es, s) && s.calls == map[]
    ensures s.gate == {} && (Enabled(s, LockForMaintenance(th)) <==> s.writer.None?)
  {
    InvAlways(ttl, es, s);
  }

  /** A call that admits holds the gate from its beginning on, which keeps maintenance out; it begins unless maintenance has locked it. */
  lemma CallTakesTheGate(ttl: Time, es: seq<Step>, s: System, th: Thread, gated: bool)
    requires Reaches(ttl, es, s) && th !in s.calls
    ensures Enabled(s, Enter(th, gated)) <==> !gated || s.writer.None?
    ensures Enabled(s, Enter(th, gated)) ==>
              var s' := Next(ttl, s, Enter(th, gated));
              && s' == s.(calls := s.calls[th := Entered], gate := s'.gate, clock := s.clock + 1)
              && (th in s'.gate <==> gated) && s'.gate - {th} == s.gate
              && (gated ==> forall w :: !Enabled(s', LockForMaintenance(w)))
  {
    InvAlways(ttl, es, s);
  }

  /** With a snapshot and the gate, exactly the claims that are not active can be admitted; a release undoes the admission. */
  lemma ReleaseUndoesAdmission(ttl: Time, s: System, th: Thread, id: string)
    requires th in s.gate && th in s.calls && s.calls[th].Informed?
    ensures Enabled(s, Admit(th, id)) <==> id !in s.active
    ensures Enabled(s, Admit(th, id)) ==>
              var s' := Next(ttl, s, Admit(th, id));
              Enabled(s', Release(id)) && Next(ttl, s', Release(id)) == s'.(active := s.active, clock := s'.clock + 1)
  {}

  /** Nothing that is cached survives an invalidation: the next check leads to a scan. */
  lemma InvalidationForcesAScan(ttl: Time, s: System, th: Thread)
    requires Enabled(s, CheckCache(th))
    ensures Enabled(s, Invalidate) && Next(ttl, Next(ttl, s, Invalidate), CheckCache(th)).calls[th].Scanning?
  {}

  /** Locked and idle, the callback runs; locked and not idle, it does not; either way the lock is given back, and nothing else changes. */
  lemma MaintenanceRunsIffIdle(ttl: Time, s: System, th: Thread)
    requires Enabled(s, LockForMaintenance(th)) && !s.maintaining
    ensures var s1 := Next(ttl, s, LockForMaintenance(th));
            Enabled(s1, CheckIdle) && var s2 := Next(ttl, s1, CheckIdle);
            && (s2.maintaining <==> s.active == {})
            && var end := if s2.maintaining then Next(ttl, s2, EndMaintenance) else s2;
               end == s.(clock := end.clock)
  {}

  /** A lock is never held for good: its holder checks, or runs its callback and ends. */
  lemma WriterGoesOn(ttl: Time, es: seq<Step>, s: System)
    requires Reaches(ttl, es, s) && s.writer.Some?
    ensures Enabled(s, CheckIdle) || Enabled(s, EndMaintenance)
  {}

  /** An admission makes exactly its claim active and gives the gate back; so do the other ways out of a call, without a claim. */
  lemma WaysOutOfACall(ttl: Time, s: System, th: Thread, e: Step)
    requires Enabled(s, e) && (e == Leave(th) || e == AbortScan(th) || (e.Admit? && e.thread == th))
    ensures var s' := Next(ttl, s, e);
            && s' == s.(calls := s.calls - {th}, gate := s.gate - {th}, active := s'.active, clock := s.clock + 1)
            && s'.active == if e.Admit? then s.active + {e.id} else s.active
  {}

  /** A call takes the cached value exactly if caching is on, there is one, and it was asked for less than the TTL before. */
  lemma HitIff(ttl: Time, s: System, th: Thread)
    requires Enabled(s, CheckCache(th))
    ensures var s', asked := Next(ttl, s, CheckCache(th)), s.calls[th].asked;
            if ttl > 0 && s.cache.cached.Some? && asked < s.cache.cached.value.asked + ttl then
              s'.calls[th].Informed? && s'.reports == s.reports + [Report(s.clock, asked, s.cache.cached.value, true)]
            else
              s'.calls[th].Scanning? && s'.calls[th].scan == Scan(asked, s.clock, s.now) && s'.reports == s.reports
  {}

  /**
   * A finished scan is reported, and it is what later calls find, exactly if nothing has been
   * invalidated since it began; otherwise the cache stays as it is.
   */
  lemma ScanIsPublishedIff(ttl: Time, es: seq<Step>, s: System, th: Thread)
    requires Reaches(ttl, es, s) && Enabled(s, FinishScan(th))
    ensures var s', scan := Next(ttl, s, FinishScan(th)), s.calls[th].scan;
            && s'.calls[th].Informed? && s'.reports == s.reports + [Report(s.calls[th].checked, scan.asked, scan, false)]
            && s'.cache.generation == s.cache.generation
            && s'.cache.cached == if forall i | i in s.invalidations :: i < scan.began then Some(scan) else s.cache.cached
  {
    InvAlways(ttl, es, s);
    assert ScanIsFair(s, th);
  }

  /** While idle maintenance runs nothing is active, and no step can make anything active. */
  lemma MaintenanceIsExclusive(ttl: Time, es: seq<Step>, s: System, e: Step)
    requires Reaches(ttl, es, s) && s.maintaining && Enabled(s, e)
    ensures s.active == {} && Next(ttl, s, e).active == {}
  {
    InvAlways(ttl, es, s);
  }

  /**
   * Whatever a call reports was scanned after every invalidation that precedes its cache check,
   * even when an older scan finishes later; what it takes from the cache was scanned less than
   * the TTL before the call.
   */
  lemma SnapshotsAreFresh(ttl: Time, es: seq<Step>, s: System, r: Report, i: nat)
    requires Reaches(ttl, es, s) && r in s.reports && i in s.invalidations
    ensures i < r.checked ==> i < r.scan.began
    ensures r.hit ==> r.asked < r.scan.beganAt + ttl
    ensures ttl == 0 ==> !r.hit
  {
    InvAlways(ttl, es, s);
    assert Truthful(ttl, s, r);
  }

  // ----- The sensor object -----

  class DiskUsageSensor {
    const ttl: Time
    var generation: nat
    var cachedAt: Option<Scan>
    var cachedBytes: uint64

    constructor (ttl: Time)
      ensures Value() == Cache(0, None) && this.ttl == ttl
    {
      this.ttl, generation, cachedAt, cachedBytes := ttl, 0, None, 0;
    }

    function Value(): Cache
      reads this
    {
      Cache(generation, cachedAt)
    }

    /** The first critical section of marDiskUsage. */
    method Check(asked: Time) returns (seen: nat, hit: bool, bytes: uint64)
      ensures seen == Value().generation && (hit <==> Value().Lookup(ttl, asked).Some?) && (hit ==> bytes == cachedBytes)
    {
      seen := generation;
      hit := ttl > 0 && cachedAt.Some? && asked - cachedAt.value.asked < ttl;
      bytes := if hit then cachedBytes else 0;
    }

    /** The second one. */
    method Publish(seen: nat, scan: Scan, total: uint64)
      modifies this
      ensures Value() == old(Value()).Published(seen, scan)
      ensures cachedBytes == if seen == old(generation) then total else old(cachedBytes)
    {
      if generation == seen {
        cachedAt, cachedBytes := Some(scan), total;
      }
    }

    method InvalidateMARDiskUsageCache()
      modifies this
      ensures Value() == old(Value()).Invalidated() && cachedBytes == 0
    {
      generation, cachedAt, cachedBytes := generation + 1, None, 0;
    }

    /** The scan's total is the true total, cut off at the largest uint64, in whatever order the files come. */
    static method AddUpFiles(sizes: seq<int>) returns (total: uint64)
      requires forall i | 0 <= i < |sizes| :: sizes[i] <= MAX_UINT64
      ensures total == if TotalSize(sizes) < MAX_UINT64 then TotalSize(sizes) else MAX_UINT64
    {
      total := 0;
      for i := 0 to |sizes|
        invariant total == if TotalSize(sizes[..i]) < MAX_UINT64 then TotalSize(sizes[..i]) else MAX_UINT64
      {
        assert sizes[..i + 1][..i] == sizes[..i];
        if sizes[i] > 0 {
          total := SaturatingAdd(total, sizes[i]);
        }
      }
      assert sizes[..|sizes|] == sizes;
    }
  }

  function TotalSize(sizes: seq<int>): nat {
    if sizes == [] then 0
    else TotalSize(sizes[..|sizes| - 1]) + (if sizes[|sizes| - 1] > 0 then sizes[|sizes| - 1] else 0)
  }
}
