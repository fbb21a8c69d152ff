/** Lock-protected resource admission: internal/resourcegov/governor.go. */
module Governor {
  import opened MapSums

  const MAX_UINT64: nat := 0xFFFF_FFFF_FFFF_FFFF

  type uint64 = x: int | 0 <= x <= MAX_UINT64

  function SaturatingAdd(a: uint64, b: uint64): uint64 {
    if MAX_UINT64 - a < b then MAX_UINT64 else a + b
  }

  /** Go's plain `+` on uint64. */
  function WrappingAdd(a: uint64, b: uint64): uint64 {
    (a + b) % (MAX_UINT64 + 1)
  }

  function Wrapped(n: nat): uint64 {
    n % (MAX_UINT64 + 1)
  }

  lemma WrapStep(n: nat, b: uint64)
    ensures WrappingAdd(Wrapped(n), b) == Wrapped(n + b)
  {}

  datatype Claim = Claim(id: string, project: string, ram: uint64, disk: uint64, heavy: bool)

  datatype Snapshot = Snapshot(
    cpuPercent: real, cpuKnown: bool, memoryLoadPercent: real, availableRAM: uint64, freeDisk: uint64,
    marDiskUsed: uint64, userInteractive: bool, ioPressurePercent: real, ioPressureKnown: bool)

  datatype Config = Config(
    maxCPUPercent: real, maxMemoryLoadPercent: real, maxIOPressurePercent: real,
    minFreeRAM: uint64, minFreeDisk: uint64, maxMARDisk: uint64,
    maxHeavyJobs: int, maxHeavyJobsPerProject: int, maxHeavyJobsInteractive: int)
  {
    predicate Validates() {
      && 0.0 < maxCPUPercent <= 100.0 && 0.0 < maxMemoryLoadPercent <= 100.0 && 0.0 <= maxIOPressurePercent <= 100.0
      && maxHeavyJobs > 0 && maxHeavyJobsPerProject > 0 && maxHeavyJobsInteractive >= 0
    }
  }

  datatype DenialReason =
    | DuplicateClaim | CPUPressure | MemoryPressure | MemoryReserve | IOPressure
    | HostDiskReserve | MARDiskBudget | HeavyCapacity | ProjectHeavyCapacity | InteractiveCapacity

  datatype Decision = Decision(
    allowed: bool, reasons: seq<DenialReason>, activeClaims: nat, activeHeavyJobs: nat, projectActiveHeavyJobs: nat,
    reservedRAM: uint64, reservedDisk: uint64)

  // ----- What a table of active claims holds -----

  function RAM(c: Claim): nat { c.ram }

  function Disk(c: Claim): nat { c.disk }

  function Heavy(c: Claim): nat { if c.heavy then 1 else 0 }

  function HeavyIn(project: string): Claim -> nat {
    (c: Claim) => if c.heavy && c.project == project then 1 else 0
  }

  /** No more heavy claims than the caps allow, in all and in each project. */
  ghost predicate Capped(cfg: Config, active: map<string, Claim>) {
    && Sum(active, Heavy) <= cfg.maxHeavyJobs
    && (forall p :: Sum(active, HeavyIn(p)) <= cfg.maxHeavyJobsPerProject)
  }

  /** The caps, and sums that a uint64 can hold. */
  ghost predicate Safe(cfg: Config, active: map<string, Claim>) {
    && Capped(cfg, active)
    && Sum(active, RAM) <= MAX_UINT64
    && Sum(active, Disk) <= MAX_UINT64
  }

  /** The admission rule in unbounded arithmetic. */
  ghost predicate Admissible(cfg: Config, s: Snapshot, active: map<string, Claim>, c: Claim) {
    && c.id !in active
    && cfg.minFreeRAM + Sum(active, RAM) + c.ram <= s.availableRAM
    && cfg.minFreeDisk + Sum(active, Disk) + c.disk <= s.freeDisk
    && (0 < cfg.maxMARDisk < MAX_UINT64 ==> s.marDiskUsed + Sum(active, Disk) + c.disk <= cfg.maxMARDisk)
    && (c.heavy ==>
          && (s.cpuKnown ==> s.cpuPercent < cfg.maxCPUPercent)
          && s.memoryLoadPercent < cfg.maxMemoryLoadPercent
          && (s.ioPressureKnown && cfg.maxIOPressurePercent > 0.0 ==> s.ioPressurePercent < cfg.maxIOPressurePercent)
          && Sum(active, Heavy) < cfg.maxHeavyJobs
          && Sum(active, HeavyIn(c.project)) < cfg.maxHeavyJobsPerProject
          && (s.userInteractive && cfg.maxHeavyJobsInteractive > 0 ==> Sum(active, Heavy) < cfg.maxHeavyJobsInteractive))
  }

  /** A sensor reading that the saturated sums cannot be mistaken for. */
  predicate BelowSaturation(s: Snapshot) {
    s.availableRAM < MAX_UINT64 && s.freeDisk < MAX_UINT64
  }

  datatype Totals = Totals(ram: uint64, disk: uint64, heavy: nat, projectHeavy: nat)

  /** The reason in front of the others, if it applies. */
  function When(denied: bool, reason: DenialReason, others: seq<DenialReason>): (rs: seq<DenialReason>)
    ensures reason in rs <==> denied || reason in others
    ensures forall r | r != reason :: r in rs <==> r in others
    ensures rs == [] <==> !denied && others == []
  {
    if denied then [reason] + others else others
  }

  /** The denial reasons of evaluateLocked, in its order, from the accumulated totals. */
  function Reasons(cfg: Config, s: Snapshot, c: Claim, duplicate: bool, t: Totals): seq<DenialReason> {
    var disk := SaturatingAdd(t.disk, c.disk);
    When(duplicate, DuplicateClaim,
    When(s.availableRAM < SaturatingAdd(cfg.minFreeRAM, SaturatingAdd(t.ram, c.ram)), MemoryReserve,
    When(s.freeDisk < SaturatingAdd(cfg.minFreeDisk, disk), HostDiskReserve,
    When(cfg.maxMARDisk > 0 && SaturatingAdd(s.marDiskUsed, disk) > cfg.maxMARDisk, MARDiskBudget,
      if c.heavy then HeavyReasons(cfg, s, t) else []))))
  }

  function HeavyReasons(cfg: Config, s: Snapshot, t: Totals): seq<DenialReason> {
    var interactive := s.userInteractive && cfg.maxHeavyJobsInteractive > 0 && t.heavy >= cfg.maxHeavyJobsInteractive;
    var io := s.ioPressureKnown && cfg.maxIOPressurePercent > 0.0 && s.ioPressurePercent >= cfg.maxIOPressurePercent;
    When(s.cpuKnown && s.cpuPercent >= cfg.maxCPUPercent, CPUPressure,
    When(s.memoryLoadPercent >= cfg.maxMemoryLoadPercent, MemoryPressure,
    When(io, IOPressure,
    When(t.heavy >= cfg.maxHeavyJobs, HeavyCapacity,
    When(t.projectHeavy >= cfg.maxHeavyJobsPerProject, ProjectHeavyCapacity,
    When(interactive, InteractiveCapacity, []))))))
  }

  ghost predicate TotalsOf(active: map<string, Claim>, project: string, t: Totals) {
    && t.ram == Wrapped(Sum(active, RAM))
    && t.disk == Wrapped(Sum(active, Disk))
    && t.heavy == Sum(active, Heavy)
    && t.projectHeavy == Sum(active, HeavyIn(project))
  }

  /** Machine arithmetic decides like unbounded arithmetic, below saturation and while no sum has wrapped. */
  lemma DecidesLikeUnboundedArithmetic(cfg: Config, s: Snapshot, active: map<string, Claim>, c: Claim, t: Totals)
    requires Safe(cfg, active) && BelowSaturation(s) && TotalsOf(active, c.project, t)
    ensures Reasons(cfg, s, c, c.id in active, t) == [] <==> Admissible(cfg, s, active, c)
  {}

  /** The caps hold whatever the sensor reports. */
  lemma AdmissionKeepsCaps(cfg: Config, s: Snapshot, active: map<string, Claim>, c: Claim, t: Totals)
    requires TotalsOf(active, c.project, t) && Reasons(cfg, s, c, c.id in active, t) == []
    requires Capped(cfg, active)
    ensures Capped(cfg, active[c.id := c])
  {
    SumWith(active, Heavy, c.id, c);
    forall p ensures Sum(active[c.id := c], HeavyIn(p)) <= cfg.maxHeavyJobsPerProject {
      SumWith(active, HeavyIn(p), c.id, c);
    }
  }

  /** What each reason says, in terms of the claims that are active. */
  ghost predicate ReasonsHold(cfg: Config, s: Snapshot, active: map<string, Claim>, c: Claim, rs: seq<DenialReason>) {
    && (DuplicateClaim in rs <==> c.id in active)
    && (CPUPressure in rs <==> c.heavy && s.cpuKnown && s.cpuPercent >= cfg.maxCPUPercent)
    && (MemoryPressure in rs <==> c.heavy && s.memoryLoadPercent >= cfg.maxMemoryLoadPercent)
    && (IOPressure in rs <==>
          c.heavy && s.ioPressureKnown && cfg.maxIOPressurePercent > 0.0 && s.ioPressurePercent >= cfg.maxIOPressurePercent)
    && (HeavyCapacity in rs <==> c.heavy && Sum(active, Heavy) >= cfg.maxHeavyJobs)
    && (ProjectHeavyCapacity in rs <==> c.heavy && Sum(active, HeavyIn(c.project)) >= cfg.maxHeavyJobsPerProject)
    && (InteractiveCapacity in rs <==>
          c.heavy && s.userInteractive && cfg.maxHeavyJobsInteractive > 0 && Sum(active, Heavy) >= cfg.maxHeavyJobsInteractive)
  }

  lemma HeavyReasonsGiven(cfg: Config, s: Snapshot, t: Totals)
    ensures var rs := HeavyReasons(cfg, s, t);
            && (forall r | r in rs :: r !in {DuplicateClaim, MemoryReserve, HostDiskReserve, MARDiskBudget})
            && (CPUPressure in rs <==> s.cpuKnown && s.cpuPercent >= cfg.maxCPUPercent)
            && (MemoryPressure in rs <==> s.memoryLoadPercent >= cfg.maxMemoryLoadPercent)
            && (IOPressure in rs <==>
                  s.ioPressureKnown && cfg.maxIOPressurePercent > 0.0 && s.ioPressurePercent >= cfg.maxIOPressurePercent)
            && (HeavyCapacity in rs <==> t.heavy >= cfg.maxHeavyJobs)
            && (ProjectHeavyCapacity in rs <==> t.projectHeavy >= cfg.maxHeavyJobsPerProject)
            && (InteractiveCapacity in rs <==>
                  s.userInteractive && cfg.maxHeavyJobsInteractive > 0 && t.heavy >= cfg.maxHeavyJobsInteractive)
  {}

  /** Which reasons are given does not depend on the others. */
  lemma ReasonsGiven(cfg: Config, s: Snapshot, c: Claim, duplicate: bool, t: Totals)
    ensures var rs, disk := Reasons(cfg, s, c, duplicate, t), SaturatingAdd(t.disk, c.disk);
            && (MemoryReserve in rs <==> s.availableRAM < SaturatingAdd(cfg.minFreeRAM, SaturatingAdd(t.ram, c.ram)))
            && (HostDiskReserve in rs <==> s.freeDisk < SaturatingAdd(cfg.minFreeDisk, disk))
            && (MARDiskBudget in rs <==> cfg.maxMARDisk > 0 && SaturatingAdd(s.marDiskUsed, disk) > cfg.maxMARDisk)
            && (DuplicateClaim in rs <==> duplicate)
            && forall r | r !in {DuplicateClaim, MemoryReserve, HostDiskReserve, MARDiskBudget} ::
                 r in rs <==> c.heavy && r in HeavyReasons(cfg, s, t)
  {
    HeavyReasonsGiven(cfg, s, t);
  }

  /** Every reason is given exactly when what it says is so; those of the reserves are the next lemma's. */
  lemma ReasonsAreTrue(cfg: Config, s: Snapshot, active: map<string, Claim>, c: Claim, t: Totals)
    requires TotalsOf(active, c.project, t)
    ensures ReasonsHold(cfg, s, active, c, Reasons(cfg, s, c, c.id in active, t))
  {
    ReasonsGiven(cfg, s, c, c.id in active, t);
    HeavyReasonsGiven(cfg, s, t);
  }

  /**
   * Each reserve is enforced exactly when the sensor reports less than 2^64-1 bytes, and the
   * budget exactly when it is set to less than that: at that value every claim passes, however
   * much is reserved already.
   */
  lemma ReserveIsEnforcedExactlyBelowSaturation(cfg: Config, s: Snapshot, active: map<string, Claim>, c: Claim, t: Totals)
    requires Sum(active, RAM) <= MAX_UINT64 && Sum(active, Disk) <= MAX_UINT64 && TotalsOf(active, c.project, t)
    ensures var rs, disk := Reasons(cfg, s, c, c.id in active, t), Sum(active, Disk) + c.disk;
            && (MemoryReserve !in rs <==> s.availableRAM == MAX_UINT64 || cfg.minFreeRAM + Sum(active, RAM) + c.ram <= s.availableRAM)
            && (HostDiskReserve !in rs <==> s.freeDisk == MAX_UINT64 || cfg.minFreeDisk + disk <= s.freeDisk)
            && (MARDiskBudget !in rs <==> cfg.maxMARDisk in {0, MAX_UINT64} || s.marDiskUsed + disk <= cfg.maxMARDisk)
  {
    ReasonsGiven(cfg, s, c, c.id in active, t);
  }

  lemma AdmissionKeepsSafe(cfg: Config, s: Snapshot, active: map<string, Claim>, c: Claim)
    requires Safe(cfg, active) && Admissible(cfg, s, active, c)
    ensures Safe(cfg, active[c.id := c])
  {
    SumWith(active, Heavy, c.id, c);
    SumWith(active, RAM, c.id, c);
    SumWith(active, Disk, c.id, c);
    forall p ensures Sum(active[c.id := c], HeavyIn(p)) <= cfg.maxHeavyJobsPerProject {
      SumWith(active, HeavyIn(p), c.id, c);
    }
  }

  lemma ReleaseKeepsCaps(cfg: Config, active: map<string, Claim>, id: string)
    requires Capped(cfg, active)
    ensures Capped(cfg, active - {id})
  {
    SumShrinks(active, Heavy, id);
    forall p ensures Sum(active - {id}, HeavyIn(p)) <= cfg.maxHeavyJobsPerProject {
      SumShrinks(active, HeavyIn(p), id);
    }
  }

  lemma ReleaseKeepsSafe(cfg: Config, active: map<string, Claim>, id: string)
    requires Safe(cfg, active)
    ensures Safe(cfg, active - {id})
  {
    ReleaseKeepsCaps(cfg, active, id);
    SumShrinks(active, RAM, id);
    SumShrinks(active, Disk, id);
  }

  class Governor {
    const cfg: Config
    var active: map<string, Claim>

    ghost var issued: set<Lease>  // every lease ever handed out

    constructor (cfg: Config)
      requires cfg.Validates()
      ensures Valid() && this.cfg == cfg && active == map[] && issued == {} && Safe(cfg, active)
    {
      this.cfg, active, issued := cfg, map[], {};
    }

    /** The heavy caps hold; the leases that are not released yet correspond one to one to the active claims. */
    ghost predicate Valid()
      reads this, issued
    {
      && Capped(cfg, active)
      && (forall l | l in issued && !l.released :: l.claimID in active)
      && (forall l, m | l in issued && m in issued && !l.released && !m.released && l.claimID == m.claimID :: l == m)
      && (forall id | id in active :: exists l :: l in issued && !l.released && l.claimID == id)
      && (forall l | l in issued :: l.governor == this)
    }

    method AddUp(project: string) returns (t: Totals)
      ensures TotalsOf(active, project, t)
    {
      t := Totals(0, 0, 0, 0);
      var rest := active;
      ghost var ram: nat, disk: nat := 0, 0;  // the sums as they would be without wrapping
      while rest != map[]
        invariant rest.Keys <= active.Keys && forall k | k in rest :: rest[k] == active[k]
        invariant ram + Sum(rest, RAM) == Sum(active, RAM) && t.ram == Wrapped(ram)
        invariant disk + Sum(rest, Disk) == Sum(active, Disk) && t.disk == Wrapped(disk)
        invariant t.heavy + Sum(rest, Heavy) == Sum(active, Heavy)
        invariant t.projectHeavy + Sum(rest, HeavyIn(project)) == Sum(active, HeavyIn(project))
        decreases |rest|
      {
        var k :| k in rest;
        var c := rest[k];
        SumWithout(rest, RAM, k);
        SumWithout(rest, Disk, k);
        SumWithout(rest, Heavy, k);
        SumWithout(rest, HeavyIn(project), k);
        WrapStep(ram, c.ram);
        WrapStep(disk, c.disk);
        ram, disk := ram + c.ram, disk + c.disk;
        t := t.(ram := WrappingAdd(t.ram, c.ram), disk := WrappingAdd(t.disk, c.disk));
        if c.heavy {
          t := t.(heavy := t.heavy + 1, projectHeavy := if c.project == project then t.projectHeavy + 1 else t.projectHeavy);
        }
        rest := rest - {k};
      }
    }

    method EvaluateLocked(s: Snapshot, c: Claim) returns (d: Decision)
      ensures d.allowed <==> d.reasons == []
      ensures exists t ::
                && TotalsOf(active, c.project, t)
                && d == Decision(d.allowed, Reasons(cfg, s, c, c.id in active, t), |active|, t.heavy, t.projectHeavy, t.ram, t.disk)
      ensures ReasonsHold(cfg, s, active, c, d.reasons)
      ensures Safe(cfg, active) && BelowSaturation(s) ==> (d.allowed <==> Admissible(cfg, s, active, c))
    {
      var t := AddUp(c.project);
      var reasons := Reasons(cfg, s, c, c.id in active, t);
      if Safe(cfg, active) && BelowSaturation(s) {
        DecidesLikeUnboundedArithmetic(cfg, s, active, c, t);
      }
      ReasonsAreTrue(cfg, s, active, c, t);
      d := Decision(reasons == [], reasons, |active|, t.heavy, t.projectHeavy, t.ram, t.disk);
    }

    /** The heavy caps hold whatever the sensor reports; the sums stay exact below its saturation. */
    method TryAcquire(s: Snapshot, c: Claim) returns (lease: Lease?, d: Decision)
      requires Valid()
      modifies this
      ensures Valid() && Capped(cfg, active) && (d.allowed <==> lease != null)
      ensures (d.allowed <==> d.reasons == []) && ReasonsHold(cfg, s, old(active), c, d.reasons)
      ensures lease == null ==> active == old(active) && issued == old(issued)
      ensures lease != null ==>
                && fresh(lease) && !lease.released && lease.claimID == c.id && lease.governor == this
                && c.id !in old(active) && active == old(active)[c.id := c] && issued == old(issued) + {lease}
      ensures Safe(cfg, old(active)) && BelowSaturation(s) ==>
                && Safe(cfg, active)
                && (d.allowed <==> Admissible(cfg, s, old(active), c))
    {
      d := EvaluateLocked(s, c);
      lease := null;
      if d.allowed {
        if Safe(cfg, active) && BelowSaturation(s) {
          AdmissionKeepsSafe(cfg, s, active, c);
        }
        ghost var t :| TotalsOf(active, c.project, t) && d.reasons == Reasons(cfg, s, c, c.id in active, t);
        AdmissionKeepsCaps(cfg, s, active, c, t);
        lease := Admit(c);
      }
    }

    method Admit(c: Claim) returns (lease: Lease)
      requires Valid() && c.id !in active && Capped(cfg, active[c.id := c])
      modifies this
      ensures Valid() && active == old(active)[c.id := c] && issued == old(issued) + {lease}
      ensures fresh(lease) && !lease.released && lease.claimID == c.id && lease.governor == this
    {
      lease := new Lease(this, c.id);
      active := active[c.id := c];
      issued := issued + {lease};
    }
  }

  class Lease {
    const governor: Governor
    const claimID: string
    var released: bool

    constructor (governor: Governor, claimID: string)
      ensures this.governor == governor && this.claimID == claimID && !released
    {
      this.governor, this.claimID, released := governor, claimID, false;
    }

    /** Releasing twice is releasing once: a later claim under the same id is never freed by an old lease. */
    method Release()
      requires governor.Valid() && this in governor.issued
      modifies this, governor`active
      ensures governor.Valid() && Capped(governor.cfg, governor.active) && released && governor.issued == old(governor.issued)
      ensures old(released) ==> governor.active == old(governor.active)
      ensures !old(released) ==> claimID in old(governor.active) && governor.active == old(governor.active) - {claimID}
      ensures Safe(governor.cfg, old(governor.active)) ==> Safe(governor.cfg, governor.active)
    {
      if !released {
        assert Safe(governor.cfg, governor.active) ==> Safe(governor.cfg, governor.active - {claimID}) by {
          if Safe(governor.cfg, governor.active) {
            ReleaseKeepsSafe(governor.cfg, governor.active, claimID);
          }
        }
        ReleaseKeepsCaps(governor.cfg, governor.active, claimID);
        released := true;
        governor.active := governor.active - {claimID};
      }
    }
  }
}
