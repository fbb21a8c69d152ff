/** The supervisor's methods, against a host whose calls may fail and whose processes move in between. */
module Supervisor {
  import opened Containment

  /** What becomes of one call: `before` is what other threads and processes do first. */
  datatype Outcome = Outcome(before: seq<Call>, ok: bool, done: bool)

  predicate Initial(x: Attempt) {
    x == NewAttempt()
  }

  /** No process of the attempt runs or can be resumed inside the job. */
  predicate Still(x: Attempt) {
    x.root in {NotStarted, SuspendedOutside, Dead} && x.children == 0
  }

  /** What others can do to a root that has not been assigned: it stays as it is until it exits. */
  ghost predicate RootOnlyExits(before: Attempt, after: Attempt, seen: seq<Call>) {
    && (RootExits in seen ==> after.root == Dead)
    && (before.root == NotStarted ==> RootExits !in seen)
    && (before.root in {NotStarted, SuspendedOutside} && RootExits !in seen ==> after.root == before.root)
    && (before.root == Dead ==> after.root == Dead)
    && (after.root == SuspendedOutside ==> before.root == SuspendedOutside)
    && (Still(before) ==> Still(after))
  }

  lemma OneOtherStep(rooted: bool, x: Attempt, c: Call)
    requires Sane(x) && Can(rooted, x, c) && !Host.IsLaunch(c) && !c.Crash?
    ensures RootOnlyExits(x, Do(x, c), [c])
  {}

  lemma OneMoreStep(a: Attempt, b: Attempt, c: Attempt, seen: seq<Call>, more: Call)
    requires RootOnlyExits(a, b, seen) && RootOnlyExits(b, c, [more])
    ensures RootOnlyExits(a, c, seen + [more])
  {}

  class Host {
    const rooted: bool
    const outcome: nat -> Outcome
    var x: Attempt
    var calls: nat
    ghost var log: seq<Call>  // every call so far

    constructor (rooted: bool, outcome: nat -> Outcome)
      ensures Valid() && x == NewAttempt() && this.rooted == rooted && this.outcome == outcome && calls == 0 && log == []
    {
      this.rooted, this.outcome := rooted, outcome;
      x, calls, log := NewAttempt(), 0, [];
    }

    /** The attempt is where a run of the machine has led it. */
    ghost predicate Valid()
      reads this
    {
      (forall start {:trigger Initial(start)} | Initial(start) :: Runs(rooted, start, log, x)) && Sane(x)
    }

    /** None of these operating-system calls reports an error. */
    ghost predicate AllOk(first: nat, end: nat) {
      forall k: nat {:trigger outcome(k)} | first <= k < end :: outcome(k).ok
    }

    /** And none of them leaves undone what it should do besides. */
    ghost predicate AllDone(first: nat, end: nat) {
      forall k: nat {:trigger outcome(k)} | first <= k < end :: outcome(k).ok && outcome(k).done
    }

    method Perform(c: Call)
      requires Valid() && Can(rooted, x, c)
      modifies `x, `log
      ensures Valid() && x == Do(old(x), c) && log == old(log) + [c]
    {
      forall start | Initial(start) ensures Runs(rooted, start, log + [c], Do(x, c)) {
        RunsExtend(rooted, start, log, x, c);
      }
      SaneIsKept(rooted, x, c);
      x, log := Do(x, c), log + [c];
    }

    /** Others move; `recovering` tells whose handles they may not touch. */
    method Others(recovering: bool) returns (o: Outcome)
      requires Valid() && (recovering ==> x.recoverers > 0)
      modifies `x, `calls, `log
      ensures Valid() && old(log) <= log && (old(x.marker) ==> x.marker)
      ensures if recovering then x.recoverers == old(x.recoverers) else x.launch == old(x.launch) && x.own == old(x.own)
      ensures Ended(old(x)) ==> Ended(x)
      ensures o == outcome(old(calls)) && calls == old(calls) + 1
      ensures !recovering ==> RootOnlyExits(old(x), x, log[|old(log)|..])
    {
      o := outcome(calls);
      calls := calls + 1;
      Happen(o.before, recovering);
    }

    method Happen(cs: seq<Call>, recovering: bool)
      requires Valid() && (recovering ==> x.recoverers > 0)
      modifies `x, `log
      ensures Valid() && old(log) <= log && (old(x.marker) ==> x.marker)
      ensures if recovering then x.recoverers == old(x.recoverers) else x.launch == old(x.launch) && x.own == old(x.own)
      ensures Ended(old(x)) ==> Ended(x)
      ensures !recovering ==> RootOnlyExits(old(x), x, log[|old(log)|..])
    {
      var i := 0;
      while i < |cs|
        invariant 0 <= i <= |cs|
        invariant Valid() && old(log) <= log && (old(x.marker) ==> x.marker)
        invariant if recovering then x.recoverers == old(x.recoverers) else x.launch == old(x.launch) && x.own == old(x.own)
        invariant Ended(old(x)) ==> Ended(x)
        invariant !recovering ==> RootOnlyExits(old(x), x, log[|old(log)|..])
      {
        var c := cs[i];
        if Can(rooted, x, c) && (if recovering then !IsRecovery(c) else !IsLaunch(c)) && !c.Crash? {
          PerformOther(c, recovering, old(x), |old(log)|);
        }
        i := i + 1;
      }
    }

    method PerformOther(c: Call, recovering: bool, ghost first: Attempt, ghost n: nat)
      requires Valid() && (recovering ==> x.recoverers > 0) && n <= |log|
      requires Can(rooted, x, c) && (if recovering then !IsRecovery(c) else !IsLaunch(c)) && !c.Crash?
      requires !recovering ==> RootOnlyExits(first, x, log[n..])
      modifies `x, `log
      ensures Valid() && log == old(log) + [c] && (old(x.marker) ==> x.marker)
      ensures if recovering then x.recoverers == old(x.recoverers) else x.launch == old(x.launch) && x.own == old(x.own)
      ensures Ended(old(x)) ==> Ended(x)
      ensures !recovering ==> RootOnlyExits(first, x, log[n..])
    {
      if Ended(x) {
        EndedIsKept(rooted, x, c);
      }
      if !recovering {
        OneOtherStep(rooted, x, c);
        OneMoreStep(first, x, Do(x, c), log[n..], c);
        assert (log + [c])[n..] == log[n..] + [c];
      }
      Perform(c);
    }

    static predicate IsLaunch(c: Call) {
      || c.CreateJob? || c.StartSuspended? || c.AssignProcess? || c.WriteMarker? || c.ResumeProcess? || c.CheckContained?
      || c.CleanTerminate? || c.CleanKill? || c.CleanClose?
      || c.TreeTerminate? || c.TreeQuiet? || c.TreeTimeout? || c.TreeClose? || c.TreeCloseUnverified?
    }

    static predicate IsRecovery(c: Call) {
      c.RecoverMissingJob? || c.RecoverOpen? || c.RecoverTerminate? || c.RecoverQuiet? || c.RecoverGiveUp?
    }

    method CreateJobObject() returns (ok: bool)
      requires Valid() && x.launch == Begun
      modifies `x, `calls, `log
      ensures Valid() && old(log) <= log
      ensures x.launch == if ok then Created else Over
      ensures ok == outcome(old(calls)).ok && calls == old(calls) + 1 && RootExits !in log[|old(log)|..]
    {
      var o := Others(false);
      Perform(CreateJob(o.ok));
      ok := o.ok;
    }

    method StartSuspendedProcess() returns (ok: bool)
      requires Valid() && x.launch == Created
      modifies `x, `calls, `log
      ensures Valid() && old(log) <= log
      ensures x.launch == if ok then Started else Over
      ensures ok == outcome(old(calls)).ok && calls == old(calls) + 1 && RootExits !in log[|old(log)|..]
      ensures ok ==> x.root == SuspendedOutside
    {
      var o := Others(false);
      Perform(StartSuspended(o.ok, o.done));
      ok := o.ok;
    }

    /** The process must still be alive when it is assigned, which is entry `entered` of the log. */
    method Assign() returns (ok: bool, ghost entered: nat)
      requires Valid() && x.launch == Started
      modifies `x, `calls, `log
      ensures Valid() && old(log) <= log
      ensures x.launch == if ok then Assigned else Cleaning
      ensures |old(log)| <= entered < |log| && log[entered].AssignProcess? && calls == old(calls) + 1
      ensures ok <==> outcome(old(calls)).ok && old(x.root) == SuspendedOutside && RootExits !in log[|old(log)|..entered]
    {
      var o := Others(false);
      var alive := x.root == SuspendedOutside;
      ok, entered := o.ok && alive, |log|;
      Perform(AssignProcess((o.ok || o.done) && alive, ok));
      assert log[|old(log)|..entered] == log[..entered][|old(log)|..];
    }

    method WriteAssignedMarker() returns (ok: bool)
      requires Valid() && x.launch == Assigned
      modifies `x, `calls, `log
      ensures Valid() && old(log) <= log
      ensures x.launch == (if ok then Marked else Cleaning) && (ok && rooted ==> x.marker)
      ensures ok == outcome(old(calls)).ok && calls == old(calls) + 1
    {
      var o := Others(false);
      Perform(WriteMarker(rooted && (o.ok || o.done), o.ok));
      ok := o.ok;
    }

    method Resume() returns (ok: bool)
      requires Valid() && x.launch == Marked
      modifies `x, `calls, `log
      ensures Valid() && old(log) <= log
      ensures x.launch == (if ok then Resumed else Cleaning) && (old(x.marker) ==> x.marker)
      ensures ok == outcome(old(calls)).ok && calls == old(calls) + 1
    {
      var o := Others(false);
      Perform(ResumeProcess(o.ok || o.done, o.ok));
      ok := o.ok;
    }

    /**
     * A launch succeeds exactly if no call reports an error and the process lives until it is
     * assigned. One that fails leaves no process that is alive without a handle to kill it through.
     */
    method StartContainedJob() returns (started: bool, ghost entered: nat)
      requires Valid() && x.launch == Begun
      modifies `x, `calls, `log
      ensures Valid() && old(log) <= log
      ensures started ==> x.launch == Resumed && x.own && Contained(x) && (rooted ==> x.marker)
      ensures !started ==> x.launch == Over && (x.Live() ==> x.JobFound())
      ensures calls > old(calls) && |old(log)| <= entered <= |log|
      ensures AllOk(old(calls), calls) ==> entered < |log| && log[entered].AssignProcess?
      ensures started <==> AllOk(old(calls), calls) && RootExits !in log[|old(log)|..entered]
    {
      var ok := CreateJobObject();
      entered := |log|;
      if !ok {
        assert !outcome(old(calls)).ok;
        return false, entered;
      }
      started, entered := StartAndAssign(|old(log)|);
      if !started { return; }
      started := MarkAndResume();
    }

    /** The process is started suspended and assigned; on an error everything is cleaned up. */
    method StartAndAssign(ghost n: nat) returns (ok: bool, ghost entered: nat)
      requires Valid() && x.launch == Created && n <= |log| && RootExits !in log[n..]
      modifies `x, `calls, `log
      ensures Valid() && old(log) <= log && calls > old(calls)
      ensures if ok then x.launch == Assigned else x.launch == Over && (x.Live() ==> x.JobFound())
      ensures |old(log)| <= entered <= |log|
      ensures AllOk(old(calls), calls) ==> entered < |log| && log[entered].AssignProcess?
      ensures ok <==> AllOk(old(calls), calls) && RootExits !in log[n..entered]
    {
      ok := StartSuspendedProcess();
      entered := |log|;
      if !ok {
        assert !outcome(old(calls)).ok;
        return;
      }
      ghost var middle := log;
      assert log[n..] == old(log)[n..] + log[|old(log)|..];
      ok, entered := Assign();
      assert log[n..entered] == middle[n..] + log[|middle|..entered];
      if !ok {
        ghost var seen := log;
        Cleanup();
        assert log[n..entered] == seen[n..entered] && log[entered] == seen[entered];
        assert AllOk(old(calls), calls) ==> outcome(old(calls) + 1).ok;
      }
    }

    method MarkAndResume() returns (ok: bool)
      requires Valid() && x.launch == Assigned
      modifies `x, `calls, `log
      ensures Valid() && old(log) <= log && calls > old(calls)
      ensures ok ==> x.launch == Resumed && x.own && Contained(x) && (rooted ==> x.marker)
      ensures !ok ==> x.launch == Over && (x.Live() ==> x.JobFound())
      ensures ok <==> AllOk(old(calls), calls)
    {
      ok := WriteAssignedMarker();
      if ok { ok := Resume(); }
      if !ok {
        ghost var n := calls;
        assert !outcome(n - 1).ok;
        Cleanup();
      }
    }

    /** Kill what can be killed, then close the handle, whatever fails; without errors nothing is left. */
    method Cleanup()
      requires Valid() && x.launch == Cleaning
      modifies `x, `calls, `log
      ensures Valid() && old(log) <= log && calls == old(calls) + 3
      ensures x.launch == Over && (x.Live() ==> x.JobFound())
      ensures AllOk(old(calls), calls) ==> !x.own && (Ended(x) || x.root == NotStarted)
    {
      var o := Others(false);
      if o.ok { Perform(CleanTerminate); }
      assert AllOk(old(calls), old(calls) + 3) ==> o.ok && Still(x);
      KillProcess();
      CloseJob();
    }

    method KillProcess()
      requires Valid() && x.launch == Cleaning
      modifies `x, `calls, `log
      ensures Valid() && old(log) <= log && calls == old(calls) + 1
      ensures x.launch == Cleaning
      ensures Still(old(x)) && outcome(old(calls)).ok ==> Ended(x) || x.root == NotStarted
    {
      var o := Others(false);
      if o.ok && x.root != NotStarted { Perform(CleanKill); }
    }

    method CloseJob()
      requires Valid() && x.launch == Cleaning
      modifies `x, `calls, `log
      ensures Valid() && old(log) <= log && calls == old(calls) + 1
      ensures x.launch == Over && (outcome(old(calls)).ok ==> !x.own)
      ensures (Ended(old(x)) ==> Ended(x)) && (old(x.root) == NotStarted ==> x.root == NotStarted)
    {
      var o := Others(false);
      Perform(CleanClose(o.ok));
    }

    /** A tree exactly if no call reports an error, the containment check among them, and the process lives until it is assigned. */
    method Start() returns (tree: Tree?, ghost entered: nat)
      requires Valid() && x.launch == Begun
      modifies `x, `calls, `log
      ensures Valid() && old(log) <= log
      ensures tree != null ==> fresh(tree) && tree.host == this && tree.Valid() && !tree.closed && (rooted ==> x.marker)
      ensures tree == null ==> x.launch == Over && (x.Live() ==> x.JobFound())
      ensures calls > old(calls) && |old(log)| <= entered <= |log|
      ensures AllOk(old(calls), calls) ==> entered < |log| && log[entered].AssignProcess?
      ensures tree != null <==> AllOk(old(calls), calls) && RootExits !in log[|old(log)|..entered]
    {
      tree := null;
      var started;
      started, entered := StartContainedJob();
      if !started { return; }
      ghost var seen := log;
      var contained := ConfirmContained();
      SamePart(seen, log, |old(log)|, entered);
      if !contained { return; }
      tree := new Tree(this);
    }

    static lemma SamePart(seen: seq<Call>, log: seq<Call>, m: nat, n: nat)
      requires seen <= log && m <= n <= |seen|
      ensures log[m..n] == seen[m..n]
    {}

    /** A worker that is not seen in its job is cleaned up. */
    method ConfirmContained() returns (contained: bool)
      requires Valid() && x.launch == Resumed
      modifies `x, `calls, `log
      ensures Valid() && old(log) <= log && calls > old(calls) && (contained && old(x.marker) ==> x.marker)
      ensures contained ==> outcome(old(calls)).ok && calls == old(calls) + 1 && x.launch == Supervised && x.own
      ensures !contained ==> !outcome(old(calls)).ok && x.launch == Over && (x.Live() ==> x.JobFound())
    {
      var o := Others(false);
      Perform(CheckContained(o.ok));
      contained := o.ok;
      if !contained { Cleanup(); }
    }

    /** Polls the job's counter until it reads zero, a query fails or the deadline passes. */
    method WaitForNoActive(polls: nat, recovering: bool) returns (quiet: bool)
      requires Valid() && (if recovering then x.recoverers > 0 else x.launch == Supervised)
      modifies `x, `calls, `log
      ensures Valid() && old(log) <= log && (old(x.marker) ==> x.marker)
      ensures if recovering then x.recoverers == old(x.recoverers) else x.launch == Supervised
      ensures quiet ==> Ended(x)
      ensures calls > old(calls) && (quiet ==> AllOk(old(calls), calls))
      ensures AllOk(old(calls), calls) ==> quiet || !x.Quiet()
      ensures Ended(old(x)) ==> Ended(x) && (quiet <==> AllOk(old(calls), calls))
    {
      var left := polls;
      while true
        invariant Valid() && old(log) <= log && (old(x.marker) ==> x.marker)
        invariant if recovering then x.recoverers == old(x.recoverers) else x.launch == Supervised
        invariant calls >= old(calls) && AllOk(old(calls), calls) && (Ended(old(x)) ==> Ended(x))
        decreases left
      {
        var o := Others(recovering);
        if !o.ok { return false; }
        if x.Quiet() { return true; }
        if left == 0 { return false; }
        left := left - 1;
      }
    }

    /**
     * A proof only for a marked attempt, and only when nothing of it is left; every handle opened
     * is closed again. A marked attempt gets one whenever no call goes wrong, and without one the
     * recovery reports a failure.
     */
    method RecoverTermination(polls: nat) returns (proof: bool, failed: bool)
      requires Valid() && x.recoverers == 0
      modifies `x, `calls, `log
      ensures Valid() && old(log) <= log && x.recoverers == 0 && calls >= old(calls)
      ensures proof ==> !failed && rooted && x.marker && x.proof && Ended(x)
      ensures !rooted || !old(x.marker) ==> !proof && log == old(log)
      ensures !proof && !failed <==> !rooted || !old(x.marker)
      ensures proof ==> AllOk(old(calls), calls)
      ensures rooted && old(x.marker) && AllDone(old(calls), calls) ==> proof
    {
      if !rooted { return false, false; }
      if !x.marker { return false, false; }
      var o := outcome(calls);
      calls := calls + 1;
      if !o.ok { return false, true; }  // unreadable or not the marker of this attempt
      if !x.JobFound() {
        Perform(RecoverMissingJob);
        return true, false;
      }
      o := outcome(calls);
      calls := calls + 1;
      if !o.ok { return false, true; }
      Perform(RecoverOpen);
      proof := TerminateOpened(polls);
      failed := !proof;
    }

    method TerminateOpened(polls: nat) returns (proof: bool)
      requires Valid() && x.recoverers == 1 && x.marker
      modifies `x, `calls, `log
      ensures Valid() && old(log) <= log && x.recoverers == 0 && x.marker
      ensures proof ==> x.proof && Ended(x)
      ensures calls > old(calls) && (proof ==> AllOk(old(calls), calls)) && (AllDone(old(calls), calls) ==> proof)
      ensures proof ==> calls >= old(calls) + 2  // the counter is read again after the termination
    {
      proof := TerminateIfActive();
      if proof {
        proof := WaitForNoActive(polls, true);
      }
      if proof {
        Perform(RecoverQuiet);
      } else {
        Perform(RecoverGiveUp);
      }
    }

    /** Limits and counters must be readable, and the job must kill on close. */
    method TerminateIfActive() returns (ok: bool)
      requires Valid() && x.recoverers == 1 && x.marker
      modifies `x, `calls, `log
      ensures Valid() && old(log) <= log && x.recoverers == 1 && x.marker
      ensures calls == old(calls) + 1 && (ok ==> Ended(x) && outcome(old(calls)).ok)
      ensures outcome(old(calls)).ok && outcome(old(calls)).done ==> ok
    {
      var o := Others(true);
      if !o.ok { return false; }
      if x.Quiet() { return true; }
      if o.done { Perform(RecoverTerminate); }
      ok := o.done;
    }
  }

  class Tree {
    const host: Host
    var closed: bool
    var proof: bool

    constructor (host: Host)
      requires host.Valid() && host.x.launch == Supervised
      ensures this.host == host && Valid() && !closed && !proof
    {
      this.host, closed, proof := host, false, false;
    }

    /** An open tree supervises the launch; a tree with a proof is closed, and nothing of the attempt is left. */
    ghost predicate Valid()
      reads this, host
    {
      && host.Valid()
      && (closed <==> host.x.launch == Over)
      && (!closed ==> host.x.launch == Supervised)
      && (proof ==> closed && Ended(host.x))
    }

    /** An open tree is confirmed exactly if none of the calls made on the way reports an error. */
    method TerminateAndConfirm(polls: nat) returns (confirmed: bool)
      requires Valid()
      modifies this, host`x, host`calls, host`log
      ensures Valid() && old(host.log) <= host.log && confirmed == proof
      ensures old(closed) ==> closed && confirmed == old(proof) && host.log == old(host.log)
      ensures !old(closed) ==> closed == confirmed && (confirmed ==> host.x.proof && !host.x.own)
      ensures !old(closed) && confirmed ==> TreeTerminate in host.log
      ensures host.calls >= old(host.calls) && (!old(closed) ==> (confirmed <==> host.AllOk(old(host.calls), host.calls)))
    {
      if proof { return true; }
      if closed { return false; }
      var o := host.Others(false);
      if !o.ok { return false; }
      host.Perform(TreeTerminate);
      assert host.log[|host.log| - 1] == TreeTerminate;
      confirmed := WaitAndClose(polls);
    }

    /** As above, unless processes of the tree are still active at the last poll. */
    method WaitAndConfirm(polls: nat) returns (confirmed: bool)
      requires Valid()
      modifies this, host`x, host`calls, host`log
      ensures Valid() && old(host.log) <= host.log && confirmed == proof
      ensures old(closed) ==> closed && confirmed == old(proof) && host.log == old(host.log)
      ensures !old(closed) ==> closed == confirmed && (confirmed ==> host.x.proof && !host.x.own)
      ensures host.calls >= old(host.calls)
      ensures !old(closed) ==>
                && (confirmed ==> host.AllOk(old(host.calls), host.calls))
                && (host.AllOk(old(host.calls), host.calls) ==> confirmed || !host.x.Quiet())
    {
      if proof { return true; }
      if closed { return false; }
      confirmed := WaitAndClose(polls);
    }

    /** What both ways to a proof share: zero active processes, the parent waited for, the handle closed. */
    method WaitAndClose(polls: nat) returns (confirmed: bool)
      requires Valid() && !closed && !proof
      modifies this, host`x, host`calls, host`log
      ensures Valid() && old(host.log) <= host.log && confirmed == proof && closed == confirmed
      ensures confirmed ==> host.x.proof && !host.x.own
      ensures host.calls > old(host.calls) && (confirmed ==> host.AllOk(old(host.calls), host.calls))
      ensures host.AllOk(old(host.calls), host.calls) ==> confirmed || !host.x.Quiet()
      ensures Ended(old(host.x)) && host.AllOk(old(host.calls), host.calls) ==> confirmed
    {
      var quiet := host.WaitForNoActive(polls, false);
      if !quiet { return false; }
      host.Perform(TreeQuiet);
      confirmed := AwaitParentAndClose();
    }

    method AwaitParentAndClose() returns (confirmed: bool)
      requires host.Valid() && host.x.launch == Confirmed && !closed && !proof
      modifies this, host`x, host`calls, host`log
      ensures Valid() && old(host.log) <= host.log && confirmed == proof && closed == confirmed
      ensures confirmed ==> host.x.proof && !host.x.own
      ensures host.calls > old(host.calls) && (confirmed <==> host.AllOk(old(host.calls), host.calls))
      ensures confirmed ==> host.calls == old(host.calls) + 2  // the wait for the parent and the close
    {
      var o := host.Others(false);
      if !o.ok {
        host.Perform(TreeTimeout);
        return false;
      }
      o := host.Others(false);
      host.Perform(TreeClose(o.ok));
      if !o.ok { return false; }
      closed, proof := true, true;
      confirmed := true;
    }

    /** Emergency cleanup: never a proof. */
    method CloseUnverified()
      requires Valid()
      modifies this, host`x, host`calls, host`log
      ensures Valid() && closed && proof == old(proof) && old(host.log) <= host.log
      ensures old(closed) ==> host.log == old(host.log)
      ensures !old(closed) ==> |host.log| > 0 && host.log[|host.log| - 1].TreeCloseUnverified?
    {
      if closed { return; }
      var o := host.Others(false);
      host.Perform(TreeCloseUnverified(o.ok));
      closed := true;
    }
  }
}
