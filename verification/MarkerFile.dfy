/**
 * The durable ASSIGNED marker: writeAssignedMarker and readAssignedMarker of
 * internal/processctl/recovery_windows.go, one file-system call at a time. The daemon may die
 * between any two calls, so every content that the marker's name ever has is recorded.
 */
module MarkerFile {
  import opened Options

  datatype Marker = Marker(attempt: string, jobName: string)

  /** What a file holds: bytes that may be torn by a crash, or a marker that is on disk. */
  datatype Content = Unsynced | Synced(marker: Marker)

  /** Whether a call reports success, and whether it takes effect when it does not. */
  datatype Fate = Fate(ok: bool, done: bool)

  datatype Reading = Absent | Found(marker: Marker) | Invalid

  function JobName(attempt: string): string {
    "MAR-attempt-" + attempt
  }

  /** What a reader makes of the file: only a whole marker of this very attempt counts. */
  function Recognized(file: Option<Content>, attempt: string): Reading {
    match file
    case None => Absent
    case Some(Synced(m)) => if m == Marker(attempt, JobName(attempt)) then Found(m) else Invalid
    case Some(Unsynced) => Invalid
  }

  class Directory {
    const fate: nat -> Fate
    var file: Option<Content>  // under the marker's name
    var temp: Option<Content>  // under the temporary name of this process
    var calls: nat

    ghost var shown: seq<Option<Content>>  // `file` after each call: what a crash there leaves behind

    constructor (file: Option<Content>, fate: nat -> Fate)
      ensures this.file == file && this.fate == fate && temp == None && calls == 0 && shown == []
    {
      this.file, this.fate, temp, calls, shown := file, fate, None, 0, [];
    }

    /** The calls from `m` up to `n` succeed. */
    ghost predicate Ok(m: nat, n: nat) {
      forall k: nat {:trigger fate(k)} | m <= k < n :: fate(k).ok
    }

    /** At most `m` has appeared under the marker's name, and that once and for all. */
    twostate predicate OnlyAppears(m: Marker)
      reads this
    {
      && (file == old(file) || (old(file) == None && file == Some(Synced(m))))
      && calls >= old(calls) && old(shown) <= shown
      && forall i | |old(shown)| <= i < |shown| :: shown[i] == old(file) || shown[i] == file
    }

    method Call() returns (f: Fate)
      modifies `calls, `shown
      ensures f == fate(old(calls)) && calls == old(calls) + 1 && shown == old(shown) + [file]
    {
      f := fate(calls);
      calls, shown := calls + 1, shown + [file];
    }

    /** Create, write, sync and close the temporary file; on success its content is on disk. */
    method PrepareTemp(m: Marker) returns (ok: bool)
      modifies `temp, `calls, `shown
      ensures OnlyAppears(m) && (ok ==> temp == Some(Synced(m)) && calls == old(calls) + 4)
      ensures ok <==> Ok(old(calls), old(calls) + 4)
      ensures !fate(old(calls)).ok ==> temp == old(temp)
      ensures !ok && fate(old(calls)).ok ==> calls > 0 && (fate(calls - 1).ok ==> temp == None)
    {
      var f := Call();
      if !f.ok { return false; }
      temp := Some(Unsynced);
      f := Call();
      ok := f.ok;
      if ok {
        f := Call();
        ok := f.ok;
        if ok { temp := Some(Synced(m)); }
      }
      f := Call();
      ok := ok && f.ok;
      if !ok { RemoveTemp(m); }
    }

    method RemoveTemp(ghost m: Marker)
      modifies `temp, `calls, `shown
      ensures OnlyAppears(m) && file == old(file) && calls == old(calls) + 1
      ensures temp == if fate(old(calls)).ok then None else old(temp)
    {
      var f := Call();
      if f.ok { temp := None; }
    }

    method Rename(ghost m: Marker) returns (ok: bool)
      requires temp == Some(Synced(m)) && file == None
      modifies `file, `temp, `calls, `shown
      ensures OnlyAppears(m) && calls == old(calls) + 1 && ok == fate(old(calls)).ok
      ensures if ok || fate(old(calls)).done then file == Some(Synced(m)) && temp == None else file == None && temp == old(temp)
      ensures shown != [] && shown[|shown| - 1] == file
    {
      var f := Call();
      if f.ok || f.done {
        file, temp := temp, None;
        shown := shown + [file];
      }
      ok := f.ok;
    }

    /**
     * Success means that the marker of this attempt is on disk. Whatever fails and wherever the
     * daemon dies, the marker's name shows what it showed before or the whole marker, and a file
     * that was there is never replaced. It succeeds exactly if all its calls do and no other file
     * is there; under the temporary name something is left only if removing it, the last call, fails.
     */
    method WriteAssignedMarker(attempt: string) returns (ok: bool)
      modifies this
      ensures var m := Marker(attempt, JobName(attempt));
              && OnlyAppears(m)
              && (ok ==> file == Some(Synced(m)))
              && (ok <==> Ok(old(calls), old(calls) + 7) && old(file) in {None, Some(Synced(m))})
      ensures old(temp) == None && temp.Some? ==> calls > 0 && !fate(calls - 1).ok
      ensures Ok(old(calls), old(calls) + 5) && !fate(old(calls) + 5).ok ==> calls == old(calls) + 7
      ensures Ok(old(calls), old(calls) + 6) && old(file) == None && !fate(old(calls) + 6).ok ==> calls == old(calls) + 8
    {
      var m := Marker(attempt, JobName(attempt));
      var f := Call();
      if !f.ok { return false; }
      var prepared := PrepareTemp(m);
      if !prepared { return false; }
      f := Call();
      if !f.ok {
        RemoveTemp(m);
        return false;
      }
      if file.Some? {
        var existing := ReadAssignedMarker(attempt);
        RemoveTemp(m);
        return existing.Found?;
      }
      ok := Rename(m);
      if !ok { RemoveTemp(m); }
    }

    /** Reading changes nothing; a file that is not the marker of this attempt proves nothing. */
    method ReadAssignedMarker(attempt: string) returns (r: Reading)
      modifies `calls, `shown
      ensures OnlyAppears(Marker(attempt, JobName(attempt))) && file == old(file) && calls == old(calls) + 1
      ensures r == if fate(old(calls)).ok then Recognized(file, attempt) else Invalid
    {
      var f := Call();
      r := if f.ok then Recognized(file, attempt) else Invalid;
    }
  }

  /** Wherever the first write of a marker is cut off by a crash, a reader finds nothing or the marker of the attempt. */
  method CutOffAnywhere(attempt: string, fate: nat -> Fate) returns (d: Directory)
    ensures forall i | 0 <= i < |d.shown| :: Recognized(d.shown[i], attempt) in {Absent, Found(Marker(attempt, JobName(attempt)))}
    ensures Recognized(d.file, attempt) in {Absent, Found(Marker(attempt, JobName(attempt)))}
  {
    d := new Directory(None, fate);
    var _ := d.WriteAssignedMarker(attempt);
  }
}
