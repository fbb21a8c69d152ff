/** The registry object: what one lock call does to it, and that its unlock function undoes it. */
module KeyedMutexRegistry {
  import opened StringOrder
  import opened KeyedLocks

  function Locks(level: nat, process: nat, keys: seq<string>): seq<Lock> {
    seq(|keys|, i requires 0 <= i < |keys| => Lock(level, process, keys[i]))
  }

  function Entered(r: Registry, ks: seq<Lock>): Registry {
    if ks == [] then r else Entered(r, ks[..|ks| - 1]).Referenced(ks[|ks| - 1])
  }

  function Left(r: Registry, ks: seq<Lock>, ids: seq<Id>): Registry
    requires |ids| == |ks|
  {
    if ks == [] then r
    else Left(r, ks[..|ks| - 1], ids[..|ks| - 1]).Dereferenced(ks[|ks| - 1], ids[|ks| - 1])
  }

  /** Every entry has an object of its own with a positive count. */
  ghost predicate Sound(r: Registry) {
    Distinct(r) && forall k | k in r.entries :: r.entries[k] in r.refs && r.refs[r.entries[k]] > 0
  }

  function Count(r: Registry, k: Lock): nat {
    if k in r.entries && r.entries[k] in r.refs then r.refs[r.entries[k]] else 0
  }

  /** `k` has the object in `b` that it has in `a`, if it has one in both. */
  predicate SameObject(a: Registry, b: Registry, k: Lock) {
    k in a.entries && k in b.entries ==> a.entries[k] == b.entries[k]
  }

  lemma ReferencingIsSound(r: Registry, k: Lock)
    requires Sound(r)
    ensures Sound(r.Referenced(k))
  {}

  lemma ReferencingCounts(r: Registry, k: Lock, l: Lock)
    requires Sound(r)
    ensures Count(r.Referenced(k), l) == Count(r, l) + (if l == k then 1 else 0) && SameObject(r, r.Referenced(k), l)
  {}

  lemma DereferencingIsSound(r: Registry, k: Lock)
    requires Sound(r) && k in r.entries
    ensures Sound(r.Dereferenced(k, r.entries[k]))
  {}

  lemma DereferencingCounts(r: Registry, k: Lock, l: Lock)
    requires Sound(r) && k in r.entries
    ensures var r' := r.Dereferenced(k, r.entries[k]);
            Count(r', l) == Count(r, l) - (if l == k then 1 else 0) && SameObject(r, r', l)
  {}

  ghost predicate AllDifferent(ks: seq<Lock>) {
    forall i, j | 0 <= i < j < |ks| :: ks[i] != ks[j]
  }

  function In(ks: seq<Lock>, k: Lock): nat {
    if k in ks then 1 else 0
  }

  lemma InPrefix(ks: seq<Lock>, k: Lock)
    requires AllDifferent(ks) && ks != []
    ensures In(ks, k) == In(ks[..|ks| - 1], k) + (if k == ks[|ks| - 1] then 1 else 0)
  {
    assert ks == ks[..|ks| - 1] + [ks[|ks| - 1]];
  }

  lemma {:induction false} EnteringCounts(r: Registry, ks: seq<Lock>, l: Lock)
    requires Sound(r) && AllDifferent(ks)
    ensures Sound(Entered(r, ks)) && Count(Entered(r, ks), l) == Count(r, l) + In(ks, l) && SameObject(r, Entered(r, ks), l)
    ensures l in r.entries ==> l in Entered(r, ks).entries
    decreases |ks|
  {
    if ks != [] {
      var n := |ks| - 1;
      InPrefix(ks, l);
      EnteringCounts(r, ks[..n], l);
      ReferencingIsSound(Entered(r, ks[..n]), ks[n]);
      ReferencingCounts(Entered(r, ks[..n]), ks[n], l);
    }
  }

  /** `ids` are the objects of the keys. */
  ghost predicate Objects(r: Registry, ks: seq<Lock>, ids: seq<Id>) {
    |ids| == |ks| && forall i | 0 <= i < |ks| :: ks[i] in r.entries && ids[i] == r.entries[ks[i]]
  }

  lemma {:induction false} LeavingCounts(r: Registry, ks: seq<Lock>, ids: seq<Id>, l: Lock)
    requires Sound(r) && AllDifferent(ks) && Objects(r, ks, ids)
    ensures Sound(Left(r, ks, ids)) && Count(Left(r, ks, ids), l) == Count(r, l) - In(ks, l) && SameObject(r, Left(r, ks, ids), l)
    decreases |ks|
  {
    if ks != [] {
      var n := |ks| - 1;
      var before := Left(r, ks[..n], ids[..n]);
      InPrefix(ks, l);
      LeavingCounts(r, ks[..n], ids[..n], l);
      LeavingCounts(r, ks[..n], ids[..n], ks[n]);
      assert ks[n] !in ks[..n];
      assert Count(before, ks[n]) == Count(r, ks[n]) > 0;
      LeaveOne(r, before, ks[n], ids[n], l, Left(r, ks, ids), In(ks[..n], l));
    }
  }

  lemma LeaveOne(r: Registry, before: Registry, k: Lock, id: Id, l: Lock, after: Registry, left: nat)
    requires Sound(before) && k in before.entries && id == before.entries[k] && after == before.Dereferenced(k, id)
    requires Count(before, l) == Count(r, l) - left && SameObject(r, before, l)
    ensures Sound(after) && Count(after, l) == Count(r, l) - left - (if l == k then 1 else 0) && SameObject(r, after, l)
  {
    DereferencingIsSound(before, k);
    DereferencingCounts(before, k, l);
  }

  /** Unlocking undoes locking: the same entries with the same objects and counts are left. */
  lemma LeaveUndoesEnter(r: Registry, ks: seq<Lock>, ids: seq<Id>, l: Lock)
    requires Sound(r) && AllDifferent(ks) && Objects(Entered(r, ks), ks, ids)
    ensures var after := Left(Entered(r, ks), ks, ids);
            && (l in after.entries <==> l in r.entries)
            && (l in r.entries ==> after.entries[l] == r.entries[l])
            && Count(after, l) == Count(r, l)
  {
    EnteringCounts(r, ks, l);
    LeavingCounts(Entered(r, ks), ks, ids, l);
  }

  class KeyedMutexRegistry {
    var entries: map<Lock, Id>
    var refs: map<Id, nat>
    var next: Id

    constructor ()
      ensures Value() == Registry(map[], map[], 0)
    {
      entries, refs, next := map[], map[], 0;
    }

    function Value(): Registry
      reads this
    {
      Registry(entries, refs, next)
    }

    /** The non-empty keys, each once, in ascending order; `keys` are trimmed. */
    static method Normalize(keys: seq<string>) returns (normalized: seq<string>)
      ensures Ascending(normalized) && forall k :: k in normalized <==> k in keys && k != ""
    {
      normalized := [];
      var unique: set<string> := {};
      for n := 0 to |keys|
        invariant Ascending(normalized) && forall k :: k in normalized <==> k in keys[..n] && k != ""
        invariant forall k :: k in unique <==> k in normalized
      {
        assert keys[..n + 1] == keys[..n] + [keys[n]];
        if keys[n] != "" && keys[n] !in unique {
          unique := unique + {keys[n]};
          normalized := Insert(normalized, keys[n]);
        }
      }
      assert keys[..|keys|] == keys;
    }

    /** The part of `lock` under the registry's own mutex. */
    method Enter(level: nat, process: nat, keys: seq<string>) returns (locks: seq<Lock>, ids: seq<Id>)
      modifies this
      ensures exists sorted ::
                Ascending(sorted) && (forall k :: k in sorted <==> k in keys && k != "") && locks == Locks(level, process, sorted)
      ensures Value() == Entered(old(Value()), locks)
      ensures |ids| == |locks| && forall i | 0 <= i < |ids| :: locks[i] in entries && ids[i] == entries[locks[i]]
    {
      var sorted := Normalize(keys);
      locks, ids := Locks(level, process, sorted), [];
      for n := 0 to |locks|
        invariant Value() == Entered(old(Value()), locks[..n])
        invariant |ids| == n && forall i | 0 <= i < n :: locks[i] in entries && ids[i] == entries[locks[i]]
      {
        assert locks[..n + 1][..n] == locks[..n];
        var id := Refer(locks[n]);
        ids := ids + [id];
      }
      assert locks[..|locks|] == locks;
    }

    method Refer(k: Lock) returns (id: Id)
      modifies this
      ensures Value() == old(Value()).Referenced(k) && k in entries && id == entries[k]
      ensures forall l | l in old(entries) :: l in entries && entries[l] == old(entries)[l]
    {
      if k !in entries {
        entries, refs, next := entries[k := next], refs[next := 0], next + 1;
      }
      id := entries[k];
      refs := refs[id := (if id in refs then refs[id] else 0) + 1];
    }

    /** The part of the unlock function under the registry's own mutex. */
    method Leave(locks: seq<Lock>, ids: seq<Id>)
      requires |ids| == |locks|
      modifies this
      ensures Value() == Left(old(Value()), locks, ids)
    {
      for n := 0 to |locks|
        invariant Value() == Left(old(Value()), locks[..n], ids[..n])
      {
        assert locks[..n + 1][..n] == locks[..n] && ids[..n + 1][..n] == ids[..n];
        var k, id := locks[n], ids[n];
        var left: nat := if id in refs && refs[id] > 0 then refs[id] - 1 else 0;
        refs := refs[id := left];
        if left == 0 && k in entries && entries[k] == id {
          entries := entries - {k};
        }
      }
      assert locks[..|locks|] == locks && ids[..|locks|] == ids;
    }
  }
}
