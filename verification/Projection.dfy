/** The bounded decision projection and context pack: internal/contextengine/projection.go and engine.go. */
module Projection {
  import opened Decimal
  import opened StringOrder
  import opened Text

  datatype Result<+T> = Ok(value: T) | Err

  datatype Control = Control(version: int, ofTask: bool, intact: bool)

  datatype Artifact = Artifact(handle: string, ofTask: bool, epoch: int, attempt: string, intact: bool)

  datatype Event = Event(content: Bytes)

  datatype Repository = Repository(terms: seq<string>, entries: seq<string>, truncated: bool, bytes: nat)

  datatype Projection = Projection(
    controls: seq<Control>, artifacts: seq<Artifact>, repository: Repository, recent: seq<Event>, truncated: bool, bytes: nat)

  datatype State = State(
    epoch: int, attempt: string, latestControl: int, controls: seq<Control>, critical: set<string>, artifacts: seq<Artifact>,
    identitiesMatch: bool)

  datatype Config = Config(maxBytes: int, maxRecentItems: int, maxRecentBytes: int, maxArtifacts: nat, maxEntries: nat)

  /** How long things become when they are encoded. */
  datatype Encoding = Encoding(constant: Projection -> nat, render: Repository -> nat)
  {
    /** The encoded size: what is not the size field, and the digits of the size field. */
    function Size(p: Projection): nat {
      constant(p.(bytes := 0)) + Digits(p.bytes)
    }

    /** The byte count that a repository part carries does not depend on the count it carried before. */
    function Rendered(r: Repository): nat {
      render(r.(bytes := 0))
    }
  }

  // ----- Controls -----

  ghost predicate Rising(cs: seq<Control>) {
    forall i, j | 0 <= i < j < |cs| :: cs[i].version < cs[j].version
  }

  ghost predicate SortedByVersion(cs: seq<Control>) {
    forall i, j | 0 <= i < j < |cs| :: cs[i].version <= cs[j].version
  }

  /** Stands for the library's sort. */
  method SortControls(cs: seq<Control>) returns (r: seq<Control>)
    ensures multiset(r) == multiset(cs) && SortedByVersion(r)
  {
    r := [];
    for n := 0 to |cs|
      invariant multiset(r) == multiset(cs[..n]) && SortedByVersion(r)
    {
      assert cs[..n + 1] == cs[..n] + [cs[n]];
      r := InsertControl(r, cs[n]);
    }
    assert cs[..|cs|] == cs;
  }

  method InsertControl(cs: seq<Control>, c: Control) returns (r: seq<Control>)
    requires SortedByVersion(cs)
    ensures multiset(r) == multiset(cs) + multiset{c} && SortedByVersion(r)
  {
    var k := 0;
    while k < |cs| && cs[k].version <= c.version
      invariant 0 <= k <= |cs| && forall i | 0 <= i < k :: cs[i].version <= c.version
    {
      k := k + 1;
    }
    assert cs == cs[..k] + cs[k..];
    InsertedInOrder(cs, c, k);
    r := cs[..k] + [c] + cs[k..];
  }

  lemma InsertedInOrder(cs: seq<Control>, c: Control, k: nat)
    requires SortedByVersion(cs) && k <= |cs| && (k < |cs| ==> cs[k].version > c.version)
    requires forall i | 0 <= i < k :: cs[i].version <= c.version
    ensures SortedByVersion(cs[..k] + [c] + cs[k..])
  {
    forall i | k <= i < |cs| ensures cs[i].version >= c.version {
      assert i > k ==> cs[k].version <= cs[i].version;
    }
  }

  /** All durable controls, in order, up to and including the latest. */
  ghost predicate Complete(s: State, cs: seq<Control>) {
    && multiset(cs) == multiset(s.controls) && Rising(cs)
    && (forall i | 0 <= i < |cs| :: cs[i].ofTask && cs[i].intact && cs[i].version > 0)
    && (if cs == [] then s.latestControl <= 0 else cs[|cs| - 1].version == s.latestControl)
  }

  lemma LastIsTheSame(cs: seq<Control>, sorted: seq<Control>)
    requires Rising(cs) && SortedByVersion(sorted) && multiset(cs) == multiset(sorted) && |cs| == |sorted| > 0
    ensures cs[|cs| - 1] == sorted[|cs| - 1]
  {
    var n := |cs| - 1;
    assert sorted[n] in multiset(sorted) && cs[n] in multiset(cs);
    assert sorted[n] in cs && cs[n] in sorted;
    var i :| 0 <= i < |cs| && cs[i] == sorted[n];
    var j :| 0 <= j < |sorted| && sorted[j] == cs[n];
    assert cs[i].version <= cs[n].version == sorted[j].version <= sorted[n].version;
  }

  lemma WithoutLast(cs: seq<Control>)
    requires cs != []
    ensures multiset(cs[..|cs| - 1]) == multiset(cs) - multiset{cs[|cs| - 1]}
  {
    assert cs == cs[..|cs| - 1] + [cs[|cs| - 1]];
  }

  lemma SameButLast(cs: seq<Control>, sorted: seq<Control>)
    requires |cs| == |sorted| > 0 && cs[..|cs| - 1] == sorted[..|cs| - 1] && cs[|cs| - 1] == sorted[|cs| - 1]
    ensures cs == sorted
  {
    var n := |cs| - 1;
    assert cs == cs[..n] + [cs[n]] && sorted == sorted[..n] + [sorted[n]];
  }

  lemma SameLength(cs: seq<Control>, sorted: seq<Control>)
    requires multiset(cs) == multiset(sorted)
    ensures |cs| == |sorted|
  {
    assert |multiset(cs)| == |cs| && |multiset(sorted)| == |sorted|;
  }

  /** Whatever has the same elements and rises strictly is what sorting gives. */
  lemma {:induction false} RisingIsSorted(cs: seq<Control>, sorted: seq<Control>)
    requires Rising(cs) && SortedByVersion(sorted) && multiset(cs) == multiset(sorted)
    ensures cs == sorted
    decreases |cs|
  {
    SameLength(cs, sorted);
    if cs != [] {
      var n := |cs| - 1;
      LastIsTheSame(cs, sorted);
      assert multiset(cs[..n]) == multiset(sorted[..n]) by {
        WithoutLast(cs);
        WithoutLast(sorted);
      }
      RisingIsSorted(cs[..n], sorted[..n]);
      SameButLast(cs, sorted);
    }
  }

  lemma CompleteAt(s: State, cs: seq<Control>, i: nat)
    requires i < |cs|
    ensures Complete(s, cs) ==>
              && cs[i].ofTask && cs[i].intact && 0 < cs[i].version <= s.latestControl
              && (i > 0 ==> cs[i - 1].version < cs[i].version)
  {
    if Complete(s, cs) {
      assert i < |cs| - 1 ==> cs[i].version < cs[|cs| - 1].version;
    }
  }

  lemma CompleteIsSorted(s: State, sorted: seq<Control>)
    requires multiset(sorted) == multiset(s.controls) && SortedByVersion(sorted)
    ensures (exists cs :: Complete(s, cs)) <==> Complete(s, sorted)
  {
    forall cs | Complete(s, cs) ensures cs == sorted {
      RisingIsSorted(cs, sorted);
    }
  }

  /** Succeeds exactly when the durable controls have a complete order at all. */
  method OrderControls(s: State) returns (r: Result<seq<Control>>)
    ensures r.Ok? ==> Complete(s, r.value)
    ensures r.Ok? <==> exists cs :: Complete(s, cs)
  {
    var controls := SortControls(s.controls);
    CompleteIsSorted(s, controls);
    var last := 0;
    for n := 0 to |controls|
      invariant forall i | 0 <= i < n :: controls[i].ofTask && controls[i].intact && 0 < controls[i].version <= s.latestControl
      invariant forall i, j | 0 <= i < j < n :: controls[i].version < controls[j].version
      invariant last == (if n == 0 then 0 else controls[n - 1].version)
    {
      var c := controls[n];
      CompleteAt(s, controls, n);
      if !c.ofTask || !c.intact || c.version <= last || c.version > s.latestControl { return Err; }
      last := c.version;
    }
    if s.latestControl > 0 && (controls == [] || last != s.latestControl) { return Err; }
    if s.latestControl == 0 && controls != [] { return Err; }
    r := Ok(controls);
  }

  // ----- Artifacts -----

  ghost predicate Handles(arts: seq<Artifact>, handles: set<string>) {
    forall h :: h in handles <==> exists i :: 0 <= i < |arts| && arts[i].handle == h
  }

  /** The checkpoint-critical artifacts come first, and there is one for each critical handle. */
  ghost predicate CriticalFirst(s: State, arts: seq<Artifact>) {
    && |s.critical| <= |arts|
    && Handles(arts[..|s.critical|], s.critical)
    && Supplied(s, arts) && Different(arts)
  }

  ghost predicate Supplied(s: State, arts: seq<Artifact>) {
    forall i | 0 <= i < |arts| :: arts[i] in s.artifacts
  }

  ghost predicate Different(arts: seq<Artifact>) {
    forall i, j | 0 <= i < j < |arts| :: arts[i].handle != arts[j].handle
  }

  predicate Acceptable(s: State, a: Artifact) {
    a.ofTask && 0 < a.epoch <= s.epoch && a.intact && (if a.epoch == s.epoch then a.attempt == s.attempt else a.handle in s.critical)
  }

  /**
   * Every artifact is an intact one of this task from an epoch that has begun: in the present epoch
   * one of the present attempt, in an earlier one a checkpoint-critical one.
   */
  ghost predicate AllAcceptable(s: State) {
    forall i | 0 <= i < |s.artifacts| ::
      var a := s.artifacts[i];
      && a.ofTask && a.intact && 1 <= a.epoch && a.epoch <= s.epoch
      && (a.epoch == s.epoch ==> a.attempt == s.attempt) && (a.epoch < s.epoch ==> a.handle in s.critical)
  }

  predicate HasArtifact(s: State, handle: string) {
    exists i :: 0 <= i < |s.artifacts| && s.artifacts[i].handle == handle
  }

  /** What the artifacts must be for a choice to exist. */
  ghost predicate Choosable(s: State, maxArtifacts: int) {
    && |s.critical| <= maxArtifacts && AllAcceptable(s) && Different(s.artifacts)
    && forall h | h in s.critical :: HasArtifact(s, h)
  }

  predicate HasArtifactBefore(s: State, n: nat, handle: string)
    requires n <= |s.artifacts|
  {
    exists i :: 0 <= i < n && s.artifacts[i].handle == handle
  }

  /** The first `n` artifacts by their handles. */
  ghost predicate Indexed(s: State, n: nat, m: map<string, Artifact>)
    requires n <= |s.artifacts|
  {
    Table(s, m) && forall h :: h in m <==> HasArtifactBefore(s, n, h)
  }

  ghost predicate Table(s: State, m: map<string, Artifact>) {
    forall h | h in m :: m[h].handle == h && m[h] in s.artifacts
  }

  /** Nothing is wrong with the first `n` artifacts, and `m` has them all. */
  ghost predicate Accepted(s: State, n: nat, m: map<string, Artifact>)
    requires n <= |s.artifacts|
  {
    && Indexed(s, n, m) && |m| == n && Different(s.artifacts[..n])
    && forall i | 0 <= i < n :: Acceptable(s, s.artifacts[i])
  }

  lemma IndexGrows(s: State, n: nat, m: map<string, Artifact>)
    requires n < |s.artifacts| && Indexed(s, n, m)
    ensures Indexed(s, n + 1, m[s.artifacts[n].handle := s.artifacts[n]])
  {
    forall g ensures HasArtifactBefore(s, n + 1, g) <==> HasArtifactBefore(s, n, g) || g == s.artifacts[n].handle {}
  }

  lemma StillDifferent(s: State, n: nat)
    requires n < |s.artifacts| && Different(s.artifacts[..n]) && !HasArtifactBefore(s, n, s.artifacts[n].handle)
    ensures Different(s.artifacts[..n + 1])
  {
    assert forall i | 0 <= i < n :: s.artifacts[..n + 1][i] == s.artifacts[..n][i];
  }

  lemma OneMoreAccepted(s: State, n: nat, m: map<string, Artifact>)
    requires n < |s.artifacts| && Accepted(s, n, m) && Acceptable(s, s.artifacts[n]) && s.artifacts[n].handle !in m
    ensures Accepted(s, n + 1, m[s.artifacts[n].handle := s.artifacts[n]])
  {
    IndexGrows(s, n, m);
    StillDifferent(s, n);
  }

  lemma Duplicated(s: State, n: nat, m: map<string, Artifact>)
    requires n < |s.artifacts| && Accepted(s, n, m) && s.artifacts[n].handle in m
    ensures !Different(s.artifacts)
  {
    assert HasArtifactBefore(s, n, s.artifacts[n].handle);
  }

  lemma AllAccepted(s: State, m: map<string, Artifact>)
    requires Accepted(s, |s.artifacts|, m)
    ensures Table(s, m) && |m| == |s.artifacts| && AllAcceptable(s) && Different(s.artifacts)
    ensures forall h :: h in m <==> HasArtifact(s, h)
  {
    assert s.artifacts[..|s.artifacts|] == s.artifacts;
    assert forall h :: HasArtifact(s, h) <==> HasArtifactBefore(s, |s.artifacts|, h);
  }

  lemma NoneAccepted(s: State)
    ensures Accepted(s, 0, map[])
  {}

  /** What is found with artifact `n` when those before it are accepted. */
  lemma NextArtifact(s: State, n: nat, m: map<string, Artifact>)
    requires n < |s.artifacts| && Accepted(s, n, m)
    ensures !Acceptable(s, s.artifacts[n]) ==> !AllAcceptable(s)
    ensures s.artifacts[n].handle in m ==> !Different(s.artifacts)
    ensures Acceptable(s, s.artifacts[n]) && s.artifacts[n].handle !in m ==>
              Accepted(s, n + 1, m[s.artifacts[n].handle := s.artifacts[n]])
  {
    if s.artifacts[n].handle in m {
      Duplicated(s, n, m);
    } else if Acceptable(s, s.artifacts[n]) {
      OneMoreAccepted(s, n, m);
    }
  }

  method IndexArtifacts(s: State) returns (r: Result<map<string, Artifact>>)
    ensures r.Ok? ==> Table(s, r.value) && |r.value| == |s.artifacts| && forall h :: h in r.value <==> HasArtifact(s, h)
    ensures r.Ok? <==> AllAcceptable(s) && Different(s.artifacts)
  {
    var m: map<string, Artifact> := map[];
    NoneAccepted(s);
    for n := 0 to |s.artifacts|
      invariant Accepted(s, n, m)
    {
      var a := s.artifacts[n];
      NextArtifact(s, n, m);
      if !Acceptable(s, a) { return Err; }
      if a.handle in m { return Err; }
      m := m[a.handle := a];
    }
    AllAccepted(s, m);
    r := Ok(m);
  }

  method CriticalArtifacts(s: State, byHandle: map<string, Artifact>) returns (r: Result<seq<Artifact>>)
    requires Table(s, byHandle) && forall h :: h in byHandle <==> HasArtifact(s, h)
    ensures r.Ok? ==> CriticalFirst(s, r.value) && |r.value| == |s.critical|
    ensures r.Ok? <==> forall h | h in s.critical :: HasArtifact(s, h)
  {
    var handles := SortKeys(s.critical);
    AscendingIsUnique(handles);
    var arts: seq<Artifact> := [];
    for n := 0 to |handles|
      invariant |arts| == n && forall i | 0 <= i < n :: handles[i] in byHandle && arts[i] == byHandle[handles[i]]
    {
      if handles[n] !in byHandle {
        assert handles[n] in handles;
        return Err;
      }
      arts := arts + [byHandle[handles[n]]];
    }
    CriticalFound(s, handles, arts);
    r := Ok(arts);
  }

  function Picked(byHandle: map<string, Artifact>, handles: seq<string>): seq<Artifact>
    requires forall i | 0 <= i < |handles| :: handles[i] in byHandle
  {
    seq(|handles|, i requires 0 <= i < |handles| => byHandle[handles[i]])
  }

  /** The optional artifacts after the critical ones are those of the least handles. */
  ghost predicate LeastOptional(s: State, arts: seq<Artifact>)
    requires |s.critical| <= |arts|
  {
    forall h, i | HasArtifact(s, h) && h !in s.critical && |s.critical| <= i < |arts| ::
      (exists j :: |s.critical| <= j < |arts| && arts[j].handle == h) || Less(arts[i].handle, h)
  }

  lemma PickedMore(byHandle: map<string, Artifact>, handles: seq<string>, n: nat)
    requires n < |handles| && forall i | 0 <= i < |handles| :: handles[i] in byHandle
    ensures Picked(byHandle, handles[..n + 1]) == Picked(byHandle, handles[..n]) + [byHandle[handles[n]]]
  {}

  /** The first of the handles, as many as there is room for. */
  method PickHandles(byHandle: map<string, Artifact>, handles: seq<string>, critical: seq<Artifact>, maxArtifacts: nat)
    returns (arts: seq<Artifact>, truncated: bool)
    requires |critical| <= maxArtifacts && forall i | 0 <= i < |handles| :: handles[i] in byHandle
    ensures truncated <==> |critical| + |handles| > maxArtifacts
    ensures arts == critical + Picked(byHandle, if truncated then handles[..maxArtifacts - |critical|] else handles)
  {
    arts, truncated := critical, false;
    for n := 0 to |handles|
      invariant arts == critical + Picked(byHandle, handles[..n]) && |arts| <= maxArtifacts
    {
      if |arts| >= maxArtifacts { return arts, true; }
      PickedMore(byHandle, handles, n);
      arts := arts + [byHandle[handles[n]]];
    }
    assert handles[..|handles|] == handles;
  }

  method AddOptional(s: State, byHandle: map<string, Artifact>, maxArtifacts: nat, critical: seq<Artifact>)
    returns (arts: seq<Artifact>, truncated: bool)
    requires Table(s, byHandle) && forall h :: h in byHandle <==> HasArtifact(s, h)
    requires CriticalFirst(s, critical) && |critical| == |s.critical| <= maxArtifacts
    ensures CriticalFirst(s, arts) && LeastOptional(s, arts)
    ensures truncated <==> |byHandle.Keys - s.critical| > maxArtifacts - |critical|
    ensures |arts| == if truncated then maxArtifacts else |critical| + |byHandle.Keys - s.critical|
  {
    var handles := SortKeys(byHandle.Keys - s.critical);
    forall i | 0 <= i < |handles| ensures handles[i] in byHandle {
      assert handles[i] in handles;
    }
    arts, truncated := PickHandles(byHandle, handles, critical, maxArtifacts);
    assert handles[..|handles|] == handles;
    OptionalAreNew(s, byHandle, handles, if truncated then maxArtifacts - |critical| else |handles|, critical);
  }

  lemma OptionalAreNew(s: State, byHandle: map<string, Artifact>, handles: seq<string>, n: nat, critical: seq<Artifact>)
    requires Table(s, byHandle) && CriticalFirst(s, critical) && |critical| == |s.critical|
    requires n <= |handles| && Ascending(handles)
    requires forall h :: h in byHandle <==> HasArtifact(s, h)
    requires forall h :: h in handles <==> h in byHandle && h !in s.critical
    ensures var arts := critical + Picked(byHandle, handles[..n]); CriticalFirst(s, arts) && LeastOptional(s, arts)
  {
    var c, arts := |critical|, critical + Picked(byHandle, handles[..n]);
    AscendingIsUnique(handles);
    assert arts[..c] == critical == critical[..c];
    forall i | c <= i < |arts| ensures arts[i].handle == handles[i - c] && arts[i].handle !in s.critical && arts[i] in s.artifacts {
      assert handles[i - c] in handles;
    }
    forall i | 0 <= i < c ensures arts[i].handle in s.critical {
      assert critical[..c][i] == arts[i];
    }
    forall h, i | HasArtifact(s, h) && h !in s.critical && c <= i < |arts|
      ensures (exists j :: c <= j < |arts| && arts[j].handle == h) || Less(arts[i].handle, h)
    {
      var j :| 0 <= j < |handles| && handles[j] == h;
      if j < n { assert arts[c + j].handle == h; }
    }
  }

  method ChooseArtifacts(s: State, maxArtifacts: nat) returns (r: Result<seq<Artifact>>, truncated: bool)
    ensures r.Ok? ==> CriticalFirst(s, r.value) && LeastOptional(s, r.value)
    ensures r.Ok? ==> |r.value| == if |s.artifacts| > maxArtifacts then maxArtifacts else |s.artifacts|
    ensures r.Ok? ==> (truncated <==> |r.value| < |s.artifacts|)
    ensures r.Ok? <==> Choosable(s, maxArtifacts)
  {
    truncated := false;
    if |s.critical| > maxArtifacts { return Err, false; }
    var index := IndexArtifacts(s);
    if index.Err? { return Err, false; }
    r := CriticalArtifacts(s, index.value);
    if r.Err? { return; }
    var arts;
    assert s.critical <= index.value.Keys && |index.value.Keys - s.critical| == |index.value.Keys| - |s.critical|;
    arts, truncated := AddOptional(s, index.value, maxArtifacts, r.value);
    r := Ok(arts);
  }

  lemma CriticalFound(s: State, handles: seq<string>, arts: seq<Artifact>)
    requires |arts| == |handles| == |s.critical| && (forall h :: h in handles <==> h in s.critical)
    requires forall i | 0 <= i < |arts| :: arts[i].handle == handles[i] && arts[i] in s.artifacts
    requires forall i, j | 0 <= i < j < |handles| :: handles[i] != handles[j]
    ensures CriticalFirst(s, arts)
  {
    assert arts[..|s.critical|] == arts;
    forall h | h in s.critical ensures exists i :: 0 <= i < |arts| && arts[i].handle == h {
      var i :| 0 <= i < |handles| && handles[i] == h;
      assert arts[i].handle == h;
    }
  }

  // ----- Recent events -----

  function TotalBytes(es: seq<Event>): nat {
    if es == [] then 0 else TotalBytes(es[..|es| - 1]) + |es[|es| - 1].content|
  }

  /** What is kept: a run of the newest `maxItems` from their oldest on, uncut but for the last. */
  ghost predicate KeptFrom(es: seq<Event>, from: nat, kept: seq<Event>) {
    && from + |kept| <= |es|
    && (forall i | 0 <= i < |kept| :: kept[i].content <= es[from + i].content)
    && (forall i | 0 <= i < |kept| - 1 :: kept[i] == es[from + i])
  }

  /** The newest window from its oldest event on, all of it unless the byte budget is used up. */
  ghost predicate WithinBudget(es: seq<Event>, maxItems: nat, maxBytes: nat, kept: seq<Event>) {
    var start := if |es| > maxItems then |es| - maxItems else 0;
    && |kept| <= maxItems && TotalBytes(kept) <= maxBytes && KeptFrom(es, start, kept)
    && (TotalBytes(kept) < maxBytes ==> kept == es[start..])
  }

  lemma OneMoreCounted(kept: seq<Event>, e: Event)
    ensures TotalBytes(kept + [e]) == TotalBytes(kept) + |e.content|
  {
    assert (kept + [e])[..|kept|] == kept;
  }

  lemma OneMoreKept(es: seq<Event>, start: nat, kept: seq<Event>, e: Event)
    requires start + |kept| < |es| && e.content <= es[start + |kept|].content && kept == es[start..start + |kept|]
    ensures KeptFrom(es, start, kept + [e])
    ensures e == es[start + |kept|] ==> kept + [e] == es[start..start + |kept| + 1]
  {
    var more := kept + [e];
    forall i | 0 <= i < |kept| ensures more[i] == es[start + i] {
      assert more[i] == kept[i];
    }
  }

  /** What is kept of the events from `start` to `n`, and what is left of the budget. */
  ghost predicate Keeping(es: seq<Event>, start: nat, n: nat, maxBytes: int, kept: seq<Event>, remaining: int) {
    && start <= n <= |es| && |kept| == n - start && KeptFrom(es, start, kept)
    && remaining == maxBytes - TotalBytes(kept) && remaining >= 0
    && (remaining > 0 ==> kept == es[start..n])
  }

  lemma KeepsOneMore(es: seq<Event>, start: nat, n: nat, maxBytes: int, kept: seq<Event>, remaining: int, content: Bytes)
    requires Keeping(es, start, n, maxBytes, kept, remaining) && n < |es| && remaining > 0
    requires content == if |es[n].content| > remaining then es[n].content[..remaining] else es[n].content
    ensures Keeping(es, start, n + 1, maxBytes, kept + [Event(content)], remaining - |content|)
  {
    OneMoreKept(es, start, kept, Event(content));
    OneMoreCounted(kept, Event(content));
  }

  lemma UpToTheEnd(es: seq<Event>, start: nat)
    requires start <= |es|
    ensures es[start..|es|] == es[start..]
  {}

  method BoundDecisionRecent(es: seq<Event>, maxItems: int, maxBytes: int) returns (kept: seq<Event>)
    ensures maxItems <= 0 || maxBytes <= 0 ==> kept == []
    ensures maxItems > 0 && maxBytes > 0 ==> WithinBudget(es, maxItems, maxBytes, kept)
  {
    kept := [];
    if maxItems <= 0 || maxBytes <= 0 || es == [] { return; }
    var start := if |es| > maxItems then |es| - maxItems else 0;
    var remaining := maxBytes;
    for n := start to |es|
      invariant Keeping(es, start, n, maxBytes, kept, remaining)
    {
      if remaining <= 0 { return; }
      var content := es[n].content;
      if |content| > remaining { content := content[..remaining]; }
      KeepsOneMore(es, start, n, maxBytes, kept, remaining, content);
      remaining := remaining - |content|;
      kept := kept + [Event(content)];
    }
    UpToTheEnd(es, start);
  }

  // ----- Trimming -----

  /** `q` is `p` with only recent events, entries, terms and optional artifacts removed. */
  ghost predicate Trimmed(enc: Encoding, p: Projection, q: Projection, keep: nat) {
    && q.controls == p.controls && q.artifacts <= p.artifacts && |q.artifacts| >= keep && q.bytes == p.bytes
    && q.repository.entries <= p.repository.entries && q.repository.terms <= p.repository.terms
    && |q.recent| <= |p.recent| && q.recent == p.recent[|p.recent| - |q.recent|..]
    && (q.repository.bytes == enc.Rendered(q.repository) || q.repository == p.repository)
    && (p.truncated ==> q.truncated) && (q != p ==> q.truncated)
  }

  /** `q` is `p` without its oldest event, last entry, last term or last artifact. */
  ghost predicate OneLess(enc: Encoding, p: Projection, q: Projection) {
    var r := p.repository;
    || (p.recent != [] && q == p.(recent := p.recent[1..], truncated := true))
    || (r.entries != [] && q == p.(repository := Remade(enc, r.(entries := r.entries[..|r.entries| - 1])), truncated := true))
    || (r.terms != [] && q == p.(repository := Remade(enc, r.(terms := r.terms[..|r.terms| - 1])), truncated := true))
    || (p.artifacts != [] && q == p.(artifacts := p.artifacts[..|p.artifacts| - 1], truncated := true))
  }

  /** Before the last removal it was too large. */
  ghost predicate Needed(enc: Encoding, q: Projection, maxBytes: int) {
    exists p :: OneLess(enc, p, q) && enc.Size(p) > maxBytes
  }

  /** All events go before any entry, all entries before any term, all terms before any artifact. */
  predicate InOrder(p: Projection, q: Projection) {
    && (q.repository.entries != p.repository.entries ==> q.recent == [])
    && (q.repository.terms != p.repository.terms ==> q.recent == [] && q.repository.entries == [])
    && (q.artifacts != p.artifacts ==> q.recent == [] && q.repository.entries == [] && q.repository.terms == [])
  }

  /** Nothing is left to remove. */
  predicate Bare(p: Projection, keep: nat) {
    p.recent == [] && p.repository.entries == [] && p.repository.terms == [] && |p.artifacts| <= keep
  }

  method TrimRecent(enc: Encoding, p: Projection, maxBytes: int, keep: nat) returns (q: Projection)
    requires keep <= |p.artifacts|
    ensures Trimmed(enc, p, q, keep) && q.repository == p.repository && q.artifacts == p.artifacts
    ensures enc.Size(q) <= maxBytes || q.recent == []
    ensures enc.Size(p) <= maxBytes ==> q == p
    ensures q == p || Needed(enc, q, maxBytes)
  {
    q := p;
    while enc.Size(q) > maxBytes && q.recent != []
      invariant Trimmed(enc, p, q, keep) && q.repository == p.repository && q.artifacts == p.artifacts
      invariant q != p ==> enc.Size(p) > maxBytes && Needed(enc, q, maxBytes)
      decreases |q.recent|
    {
      ghost var before := q;
      q := q.(recent := q.recent[1..], truncated := true);
      assert OneLess(enc, before, q);
    }
  }

  function WithoutEntry(enc: Encoding, q: Projection): Projection
    requires q.repository.entries != []
  {
    var r := q.repository;
    q.(repository := Remade(enc, r.(entries := r.entries[..|r.entries| - 1])), truncated := true)
  }

  lemma EntryDropped(enc: Encoding, p: Projection, q: Projection, keep: nat)
    requires Trimmed(enc, p, q, keep) && q.repository.entries != []
    ensures var q' := WithoutEntry(enc, q);
            && Trimmed(enc, p, q', keep) && OneLess(enc, q, q')
            && q'.recent == q.recent && q'.artifacts == q.artifacts && q'.repository.terms == q.repository.terms
            && |q'.repository.entries| < |q.repository.entries|
  {}

  method TrimEntries(enc: Encoding, p: Projection, maxBytes: int, keep: nat) returns (q: Projection)
    requires keep <= |p.artifacts|
    ensures Trimmed(enc, p, q, keep) && q.recent == p.recent && q.artifacts == p.artifacts
            && q.repository.terms == p.repository.terms
    ensures enc.Size(q) <= maxBytes || q.repository.entries == []
    ensures enc.Size(p) <= maxBytes ==> q == p
    ensures q == p || Needed(enc, q, maxBytes)
  {
    q := p;
    ghost var last := p;
    while enc.Size(q) > maxBytes && q.repository.entries != []
      invariant Trimmed(enc, p, q, keep) && q.recent == p.recent && q.artifacts == p.artifacts
                && q.repository.terms == p.repository.terms
      invariant q != p ==> enc.Size(p) > maxBytes && enc.Size(last) > maxBytes && OneLess(enc, last, q)
      decreases |q.repository.entries|
    {
      EntryDropped(enc, p, q, keep);
      last := q;
      q := WithoutEntry(enc, q);
    }
  }

  function WithoutTerm(enc: Encoding, q: Projection): Projection
    requires q.repository.terms != []
  {
    var r := q.repository;
    q.(repository := Remade(enc, r.(terms := r.terms[..|r.terms| - 1])), truncated := true)
  }

  lemma TermDropped(enc: Encoding, p: Projection, q: Projection, keep: nat)
    requires Trimmed(enc, p, q, keep) && q.repository.terms != []
    ensures var q' := WithoutTerm(enc, q);
            && Trimmed(enc, p, q', keep) && OneLess(enc, q, q')
            && q'.recent == q.recent && q'.artifacts == q.artifacts && q'.repository.entries == q.repository.entries
            && |q'.repository.terms| < |q.repository.terms|
  {}

  method TrimTerms(enc: Encoding, p: Projection, maxBytes: int, keep: nat) returns (q: Projection)
    requires keep <= |p.artifacts|
    ensures Trimmed(enc, p, q, keep) && q.recent == p.recent && q.artifacts == p.artifacts
            && q.repository.entries == p.repository.entries
    ensures enc.Size(q) <= maxBytes || q.repository.terms == []
    ensures enc.Size(p) <= maxBytes ==> q == p
    ensures q == p || Needed(enc, q, maxBytes)
  {
    q := p;
    ghost var last := p;
    while enc.Size(q) > maxBytes && q.repository.terms != []
      invariant Trimmed(enc, p, q, keep) && q.recent == p.recent && q.artifacts == p.artifacts
                && q.repository.entries == p.repository.entries
      invariant q != p ==> enc.Size(p) > maxBytes && enc.Size(last) > maxBytes && OneLess(enc, last, q)
      decreases |q.repository.terms|
    {
      TermDropped(enc, p, q, keep);
      last := q;
      q := WithoutTerm(enc, q);
    }
  }

  method TrimArtifacts(enc: Encoding, p: Projection, maxBytes: int, keep: nat) returns (q: Projection)
    requires keep <= |p.artifacts|
    ensures Trimmed(enc, p, q, keep) && q.recent == p.recent && q.repository == p.repository
    ensures enc.Size(q) <= maxBytes || |q.artifacts| <= keep
    ensures enc.Size(p) <= maxBytes ==> q == p
    ensures q == p || Needed(enc, q, maxBytes)
  {
    q := p;
    while enc.Size(q) > maxBytes && |q.artifacts| > keep
      invariant Trimmed(enc, p, q, keep) && q.recent == p.recent && q.repository == p.repository
      invariant q != p ==> enc.Size(p) > maxBytes && Needed(enc, q, maxBytes)
      decreases |q.artifacts|
    {
      ghost var before := q;
      q := q.(artifacts := q.artifacts[..|q.artifacts| - 1], truncated := true);
      assert OneLess(enc, before, q);
    }
  }

  /** The repository part after a removal: marked, and its own byte count computed anew. */
  function Remade(enc: Encoding, r: Repository): (m: Repository)
  {
    var marked := r.(truncated := true);
    marked.(bytes := enc.Rendered(marked))
  }

  /** Everything that may be dropped, in the order in which it is dropped. */
  method Trim(enc: Encoding, p: Projection, maxBytes: int, keep: nat) returns (q: Projection)
    requires keep <= |p.artifacts|
    ensures Trimmed(enc, p, q, keep)
    ensures enc.Size(q) <= maxBytes || Bare(q, keep)
    ensures enc.Size(p) <= maxBytes ==> q == p
    ensures InOrder(p, q) && (q == p || Needed(enc, q, maxBytes))
  {
    var p1 := TrimRecent(enc, p, maxBytes, keep);
    var p2 := TrimEntries(enc, p1, maxBytes, keep);
    TrimmedTwice(enc, p, p1, p2, keep);
    var p3 := TrimTerms(enc, p2, maxBytes, keep);
    TrimmedTwice(enc, p, p2, p3, keep);
    q := TrimArtifacts(enc, p3, maxBytes, keep);
    TrimmedTwice(enc, p, p3, q, keep);
  }

  lemma TrimmedTwice(enc: Encoding, p: Projection, q: Projection, r: Projection, keep: nat)
    requires Trimmed(enc, p, q, keep) && Trimmed(enc, q, r, keep)
    ensures Trimmed(enc, p, r, keep)
  {}

  /** Four rounds are enough for the size field to describe the encoding that holds it. */
  method Settle(enc: Encoding, p: Projection) returns (q: Projection)
    requires p.bytes == 0
    ensures q == p.(bytes := Settled(enc.constant(p))) && q.bytes == enc.Size(q)
  {
    ghost var base := enc.constant(p);
    SettledDescribesItself(base);
    q := p;
    for i := 0 to 4
      invariant q == p.(bytes := q.bytes)
      invariant q.bytes == if i == 0 then 0 else if i == 1 then base + 1 else if i == 2 then base + Digits(base + 1) else Settled(base)
    {
      var n := enc.Size(q);
      if q.bytes == n { break; }
      q := q.(bytes := n);
    }
  }

  function WithDefaults(c: Config): Config {
    Config(if c.maxBytes <= 0 then 196608 else c.maxBytes,
           if c.maxRecentItems <= 0 then 8 else c.maxRecentItems,
           if c.maxRecentBytes <= 0 then 24576 else c.maxRecentBytes,
           if c.maxArtifacts <= 0 then 16 else c.maxArtifacts,
           if c.maxEntries <= 0 then 12 else c.maxEntries)
  }

  function FirstEntries(r: Repository, n: nat): seq<string> {
    if |r.entries| > n then r.entries[..n] else r.entries
  }

  /** The repository part and the events before anything is trimmed for size. */
  method Prepare(enc: Encoding, cfg: Config, repository: Repository, es: seq<Event>,
                 controls: seq<Control>, arts: seq<Artifact>, truncated: bool)
    returns (p: Projection)
    requires cfg.maxRecentItems > 0 && cfg.maxRecentBytes > 0
    ensures p.controls == controls && p.artifacts == arts && p.bytes == 0
    ensures p.repository.entries == FirstEntries(repository, cfg.maxEntries)
    ensures p.repository.terms == repository.terms && p.repository.bytes == enc.Rendered(p.repository)
    ensures WithinBudget(es, cfg.maxRecentItems, cfg.maxRecentBytes, p.recent)
    ensures p.truncated <==> truncated || |p.recent| < |es| || p.repository.entries != repository.entries || repository.truncated
  {
    var repo, cut := repository, truncated || repository.truncated;
    if |repo.entries| > cfg.maxEntries {
      repo, cut := repo.(entries := repo.entries[..cfg.maxEntries], truncated := true), true;
    }
    repo := repo.(bytes := enc.Rendered(repo));
    var kept := BoundDecisionRecent(es, cfg.maxRecentItems, cfg.maxRecentBytes);
    if |kept| < |es| { cut := true; }
    p := Projection(controls, arts, repo, kept, cut, 0);
  }

  /** What a projection can be made from at all. */
  ghost predicate Buildable(cfg: Config, s: State) {
    && cfg.maxBytes >= 2048 && s.identitiesMatch
    && (exists cs :: Complete(s, cs)) && Choosable(s, cfg.maxArtifacts)
  }

  /** The projection before it is trimmed to the byte bound. */
  ghost predicate Untrimmed(enc: Encoding, cfg: Config, s: State, repository: Repository, es: seq<Event>, p: Projection)
    requires cfg.maxRecentItems > 0 && cfg.maxRecentBytes > 0
  {
    && Complete(s, p.controls) && CriticalFirst(s, p.artifacts) && LeastOptional(s, p.artifacts)
    && |p.artifacts| == (if |s.artifacts| > cfg.maxArtifacts then cfg.maxArtifacts else |s.artifacts|)
    && p.repository.entries == FirstEntries(repository, cfg.maxEntries) && p.repository.terms == repository.terms
    && p.repository.bytes == enc.Rendered(p.repository)
    && WithinBudget(es, cfg.maxRecentItems, cfg.maxRecentBytes, p.recent)
    && p.bytes == 0
    && (p.truncated <==> || |p.recent| < |es| || |p.artifacts| < |s.artifacts|
                         || p.repository.entries != repository.entries || repository.truncated)
  }

  /** What the configuration allows; a limit that is not set has a default. */
  predicate WithinLimits(config: Config, p: Projection) {
    && p.bytes <= (if config.maxBytes <= 0 then 192 * 1024 else config.maxBytes)
    && |p.artifacts| <= (if config.maxArtifacts <= 0 then 16 else config.maxArtifacts)
    && |p.repository.entries| <= (if config.maxEntries <= 0 then 12 else config.maxEntries)
    && |p.recent| <= (if config.maxRecentItems <= 0 then 8 else config.maxRecentItems)
    && TotalBytes(p.recent) <= (if config.maxRecentBytes <= 0 then 24 * 1024 else config.maxRecentBytes)
  }

  lemma {:induction false} NewerAreFewer(es: seq<Event>, k: nat)
    requires k <= |es|
    ensures TotalBytes(es[k..]) <= TotalBytes(es)
    decreases |es|
  {
    if k < |es| {
      var n := |es| - 1;
      NewerAreFewer(es[..n], k);
      assert es[k..][..|es[k..]| - 1] == es[..n][k..];
    }
  }

  lemma TrimmedIsWithinLimits(config: Config, whole: Projection, q: Projection)
    requires |whole.artifacts| <= WithDefaults(config).maxArtifacts && |whole.repository.entries| <= WithDefaults(config).maxEntries
    requires |whole.recent| <= WithDefaults(config).maxRecentItems && TotalBytes(whole.recent) <= WithDefaults(config).maxRecentBytes
    requires |q.artifacts| <= |whole.artifacts| && |q.repository.entries| <= |whole.repository.entries|
    requires |q.recent| <= |whole.recent| && q.recent == whole.recent[|whole.recent| - |q.recent|..]
    ensures forall bytes: nat | bytes <= WithDefaults(config).maxBytes :: WithinLimits(config, q.(bytes := bytes))
  {
    NewerAreFewer(whole.recent, |whole.recent| - |q.recent|);
  }

  lemma LimitsAreKept(enc: Encoding, config: Config, s: State, repository: Repository, es: seq<Event>,
                      whole: Projection, q: Projection)
    requires Untrimmed(enc, WithDefaults(config), s, repository, es, whole) && Trimmed(enc, whole, q, |s.critical|)
    ensures forall bytes: nat | bytes <= WithDefaults(config).maxBytes :: WithinLimits(config, q.(bytes := bytes))
  {
    TrimmedIsWithinLimits(config, whole, q);
  }

  /** The projection before it is trimmed, if the state is consistent. */
  method Assemble(enc: Encoding, cfg: Config, s: State, repository: Repository, es: seq<Event>) returns (r: Result<Projection>)
    requires cfg.maxRecentItems > 0 && cfg.maxRecentBytes > 0
    ensures r.Ok? <==> Buildable(cfg, s)
    ensures r.Ok? ==> Untrimmed(enc, cfg, s, repository, es, r.value)
  {
    if cfg.maxBytes < 2048 || !s.identitiesMatch { return Err; }
    var controls := OrderControls(s);
    if controls.Err? { return Err; }
    var arts, cut := ChooseArtifacts(s, cfg.maxArtifacts);
    if arts.Err? { return Err; }
    var p := Prepare(enc, cfg, repository, es, controls.value, arts.value, cut);
    r := Ok(p);
  }

  /**
   * On success the size field is the encoded size and within the bound, every control and every
   * critical artifact is there, and whatever is missing is marked. It succeeds exactly when the
   * state is consistent and what trimming has left of `whole`, which is `trimmed`, leaves room for
   * the digits of the bound.
   */
  method BuildDecisionProjection(enc: Encoding, config: Config, s: State, repository: Repository, es: seq<Event>)
    returns (r: Result<Projection>, ghost whole: Projection, ghost trimmed: Projection)
    ensures r.Ok? ==>
              && r.value.bytes == enc.Size(r.value) && WithinLimits(config, r.value)
              && Complete(s, r.value.controls) && CriticalFirst(s, r.value.artifacts)
              && r.value.repository.entries <= repository.entries && r.value.repository.terms <= repository.terms
              && (|| |r.value.repository.entries| < |repository.entries| || |r.value.repository.terms| < |repository.terms|
                  || |r.value.recent| < |es| || |r.value.artifacts| < |s.artifacts|
                  ==> r.value.truncated)
    ensures var cfg := WithDefaults(config);
            Buildable(cfg, s) ==>
              && Untrimmed(enc, cfg, s, repository, es, whole) && Trimmed(enc, whole, trimmed, |s.critical|)
              && (enc.Size(whole) <= cfg.maxBytes ==> trimmed == whole)
              && InOrder(whole, trimmed) && (trimmed == whole || Needed(enc, trimmed, cfg.maxBytes))
              && (enc.Size(trimmed) <= cfg.maxBytes || Bare(trimmed, |s.critical|))
              && (r.Ok? ==> r.value == trimmed.(bytes := r.value.bytes))
    ensures var cfg := WithDefaults(config);
            r.Ok? <==> Buildable(cfg, s) && enc.constant(trimmed) + Digits(cfg.maxBytes) <= cfg.maxBytes
  {
    whole := Projection([], [], repository, [], false, 0);
    trimmed := whole;
    var cfg := WithDefaults(config);
    var assembled := Assemble(enc, cfg, s, repository, es);
    if assembled.Err? { return Err, whole, trimmed; }
    whole := assembled.value;
    var p := Trim(enc, assembled.value, cfg.maxBytes, |s.critical|);
    trimmed := p;
    StillCritical(s, whole.artifacts, p.artifacts);
    LimitsAreKept(enc, config, s, repository, es, whole, trimmed);
    p := Settle(enc, p);
    SettledFitsIff(enc.constant(trimmed), cfg.maxBytes);
    if enc.Size(p) > cfg.maxBytes { return Err, whole, trimmed; }
    r := Ok(p.(bytes := enc.Size(p)));
  }

  lemma StillCritical(s: State, arts: seq<Artifact>, kept: seq<Artifact>)
    requires CriticalFirst(s, arts) && kept <= arts && |kept| >= |s.critical|
    ensures CriticalFirst(s, kept)
  {
    assert kept[..|s.critical|] == arts[..|s.critical|];
  }

  /**
   * Trimming measures with an empty size field. It stops although the settled size is too large
   * exactly when the constant part is within the digits of the bound under the bound.
   */
  lemma StopsTooEarlyIff(enc: Encoding, p: Projection, maxBytes: nat)
    requires p.bytes == 0
    ensures enc.Size(p) <= maxBytes < Settled(enc.constant(p)) <==> maxBytes - Digits(maxBytes) < enc.constant(p) < maxBytes
  {
    SettledFitsIff(enc.constant(p), maxBytes);
  }

  function Lengths(ss: seq<string>): nat {
    if ss == [] then 0 else |ss[0]| + 3 + Lengths(ss[1..])
  }

  lemma LengthsOfOne(e: string)
    ensures Lengths([e]) == |e| + 3
  {
    assert [e][1..] == [];
  }

  /** An encoding in which every entry and term takes its length, its quotes and a comma. */
  function Plain(base: nat): Encoding {
    Encoding((p: Projection) => base + Lengths(p.repository.entries) + Lengths(p.repository.terms),
             (r: Repository) => Lengths(r.entries) + Lengths(r.terms))
  }

  lemma EntriesDropped(enc: Encoding, p: Projection, keep: nat)
    requires keep <= |p.artifacts|
    ensures Trimmed(enc, p, p.(repository := Remade(enc, p.repository.(entries := [])), truncated := true), keep)
  {
    assert p.recent[|p.recent| - |p.recent|..] == p.recent;
  }

  const SMALL: Config := Config(2048, 8, 24576, 16, 12)

  /** With such a part nothing is trimmed, but the size does not settle within the bound. */
  lemma JustTooLarge(whole: Projection, entry: string)
    requires |entry| == 1042 && whole.repository.entries == [entry] && whole.repository.terms == [] && whole.bytes == 0
    ensures Plain(1000).Size(whole) <= 2048 < Plain(1000).constant(whole) + Digits(2048)
  {
    LengthsOfOne(entry);
    assert whole.(bytes := 0) == whole;
    assert Plain(1000).constant(whole) == 2045;
    assert Digits(2048) == 4;
  }

  lemma FitsWithoutEntries(whole: Projection, keep: nat) returns (smaller: Projection)
    requires keep <= |whole.artifacts| && whole.repository.terms == []
    ensures Trimmed(Plain(1000), whole, smaller, keep) && Settled(Plain(1000).constant(smaller)) <= 2048
  {
    smaller := whole.(repository := Remade(Plain(1000), whole.repository.(entries := [])), truncated := true);
    EntriesDropped(Plain(1000), whole, keep);
    assert Plain(1000).constant(smaller) == 1000 && Digits(2048) == 4;
    SettledFitsIff(1000, 2048);
  }

  /** So it does fail although dropping its only entry would make the projection fit. */
  method FailsWithRoomToTrim(s: State, entry: string)
    returns (r: Result<Projection>, ghost whole: Projection, ghost smaller: Projection)
    requires Buildable(SMALL, s) && |entry| == 1042
    ensures r.Err? && whole.repository.entries == [entry] && Trimmed(Plain(1000), whole, smaller, |s.critical|)
    ensures Settled(Plain(1000).constant(smaller)) <= 2048
  {
    ghost var trimmed;
    r, whole, trimmed := BuildDecisionProjection(Plain(1000), SMALL, s, Repository([], [entry], false, 0), []);
    assert whole.repository.entries == [entry] && whole.repository.terms == [];
    JustTooLarge(whole, entry);
    smaller := FitsWithoutEntries(whole, |s.critical|);
  }

  // ----- Context packs -----

  datatype Entry = Entry(head: string, text: Bytes, truncated: bool)

  datatype Pack = Pack(terms: seq<string>, entries: seq<Entry>, truncated: bool, bytes: nat)

  /** `q` keeps a first part of the terms and of the entries, of which only the last can have lost the end of its text. */
  ghost predicate Fitted(p: Pack, q: Pack) {
    && q.terms <= p.terms && |q.entries| <= |p.entries|
    && (forall i | 0 <= i < |q.entries| - 1 :: q.entries[i] == p.entries[i])
    && (q.entries != [] ==> var n := |q.entries| - 1;
          && q.entries[n].head == p.entries[n].head && q.entries[n].text <= p.entries[n].text
          && (q.entries[n] != p.entries[n] ==> q.entries[n].truncated))
    && (q.entries != p.entries ==> q.terms == [])
    && (q.(bytes := 0) != p.(bytes := 0) ==> q.truncated)
  }

  /**
   * One step of the fitting, from a pack that is still too large: it loses its last term, or
   * without terms its last entry, or the end of that entry's text if that is long enough to make
   * up for the excess; then no more is cut than that and 35 bytes.
   */
  ghost predicate Cut(render: Pack -> nat, maxBytes: int, p: Pack, q: Pack) {
    var over, n := render(p.(bytes := 0)) - maxBytes, |p.entries| - 1;
    && over > 0
    && if p.terms != [] then q == p.(truncated := true, terms := p.terms[..|p.terms| - 1])
       else
         && p.entries != []
         && var text := p.entries[n].text;
            if |text| <= over + 64 then q == p.(truncated := true, entries := p.entries[..n])
            else
              && |q.entries| == n + 1
              && q == p.(truncated := true, entries := p.entries[n := Entry(p.entries[n].head, q.entries[n].text, true)])
              && q.entries[n].text <= text && |q.entries[n].text| <= |text| - over - 32
              && (ValidUTF8(text) ==> ValidUTF8(q.entries[n].text) && |q.entries[n].text| >= |text| - over - 35)
  }

  /** Before its last step it was too large. */
  ghost predicate LastCut(render: Pack -> nat, maxBytes: int, p: Pack, q: Pack) {
    exists before :: Fitted(p, before) && Cut(render, maxBytes, before, q)
  }

  /**
   * Ends within the bound, or with no terms and no entries left; nothing is taken from a pack that
   * fits. `render` does not look at the byte count. The count is that of the result, except that a
   * pack that was empty from the start keeps the count from before it was marked as truncated.
   */
  method FitPack(render: Pack -> nat, p: Pack, maxBytes: int) returns (q: Pack)
    ensures Fitted(p, q)
    ensures q.bytes == render((if p.terms == [] && p.entries == [] then p else q).(bytes := 0))
    ensures q.bytes <= maxBytes || (q.terms == [] && q.entries == [])
    ensures render(p.(bytes := 0)) <= maxBytes ==> q == p.(bytes := render(p.(bytes := 0)))
    ensures q.terms != p.terms || q.entries != p.entries ==> LastCut(render, maxBytes, p, q.(bytes := p.bytes))
  {
    q := p;
    while true
      invariant Fitted(p, q) && q.bytes == p.bytes
      invariant q != p ==> q.truncated && render(p.(bytes := 0)) > maxBytes && LastCut(render, maxBytes, p, q)
      invariant q != p ==> p.terms != [] || p.entries != []
      decreases |q.terms|, |q.entries|, if q.entries == [] then 0 else |q.entries[|q.entries| - 1].text|
    {
      ghost var before := q;
      var rendered := render(q.(bytes := 0));
      if rendered <= maxBytes {
        assert q.(bytes := rendered).(bytes := p.bytes) == q;
        return q.(bytes := rendered);
      }
      if q.terms == [] && q.entries == [] {
        assert q != p ==> q.(truncated := true) == q;
        return q.(truncated := true, bytes := rendered);
      }
      q := CutOnce(render, p, q, maxBytes, rendered);
      assert Cut(render, maxBytes, before, q);
    }
  }

  method CutOnce(render: Pack -> nat, ghost p: Pack, q: Pack, maxBytes: int, rendered: nat) returns (r: Pack)
    requires Fitted(p, q) && rendered == render(q.(bytes := 0)) > maxBytes && (q.terms != [] || q.entries != [])
    ensures Fitted(p, r) && Cut(render, maxBytes, q, r) && r.bytes == q.bytes && r.truncated
    ensures |r.terms| < |q.terms| || (r.terms == q.terms && |r.entries| < |q.entries|)
            || (r.terms == q.terms && |r.entries| == |q.entries| > 0
                && |r.entries[|r.entries| - 1].text| < |q.entries[|q.entries| - 1].text|)
  {
    r := q.(truncated := true);
    if q.terms != [] {
      r := r.(terms := q.terms[..|q.terms| - 1]);
      return;
    }
    var n := |q.entries| - 1;
    var last, over := q.entries[n], rendered - maxBytes;
    if |last.text| > over + 64 {
      var text := TruncateUTF8(last.text, |last.text| - over - 32);
      r := r.(entries := q.entries[n := Entry(last.head, text, true)]);
      return;
    }
    r := r.(entries := q.entries[..n]);
  }
}
