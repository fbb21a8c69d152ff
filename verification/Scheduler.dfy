/** Task selection: internal/scheduler/scheduler.go, and how long a task can be passed over. */
module Scheduler {
  import opened FiniteSets
  import opened StringOrder

  type Time = int

  datatype Task = Task(id: string, project: string, priority: string, updatedAt: Time, createdAt: Time)

  /** `priority` trimmed and in upper case. */
  function PriorityRank(priority: string): nat {
    if priority == "P0" || priority == "CRITICAL" then 0
    else if priority == "P1" || priority == "HIGH" then 1
    else if priority == "P2" || priority == "NORMAL" || priority == "MEDIUM" then 2
    else 3
  }

  function EffectivePriority(priority: string, waitingSince: Time, now: Time, aging: Time): (r: nat)
    ensures r <= PriorityRank(priority)
  {
    var base := PriorityRank(priority);
    if now < waitingSince || aging <= 0 then base
    else
      var steps := (now - waitingSince) / aging;
      if steps >= base then 0 else base - steps
  }

  /** Waiting never makes a task less urgent. */
  lemma AgingIsMonotone(priority: string, since: Time, now: Time, later: Time, aging: Time)
    requires since <= now <= later
    ensures EffectivePriority(priority, since, later, aging) <= EffectivePriority(priority, since, now, aging)
  {
    if aging > 0 {
      QuotientIsMonotone(now - since, later - since, aging);
    }
  }

  lemma {:induction false} QuotientIsMonotone(a: nat, b: nat, d: int)
    requires a <= b && d > 0
    ensures a / d <= b / d
    decreases b
  {
    if b >= d {
      OneMore(b - d, d);
      if a >= d {
        OneMore(a - d, d);
        QuotientIsMonotone(a - d, b - d, d);
      }
    }
  }

  lemma OneMore(a: nat, d: int)
    requires d > 0
    ensures (a + d) / d == a / d + 1
  {
    var q, q' := a / d + 1, (a + d) / d;
    assert a == (q - 1) * d + a % d && a + d == q' * d + (a + d) % d;
    assert (q - 1) * d == q * d - d;
    forall x: nat, y: nat {:trigger x * d, y * d} | x < y ensures x * d + d <= y * d {
      Grows(x + 1, y, d);
      assert (x + 1) * d == x * d + d;
    }
  }

  /** After three aging intervals everything is as urgent as P0. */
  lemma AgingReachesZero(priority: string, since: Time, now: Time, aging: Time)
    requires aging > 0 && now - since >= 3 * aging
    ensures EffectivePriority(priority, since, now, aging) == 0
  {
    QuotientIsMonotone(3 * aging, now - since, aging);
    assert 3 * aging / aging == 3;
  }

  /** The classes of priorities by name, the most urgent first; any other text is in the last. */
  ghost predicate InClass(priority: string, rank: nat) {
    && rank <= 3
    && (rank == 0 <==> priority in {"P0", "CRITICAL"})
    && (rank == 1 <==> priority in {"P1", "HIGH"})
    && (rank == 2 <==> priority in {"P2", "NORMAL", "MEDIUM"})
  }

  lemma ClassIsRank(priority: string, rank: nat)
    ensures InClass(priority, rank) <==> rank == PriorityRank(priority)
  {}

  /** So many full aging intervals have passed; none before the task waits or without aging. */
  ghost predicate FullIntervals(since: Time, now: Time, aging: Time, steps: nat) {
    if aging <= 0 || now < since then steps == 0 else steps * aging <= now - since < (steps + 1) * aging
  }

  /** How urgent a task is: its class, one class less for each full aging interval, down to 0. */
  ghost predicate Urgency(t: Task, now: Time, aging: Time, r: nat) {
    exists rank: nat, steps: nat | InClass(t.priority, rank) && FullIntervals(t.updatedAt, now, aging, steps) ::
      r == if steps >= rank then 0 else rank - steps
  }

  lemma IntervalsAreQuotient(wait: nat, aging: int, steps: nat)
    requires aging > 0
    ensures steps * aging <= wait < (steps + 1) * aging <==> steps == wait / aging
  {
    var q := wait / aging;
    assert wait == q * aging + wait % aging && (q + 1) * aging == q * aging + aging;
    if steps < q {
      Grows(steps + 1, q, aging);
    } else if steps > q {
      Grows(q + 1, steps, aging);
    }
  }

  /** The effective priority is the urgency, and nothing else is. */
  lemma UrgencyIsEffective(t: Task, now: Time, aging: Time, r: nat)
    ensures Urgency(t, now, aging, r) <==> r == EffectivePriority(t.priority, t.updatedAt, now, aging)
  {
    var rank := PriorityRank(t.priority);
    ClassIsRank(t.priority, rank);
    var steps := if aging <= 0 || now < t.updatedAt then 0 else (now - t.updatedAt) / aging;
    if aging > 0 && now >= t.updatedAt {
      IntervalsAreQuotient(now - t.updatedAt, aging, steps);
    }
    assert FullIntervals(t.updatedAt, now, aging, steps);
    forall k: nat, n: nat | InClass(t.priority, k) && FullIntervals(t.updatedAt, now, aging, n) ensures k == rank && n == steps {
      ClassIsRank(t.priority, k);
      if aging > 0 && now >= t.updatedAt {
        IntervalsAreQuotient(now - t.updatedAt, aging, n);
      }
    }
  }

  // ----- The two orders of selectTask -----

  type States = map<string, Time>  // the last dispatch of each project that ever had one

  datatype Candidate = Candidate(task: Task, effective: nat)

  /** Which of two tasks of one project replaces the other as its project's candidate. */
  predicate Replaces(a: Candidate, b: Candidate) {
    || a.effective < b.effective
    || (a.effective == b.effective && a.task.updatedAt < b.task.updatedAt)
    || (a.effective == b.effective && a.task.updatedAt == b.task.updatedAt && a.task.createdAt < b.task.createdAt)
  }

  /** Never dispatched comes before any dispatch. */
  predicate DispatchedEarlier(states: States, p: string, q: string) {
    q in states && (p in states ==> states[p] < states[q])
  }

  /** Which of two projects' candidates goes first. */
  predicate Precedes(states: States, a: Candidate, b: Candidate) {
    if a.effective != b.effective then a.effective < b.effective
    else if DispatchedEarlier(states, a.task.project, b.task.project) then true
    else if DispatchedEarlier(states, b.task.project, a.task.project) then false
    else if a.task.updatedAt != b.task.updatedAt then a.task.updatedAt < b.task.updatedAt
    else if a.task.project != b.task.project then Less(a.task.project, b.task.project)
    else Less(a.task.id, b.task.id)
  }

  lemma PrecedesIsStrict(states: States, a: Candidate, b: Candidate)
    ensures !(Precedes(states, a, b) && Precedes(states, b, a))
    ensures a.task.project != b.task.project ==> Precedes(states, a, b) || Precedes(states, b, a)
  {
    LessIsTotal(a.task.project, b.task.project);
    LessIsTotal(a.task.id, b.task.id);
  }

  lemma PrecedesIsTransitive(states: States, a: Candidate, b: Candidate, c: Candidate)
    requires Precedes(states, a, b) && Precedes(states, b, c)
    ensures Precedes(states, a, c)
  {
    LessIsTotal(a.task.project, b.task.project);
    LessIsTotal(b.task.project, c.task.project);
    if Less(a.task.project, b.task.project) && Less(b.task.project, c.task.project) {
      LessIsTransitive(a.task.project, b.task.project, c.task.project);
    }
    if Less(a.task.id, b.task.id) && Less(b.task.id, c.task.id) {
      LessIsTransitive(a.task.id, b.task.id, c.task.id);
    }
  }

  // ----- What is selected -----

  function Ranked(t: Task, now: Time, aging: Time): Candidate {
    Candidate(t, EffectivePriority(t.priority, t.updatedAt, now, aging))
  }

  /** `c` is the first of its project's tasks that no other one would replace. */
  ghost predicate Leads(tasks: seq<Task>, now: Time, aging: Time, c: Candidate) {
    exists i ::
      && 0 <= i < |tasks| && c == Ranked(tasks[i], now, aging)
      && (forall j | 0 <= j < |tasks| && tasks[j].project == c.task.project :: !Replaces(Ranked(tasks[j], now, aging), c))
      && (forall j | 0 <= j < i && tasks[j].project == c.task.project :: Replaces(c, Ranked(tasks[j], now, aging)))
  }

  /** `c` leads its project and precedes every other project's leader. */
  ghost predicate Selected(tasks: seq<Task>, states: States, now: Time, aging: Time, c: Candidate) {
    && Leads(tasks, now, aging, c)
    && forall d | Leads(tasks, now, aging, d) && d.task.project != c.task.project :: Precedes(states, c, d)
  }

  lemma LeaderIsUnique(tasks: seq<Task>, now: Time, aging: Time, c: Candidate, d: Candidate)
    requires Leads(tasks, now, aging, c) && Leads(tasks, now, aging, d) && c.task.project == d.task.project
    ensures c == d
  {}

  /** There is one right choice; no order of a map's iteration or of an unstable sort can change it. */
  lemma SelectionIsUnique(tasks: seq<Task>, states: States, now: Time, aging: Time, c: Candidate, d: Candidate)
    requires Selected(tasks, states, now, aging, c) && Selected(tasks, states, now, aging, d)
    ensures c == d
  {
    if c.task.project == d.task.project {
      LeaderIsUnique(tasks, now, aging, c, d);
    } else {
      PrecedesIsStrict(states, c, d);
    }
  }

  // ----- selectTask -----

  /** The candidates found in the first `n` tasks. */
  ghost predicate Found(tasks: seq<Task>, n: nat, now: Time, aging: Time, m: map<string, Candidate>)
    requires n <= |tasks|
  {
    && (forall i | 0 <= i < n :: tasks[i].project in m)
    && (forall p | p in m :: m[p].task.project == p && Leads(tasks[..n], now, aging, m[p]))
  }

  lemma LeaderStays(tasks: seq<Task>, n: nat, now: Time, aging: Time, c: Candidate)
    requires n < |tasks| && Leads(tasks[..n], now, aging, c)
    requires tasks[n].project != c.task.project || !Replaces(Ranked(tasks[n], now, aging), c)
    ensures Leads(tasks[..n + 1], now, aging, c)
  {
    var before, now_ := tasks[..n], tasks[..n + 1];
    var i :| 0 <= i < n && c == Ranked(before[i], now, aging)
             && (forall j | 0 <= j < i && before[j].project == c.task.project :: Replaces(c, Ranked(before[j], now, aging)));
    assert forall j | 0 <= j < n :: now_[j] == before[j];
  }

  /** The new task leads if it replaces the leader so far, or if its project is new. */
  lemma NewLeader(tasks: seq<Task>, n: nat, now: Time, aging: Time, m: map<string, Candidate>)
    requires n < |tasks| && Found(tasks, n, now, aging, m)
    requires tasks[n].project in m ==> Replaces(Ranked(tasks[n], now, aging), m[tasks[n].project])
    ensures Leads(tasks[..n + 1], now, aging, Ranked(tasks[n], now, aging))
  {
    var c, p := Ranked(tasks[n], now, aging), tasks[n].project;
    var before, now_ := tasks[..n], tasks[..n + 1];
    forall j | 0 <= j < n && before[j].project == p ensures Replaces(c, Ranked(before[j], now, aging)) {
      assert before[j] == tasks[j] && !Replaces(Ranked(before[j], now, aging), m[p]);
    }
    assert forall j | 0 <= j < n :: now_[j] == before[j];
    assert c == Ranked(now_[n], now, aging);
  }

  method FindCandidates(tasks: seq<Task>, now: Time, aging: Time) returns (byProject: map<string, Candidate>)
    ensures Found(tasks, |tasks|, now, aging, byProject)
  {
    byProject := map[];
    for n := 0 to |tasks|
      invariant Found(tasks, n, now, aging, byProject)
    {
      var c, p := Ranked(tasks[n], now, aging), tasks[n].project;
      ghost var old_ := byProject;
      if p !in byProject || Replaces(c, byProject[p]) {
        NewLeader(tasks, n, now, aging, byProject);
        byProject := byProject[p := c];
      }
      forall q | q in byProject ensures Leads(tasks[..n + 1], now, aging, byProject[q]) {
        if q in old_ && byProject[q] == old_[q] {
          LeaderStays(tasks, n, now, aging, old_[q]);
        }
      }
    }
  }

  ghost predicate Sorted(states: States, cs: seq<Candidate>) {
    forall i, j | 0 <= i < j < |cs| :: Precedes(states, cs[i], cs[j])
  }

  ghost predicate OnePerProject(cs: seq<Candidate>) {
    forall i, j | 0 <= i < j < |cs| :: cs[i].task.project != cs[j].task.project
  }

  /** Stands for the library's sort. */
  method Sort(states: States, cs: seq<Candidate>) returns (r: seq<Candidate>)
    requires OnePerProject(cs)
    ensures multiset(r) == multiset(cs) && Sorted(states, r)
  {
    r := [];
    for n := 0 to |cs|
      invariant multiset(r) == multiset(cs[..n]) && Sorted(states, r)
    {
      assert cs[..n + 1] == cs[..n] + [cs[n]];
      forall i | 0 <= i < |r| ensures r[i].task.project != cs[n].task.project {
        assert r[i] in multiset(cs[..n]);
      }
      r := Insert(states, r, cs[n]);
    }
    assert cs[..|cs|] == cs;
  }

  lemma InsertedIsSorted(states: States, cs: seq<Candidate>, c: Candidate, k: nat)
    requires Sorted(states, cs) && k <= |cs| && forall i | 0 <= i < |cs| :: cs[i].task.project != c.task.project
    requires forall i | 0 <= i < k :: Precedes(states, cs[i], c)
    requires k < |cs| ==> !Precedes(states, cs[k], c)
    ensures Sorted(states, cs[..k] + [c] + cs[k..])
  {
    forall i | k <= i < |cs| ensures Precedes(states, c, cs[i]) {
      PrecedesIsStrict(states, c, cs[k]);
      if i > k {
        PrecedesIsTransitive(states, c, cs[k], cs[i]);
      }
    }
  }

  method Insert(states: States, cs: seq<Candidate>, c: Candidate) returns (r: seq<Candidate>)
    requires Sorted(states, cs) && forall i | 0 <= i < |cs| :: cs[i].task.project != c.task.project
    ensures multiset(r) == multiset(cs) + multiset{c} && Sorted(states, r)
  {
    var k := 0;
    while k < |cs| && Precedes(states, cs[k], c)
      invariant 0 <= k <= |cs| && forall i | 0 <= i < k :: Precedes(states, cs[i], c)
    {
      k := k + 1;
    }
    InsertedIsSorted(states, cs, c, k);
    r := cs[..k] + [c] + cs[k..];
    assert cs == cs[..k] + cs[k..];
  }

  lemma SameMembers(a: seq<Candidate>, b: seq<Candidate>)
    requires multiset(a) == multiset(b)
    ensures forall c :: c in a <==> c in b
  {
    assert forall c :: c in a <==> c in multiset(a);
    assert forall c :: c in b <==> c in multiset(b);
  }

  lemma FirstIsSelected(tasks: seq<Task>, states: States, now: Time, aging: Time, m: map<string, Candidate>, cs: seq<Candidate>)
    requires tasks != [] && Found(tasks, |tasks|, now, aging, m) && Sorted(states, cs)
    requires forall c :: c in cs <==> c.task.project in m && c == m[c.task.project]
    ensures cs != [] && Selected(tasks, states, now, aging, cs[0])
  {
    assert tasks[..|tasks|] == tasks;
    assert m[tasks[0].project] in cs;
    forall d | Leads(tasks, now, aging, d) && d.task.project != cs[0].task.project ensures Precedes(states, cs[0], d) {
      LeaderIsUnique(tasks, now, aging, d, m[d.task.project]);
      assert d in cs;
    }
  }

  /**
   * Which of two equally urgent tasks goes first: in one project the one that waits longer, then
   * the older one; of two projects the one never dispatched, then the one dispatched longer ago,
   * then the one whose task waits longer, then the one whose name is less.
   */
  ghost predicate GoesFirst(states: States, t: Task, u: Task) {
    if t.project == u.project then t.updatedAt < u.updatedAt || (t.updatedAt == u.updatedAt && t.createdAt <= u.createdAt)
    else
      && (t.project in states ==> u.project in states && states[t.project] <= states[u.project])
      && ((t.project !in states && u.project !in states)
          || (t.project in states && u.project in states && states[t.project] == states[u.project])
          ==> t.updatedAt < u.updatedAt || (t.updatedAt == u.updatedAt && Less(t.project, u.project)))
  }

  /** The selected task is the most urgent of all, and of the equally urgent it goes first. */
  lemma SelectedIsFirst(tasks: seq<Task>, states: States, now: Time, aging: Time, m: map<string, Candidate>, c: Candidate, u: Task)
    requires Selected(tasks, states, now, aging, c) && Found(tasks, |tasks|, now, aging, m) && u in tasks
    ensures c.effective <= Ranked(u, now, aging).effective
    ensures c.effective == Ranked(u, now, aging).effective ==> GoesFirst(states, c.task, u)
  {
    assert tasks[..|tasks|] == tasks;
    var i :| 0 <= i < |tasks| && tasks[i] == u;
    var d := m[u.project];
    assert Leads(tasks, now, aging, d) && !Replaces(Ranked(tasks[i], now, aging), d);
    if u.project == c.task.project {
      LeaderIsUnique(tasks, now, aging, c, d);
    } else {
      assert Precedes(states, c, d);
      LessIsTotal(c.task.project, u.project);
    }
  }

  method SelectTask(tasks: seq<Task>, states: States, now: Time, aging: Time) returns (task: Task)
    requires tasks != []
    ensures task in tasks && Selected(tasks, states, now, aging, Ranked(task, now, aging))
    ensures forall u, q: nat, r: nat | u in tasks && Urgency(task, now, aging, q) && Urgency(u, now, aging, r) ::
              q <= r && (q == r ==> GoesFirst(states, task, u))
  {
    var byProject := FindCandidates(tasks, now, aging);
    var candidates := Collect(byProject);
    var sorted := Sort(states, candidates);
    SameMembers(sorted, candidates);
    FirstIsSelected(tasks, states, now, aging, byProject, sorted);
    task := sorted[0].task;
    forall u, q: nat, r: nat | u in tasks && Urgency(task, now, aging, q) && Urgency(u, now, aging, r)
      ensures q <= r && (q == r ==> GoesFirst(states, task, u))
    {
      UrgencyIsEffective(task, now, aging, q);
      UrgencyIsEffective(u, now, aging, r);
      SelectedIsFirst(tasks, states, now, aging, byProject, sorted[0], u);
    }
  }

  /** The candidates in whatever order the map yields them. */
  method Collect(byProject: map<string, Candidate>) returns (candidates: seq<Candidate>)
    requires forall p | p in byProject :: byProject[p].task.project == p
    ensures OnePerProject(candidates)
    ensures forall c :: c in candidates <==> c.task.project in byProject && c == byProject[c.task.project]
  {
    candidates := [];
    var rest := byProject;
    while rest != map[]
      invariant rest.Keys <= byProject.Keys && forall p | p in rest :: rest[p] == byProject[p]
      invariant OnePerProject(candidates)
      invariant forall c :: c in candidates <==> c.task.project in byProject.Keys - rest.Keys && c == byProject[c.task.project]
      decreases |rest|
    {
      var p :| p in rest;
      candidates := candidates + [rest[p]];
      rest := rest - {p};
    }
  }

  // ----- Bounded waiting -----

  /** One successful dispatch: who was waiting, and which task was selected. */
  datatype Round = Round(waiting: seq<Task>, now: Time, chosen: Task)

  function After(states: States, r: Round): States {
    states[r.chosen.project := r.now]
  }

  /** The round selects, at a time after all earlier dispatches, a task other than `t`, which is waiting at effective rank 0. */
  ghost predicate PassesOver(t: Task, projects: set<string>, aging: Time, states: States, r: Round) {
    && t in r.waiting && r.chosen != t
    && (forall x | x in r.waiting :: x.project in projects)
    && (forall p | p in states :: states[p] < r.now)
    && EffectivePriority(t.priority, t.updatedAt, r.now, aging) == 0
    && Selected(r.waiting, states, r.now, aging, Ranked(r.chosen, r.now, aging))
  }

  /** Time goes on, the chosen task waits no more, and whatever enters has waited for less long than `t`. */
  ghost predicate GoesOn(t: Task, r: Round, next: Round) {
    r.now < next.now && forall x | x in next.waiting && x.updatedAt <= t.updatedAt :: x in r.waiting && x != r.chosen
  }

  /** A history of dispatches in which `t` is passed over every time. */
  ghost predicate PassedOver(t: Task, projects: set<string>, aging: Time, states: States, rounds: seq<Round>)
    decreases |rounds|
  {
    rounds != [] ==>
      && PassesOver(t, projects, aging, states, rounds[0])
      && (|rounds| > 1 ==> GoesOn(t, rounds[0], rounds[1]))
      && PassedOver(t, projects, aging, After(states, rounds[0]), rounds[1..])
  }

  /** The tasks of its project that have waited at least as long. */
  function Ahead(t: Task, waiting: seq<Task>): set<Task> {
    set x | x in waiting && x != t && x.project == t.project && x.updatedAt <= t.updatedAt
  }

  /** The other projects whose turn can come before the project of `t`. */
  function Rivals(t: Task, projects: set<string>, states: States): set<string> {
    set p | p in projects && p != t.project && !DispatchedEarlier(states, t.project, p)
  }

  lemma LeaderExists(tasks: seq<Task>, now: Time, aging: Time, t: Task)
    requires t in tasks && EffectivePriority(t.priority, t.updatedAt, now, aging) == 0
    ensures exists c :: Leads(tasks, now, aging, c) && c.task.project == t.project && c.effective == 0
  {
    var c := LeaderOf(tasks, now, aging, t.project);
    assert exists i :: 0 <= i < |tasks| && tasks[i] == t;
  }

  lemma {:induction false} LeaderOf(tasks: seq<Task>, now: Time, aging: Time, p: string) returns (c: Candidate)
    requires exists i :: 0 <= i < |tasks| && tasks[i].project == p
    ensures Leads(tasks, now, aging, c) && c.task.project == p
    ensures forall j | 0 <= j < |tasks| && tasks[j].project == p :: !Replaces(Ranked(tasks[j], now, aging), c)
    decreases |tasks|
  {
    var n := |tasks| - 1;
    var last := Ranked(tasks[n], now, aging);
    assert tasks == tasks[..n + 1];
    if i :| 0 <= i < n && tasks[i].project == p {
      assert tasks[..n][i].project == p;
      c := LeaderOf(tasks[..n], now, aging, p);
      if tasks[n].project == p && Replaces(last, c) {
        forall j | 0 <= j < n && tasks[j].project == p ensures Replaces(last, Ranked(tasks[j], now, aging)) {
          assert tasks[..n][j].project == p && !Replaces(Ranked(tasks[..n][j], now, aging), c);
        }
        c := last;
      } else {
        LeaderStays(tasks, n, now, aging, c);
      }
    } else {
      c := last;
    }
  }

  /** A round that passes `t` over uses up a task ahead of it or a rival's turn. */
  lemma RoundMakesProgress(t: Task, projects: set<string>, aging: Time, states: States, r: Round)
    requires t.project in projects && PassesOver(t, projects, aging, states, r)
    ensures if r.chosen.project == t.project then r.chosen in Ahead(t, r.waiting)
            else r.chosen.project in Rivals(t, projects, states)
                 && Rivals(t, projects, After(states, r)) == Rivals(t, projects, states) - {r.chosen.project}
  {
    var c := Ranked(r.chosen, r.now, aging);
    LeaderExists(r.waiting, r.now, aging, t);
    var d :| Leads(r.waiting, r.now, aging, d) && d.task.project == t.project && d.effective == 0;
    if r.chosen.project == t.project {
      LeaderIsUnique(r.waiting, r.now, aging, c, d);
      assert !Replaces(Ranked(t, r.now, aging), c);
    } else {
      assert Precedes(states, c, d);
    }
  }

  lemma RivalsAreOthers(t: Task, projects: set<string>, states: States)
    requires t.project in projects
    ensures |Rivals(t, projects, states)| < |projects|
  {
    ProperSubsetIsSmaller(Rivals(t, projects, states), projects, t.project);
  }

  /** What bounds the number of rounds that can pass `t` over. */
  function Patience(t: Task, projects: set<string>, states: States, waiting: seq<Task>): nat {
    Weighted(|Ahead(t, waiting)|, |Rivals(t, projects, states)|, |projects|)
  }

  function Weighted(a: nat, b: nat, n: nat): nat {
    a * n + b
  }

  lemma Grows(a: nat, b: nat, n: nat)
    requires a <= b
    ensures a * n <= b * n
  {}

  lemma Cheaper(a': nat, b': nat, a: nat, b: nat, n: nat)
    requires (a' < a && b' < n) || (a' <= a && b' < b)
    ensures Weighted(a', b', n) < Weighted(a, b, n)
  {
    Grows(a', a, n);
    if a' < a {
      Grows(a' + 1, a, n);
      assert (a' + 1) * n == a' * n + n;
    }
  }

  lemma RoundCostsPatience(t: Task, projects: set<string>, aging: Time, states: States, r: Round, waiting: seq<Task>)
    requires t.project in projects && PassesOver(t, projects, aging, states, r)
    requires forall x | x in waiting && x.updatedAt <= t.updatedAt :: x in r.waiting && x != r.chosen
    ensures Patience(t, projects, After(states, r), waiting) < Patience(t, projects, states, r.waiting)
  {
    RoundMakesProgress(t, projects, aging, states, r);
    var next := After(states, r);
    if r.chosen.project == t.project {
      ProperSubsetIsSmaller(Ahead(t, waiting), Ahead(t, r.waiting), r.chosen);
      RivalsAreOthers(t, projects, next);
    } else {
      SubsetIsNoLarger(Ahead(t, waiting), Ahead(t, r.waiting));
      ProperSubsetIsSmaller(Rivals(t, projects, next), Rivals(t, projects, states), r.chosen.project);
    }
    Cheaper(|Ahead(t, waiting)|, |Rivals(t, projects, next)|, |Ahead(t, r.waiting)|, |Rivals(t, projects, states)|, |projects|);
  }

  /** Every round that passes `t` over costs some of its patience. */
  lemma {:induction false} PassedOverIsShort(t: Task, projects: set<string>, aging: Time, states: States, rounds: seq<Round>)
    requires rounds != [] && t.project in projects && PassedOver(t, projects, aging, states, rounds)
    ensures |rounds| <= Patience(t, projects, states, rounds[0].waiting)
    decreases |rounds|
  {
    var r := rounds[0];
    RoundCostsPatience(t, projects, aging, states, r, if |rounds| == 1 then [] else rounds[1].waiting);
    if |rounds| > 1 {
      PassedOverIsShort(t, projects, aging, After(states, r), rounds[1..]);
    }
  }

  /**
   * Bounded waiting: a task at effective rank 0 with `k` tasks of its project ahead of it is
   * dispatched within (k+1)*N successful dispatches, where N is the number of projects.
   */
  lemma BoundedWaiting(t: Task, projects: set<string>, aging: Time, states: States, rounds: seq<Round>)
    requires rounds != [] && t.project in projects && PassedOver(t, projects, aging, states, rounds)
    ensures |rounds| < (|Ahead(t, rounds[0].waiting)| + 1) * |projects|
  {
    PassedOverIsShort(t, projects, aging, states, rounds);
    RivalsAreOthers(t, projects, states);
    var a, n := |Ahead(t, rounds[0].waiting)|, |projects|;
    assert (a + 1) * n == a * n + n;
  }

  /** All are urgent, `i` is the oldest of its project, and its project was dispatched before every other. */
  ghost predicate NextIs(tasks: seq<Task>, states: States, i: nat)
    requires i < |tasks|
  {
    && (forall j | 0 <= j < |tasks| :: PriorityRank(tasks[j].priority) == 0)
    && (forall j | 0 <= j < |tasks| && j != i && tasks[j].project == tasks[i].project :: tasks[i].updatedAt < tasks[j].updatedAt)
    && (forall j | 0 <= j < |tasks| && tasks[j].project != tasks[i].project ::
          DispatchedEarlier(states, tasks[i].project, tasks[j].project))
  }

  lemma NextIsSelected(tasks: seq<Task>, states: States, now: Time, i: nat)
    requires i < |tasks| && NextIs(tasks, states, i)
    ensures Selected(tasks, states, now, 0, Ranked(tasks[i], now, 0))
  {
    var c := Ranked(tasks[i], now, 0);
    assert forall j | 0 <= j < |tasks| :: Ranked(tasks[j], now, 0).effective == 0;
    assert Leads(tasks, now, 0, c);
  }

  lemma NextPassesOver(t: Task, projects: set<string>, states: States, r: Round, i: nat, k: nat)
    requires i < |r.waiting| && NextIs(r.waiting, states, i) && r.chosen == r.waiting[i]
    requires k < |r.waiting| && r.waiting[k] == t != r.chosen
    requires (forall j | 0 <= j < |r.waiting| :: r.waiting[j].project in projects) && forall p | p in states :: states[p] < r.now
    ensures PassesOver(t, projects, 0, states, r)
  {
    NextIsSelected(r.waiting, states, r.now, i);
  }

  lemma OneMoreRound(t: Task, projects: set<string>, states: States, r: Round, rest: seq<Round>)
    requires PassesOver(t, projects, 0, states, r) && (rest != [] ==> GoesOn(t, r, rest[0]))
    requires PassedOver(t, projects, 0, After(states, r), rest)
    ensures PassedOver(t, projects, 0, states, [r] + rest)
  {
    assert ([r] + rest)[1..] == rest;
  }

  /** Four urgent tasks in order of age: `a` and `t` of one project, `b` and `c` of another. */
  ghost predicate Queue(a: Task, t: Task, b: Task, c: Task) {
    && a.project == t.project != b.project == c.project
    && a.updatedAt < t.updatedAt < b.updatedAt < c.updatedAt
    && PriorityRank(a.priority) == PriorityRank(t.priority) == PriorityRank(b.priority) == PriorityRank(c.priority) == 0
  }

  lemma FirstRound(a: Task, t: Task, b: Task, c: Task, states: States, r: Round)
    requires Queue(a, t, b, c) && states == map[t.project := 5, b.project := 0] && r == Round([a, t, b, c], 10, b)
    ensures PassesOver(t, {t.project, b.project}, 0, states, r)
  {
    NextPassesOver(t, {t.project, b.project}, states, r, 2, 1);
  }

  lemma SecondRound(a: Task, t: Task, b: Task, c: Task, states: States, r: Round)
    requires Queue(a, t, b, c) && states == map[t.project := 5, b.project := 10] && r == Round([a, t, c], 20, a)
    ensures PassesOver(t, {t.project, b.project}, 0, states, r)
  {
    NextPassesOver(t, {t.project, b.project}, states, r, 0, 1);
  }

  lemma ThirdRound(a: Task, t: Task, b: Task, c: Task, states: States, r: Round)
    requires Queue(a, t, b, c) && states == map[t.project := 20, b.project := 10] && r == Round([t, c], 30, c)
    ensures PassesOver(t, {t.project, b.project}, 0, states, r)
  {
    NextPassesOver(t, {t.project, b.project}, states, r, 1, 0);
  }

  lemma LastTwoRounds(a: Task, t: Task, b: Task, c: Task, states: States) returns (rounds: seq<Round>)
    requires Queue(a, t, b, c) && states == map[t.project := 5, b.project := 10]
    ensures |rounds| == 2 && rounds[0] == Round([a, t, c], 20, a) && PassedOver(t, {t.project, b.project}, 0, states, rounds)
  {
    var both, r2, r3 := {t.project, b.project}, Round([a, t, c], 20, a), Round([t, c], 30, c);
    SecondRound(a, t, b, c, states, r2);
    ThirdRound(a, t, b, c, After(states, r2), r3);
    OneMoreRound(t, both, After(states, r2), r3, []);
    OneMoreRound(t, both, states, r2, [r3] + []);
    rounds := [r2] + ([r3] + []);
  }

  lemma ThreeRounds(a: Task, t: Task, b: Task, c: Task, states: States) returns (rounds: seq<Round>)
    requires Queue(a, t, b, c) && states == map[t.project := 5, b.project := 0]
    ensures |rounds| == 3 && rounds[0] == Round([a, t, b, c], 10, b) && PassedOver(t, {t.project, b.project}, 0, states, rounds)
  {
    var r1 := Round([a, t, b, c], 10, b);
    FirstRound(a, t, b, c, states, r1);
    rounds := LastTwoRounds(a, t, b, c, After(states, r1));
    OneMoreRound(t, {t.project, b.project}, states, r1, rounds);
    rounds := [r1] + rounds;
  }

  /** The bound is tight: with one task ahead and two projects, three dispatches can pass a task over. */
  lemma BoundIsReached(p: string, q: string, urgent: string) returns (t: Task, states: States, rounds: seq<Round>)
    requires p != q && PriorityRank(urgent) == 0
    ensures rounds != [] && PassedOver(t, {p, q}, 0, states, rounds) && t.project == p
    ensures |Ahead(t, rounds[0].waiting)| == 1 && |{p, q}| == 2 && |rounds| == (1 + 1) * 2 - 1
  {
    var a, b, c := Task("a", p, urgent, 1, 1), Task("b", q, urgent, 3, 3), Task("c", q, urgent, 4, 4);
    t := Task("t", p, urgent, 2, 2);
    states := map[p := 5, q := 0];
    rounds := ThreeRounds(a, t, b, c, states);
    assert Ahead(t, rounds[0].waiting) == {a};
  }
}
