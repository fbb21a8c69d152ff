/**
 * The time an attempt spends waiting for web turns, which its active time leaves out:
 * webWaitDurationForAttempt of internal/store/convergence_budget.go.
 */
module WebWait {
  import opened FiniteSets
  import opened StringOrder

  /** A web turn's wait; one without a response lasts until the attempt ends. */
  datatype Wait = Wait(from: int, to: int)

  function Clipped(w: Wait, start: int, end: int): Wait {
    Wait(if w.from < start then start else w.from, if w.to > end then end else w.to)
  }

  predicate Within(w: Wait, t: int) {
    w.from <= t < w.to
  }

  predicate WaitedAt(waits: seq<Wait>, t: int) {
    exists i :: 0 <= i < |waits| && Within(waits[i], t)
  }

  /** The ticks of the attempt at which at least one of the waits is going on. */
  function Waiting(waits: seq<Wait>, start: int, end: int): set<int> {
    set t | start <= t < end && WaitedAt(waits, t)
  }

  function Ticks(w: Wait): set<int> {
    set t | w.from <= t < w.to && Within(w, t)
  }

  lemma {:induction false} TickCount(w: Wait)
    requires w.from <= w.to
    ensures |Ticks(w)| == w.to - w.from
    decreases w.to - w.from
  {
    if w.from < w.to {
      var shorter := w.(to := w.to - 1);
      TickCount(shorter);
      assert forall t :: t in Ticks(w) <==> t in Ticks(shorter) + {w.to - 1};
      assert Ticks(w) == Ticks(shorter) + {w.to - 1};
    } else {
      assert Ticks(w) == {};
    }
  }

  lemma OneMoreWait(waits: seq<Wait>, n: nat, start: int, end: int)
    requires n < |waits|
    ensures var w := Clipped(waits[n], start, end);
            Waiting(waits[..n + 1], start, end) == Waiting(waits[..n], start, end) + Ticks(w)
  {
    var now_, before := waits[..n + 1], waits[..n];
    forall t ensures WaitedAt(now_, t) <==> WaitedAt(before, t) || Within(waits[n], t) {
      if i :| 0 <= i < n + 1 && Within(now_[i], t) {
        assert i < n ==> Within(before[i], t);
      }
      if i :| 0 <= i < n && Within(before[i], t) {
        assert Within(now_[i], t);
      }
      if Within(waits[n], t) {
        assert Within(now_[n], t);
      }
    }
  }

  /** What the loop carries from row to row. */
  datatype Merging = Merging(total: int, open: Wait, have: bool)

  function Merged(m: Merging, w: Wait): Merging {
    if w.to <= w.from then m
    else if !m.have then Merging(m.total, w, true)
    else if w.from <= m.open.to then m.(open := m.open.(to := if w.to > m.open.to then w.to else m.open.to))
    else Merging(m.total + (m.open.to - m.open.from), w, true)
  }

  function MergedAll(waits: seq<Wait>, start: int, end: int): Merging {
    if waits == [] then Merging(0, Wait(start, start), false)
    else Merged(MergedAll(waits[..|waits| - 1], start, end), Clipped(waits[|waits| - 1], start, end))
  }

  function Total(m: Merging): int {
    m.total + (if m.have then m.open.to - m.open.from else 0)
  }

  /** What the loop adds up to. */
  function WebWaitTotal(waits: seq<Wait>, start: int, end: int): int {
    Total(MergedAll(waits, start, end))
  }

  // ----- Which ticks are counted -----

  /** A row before which the open wait already begins is too late for the ticks in front of that wait. */
  function Countable(m: Merging, w: Wait): set<int> {
    set t | t in Ticks(w) && (m.have ==> m.open.from <= t)
  }

  function Counted(waits: seq<Wait>, start: int, end: int): set<int> {
    if waits == [] then {}
    else
      var before := waits[..|waits| - 1];
      Counted(before, start, end) + Countable(MergedAll(before, start, end), Clipped(waits[|waits| - 1], start, end))
  }

  /** Each counted tick once, and all ticks of the open wait among them; no wait so far ends after the open one. */
  ghost predicate Tallied(m: Merging, all: set<int>, counted: set<int>) {
    && counted <= all && |counted| == Total(m)
    && (!m.have ==> all == {})
    && (m.have ==> m.open.from < m.open.to && Ticks(m.open) <= counted && forall t | t in all :: t < m.open.to)
  }

  lemma Joined(a: set<int>, b: set<int>)
    requires a !! b
    ensures |a + b| == |a| + |b|
  {}

  lemma Extended(m: Merging, w: Wait, all: set<int>, counted: set<int>)
    requires Tallied(m, all, counted) && m.have && w.from < w.to && w.from <= m.open.to
    ensures Tallied(Merged(m, w), all + Ticks(w), counted + Countable(m, w))
  {
    var longer := Merged(m, w).open;
    if w.to > m.open.to {
      var more := Wait(m.open.to, w.to);
      assert forall t | t in Ticks(more) :: t in Ticks(w) && t !in all;
      assert forall t | t in Countable(m, w) :: t in Ticks(m.open) || t in Ticks(more);
      assert counted + Countable(m, w) == counted + Ticks(more);
      Joined(counted, Ticks(more));
      TickCount(more);
      assert forall t | t in Ticks(longer) :: t in Ticks(m.open) || t in Ticks(more);
    } else {
      assert forall t | t in Countable(m, w) :: t in Ticks(m.open);
      assert counted + Countable(m, w) == counted;
    }
  }

  lemma ClosedOff(m: Merging, w: Wait, all: set<int>, counted: set<int>)
    requires Tallied(m, all, counted) && m.have && m.open.to < w.from < w.to
    ensures Tallied(Merged(m, w), all + Ticks(w), counted + Countable(m, w))
  {
    assert Countable(m, w) == Ticks(w);
    Joined(counted, Ticks(w));
    TickCount(w);
  }

  lemma RowTallies(m: Merging, w: Wait, all: set<int>, counted: set<int>)
    requires Tallied(m, all, counted)
    ensures Tallied(Merged(m, w), all + Ticks(w), counted + Countable(m, w))
  {
    if w.to <= w.from {
      assert Ticks(w) == {} && Countable(m, w) == {};
      assert all + Ticks(w) == all && counted + Countable(m, w) == counted;
    } else if !m.have {
      assert Countable(m, w) == Ticks(w);
      assert all + Ticks(w) == Ticks(w) && counted + Countable(m, w) == Ticks(w);
      TickCount(w);
    } else if w.from <= m.open.to {
      Extended(m, w, all, counted);
    } else {
      ClosedOff(m, w, all, counted);
    }
  }

  lemma {:induction false} RowsTally(waits: seq<Wait>, start: int, end: int)
    ensures Tallied(MergedAll(waits, start, end), Waiting(waits, start, end), Counted(waits, start, end))
    decreases |waits|
  {
    if waits == [] {
      assert Waiting([], start, end) == {};
    } else {
      var n := |waits| - 1;
      var before := waits[..n];
      RowsTally(before, start, end);
      OneMoreWait(waits, n, start, end);
      assert waits[..n + 1] == waits;
      RowTallies(MergedAll(before, start, end), Clipped(waits[n], start, end), Waiting(before, start, end),
                 Counted(before, start, end));
    }
  }

  /** Whatever row `n` waits before the start of the wait that is then open, an earlier row has waited too. */
  ghost predicate LosesNothing(waits: seq<Wait>, start: int, end: int, n: nat)
    requires n < |waits|
  {
    var m := MergedAll(waits[..n], start, end);
    m.have ==> forall t | t in Ticks(Clipped(waits[n], start, end)) && t < m.open.from :: t in Waiting(waits[..n], start, end)
  }

  ghost predicate NothingLost(waits: seq<Wait>, start: int, end: int) {
    forall n: nat | n < |waits| :: LosesNothing(waits, start, end, n)
  }

  lemma NothingLostBefore(waits: seq<Wait>, start: int, end: int)
    requires waits != []
    ensures var n := |waits| - 1;
            NothingLost(waits, start, end) <==> NothingLost(waits[..n], start, end) && LosesNothing(waits, start, end, n)
  {
    var before := waits[..|waits| - 1];
    forall k: nat | k < |before| ensures LosesNothing(before, start, end, k) <==> LosesNothing(waits, start, end, k) {
      assert before[..k] == waits[..k];
    }
  }

  lemma {:induction false} AllCountedIff(waits: seq<Wait>, start: int, end: int)
    ensures Counted(waits, start, end) == Waiting(waits, start, end) <==> NothingLost(waits, start, end)
    decreases |waits|
  {
    if waits == [] {
      assert Waiting([], start, end) == {};
    } else {
      var n := |waits| - 1;
      AllCountedIff(waits[..n], start, end);
      NothingLostBefore(waits, start, end);
      OneMoreWait(waits, n, start, end);
      assert waits[..n + 1] == waits;
      RowsTally(waits[..n], start, end);
      RowCountsAllIff(MergedAll(waits[..n], start, end), Clipped(waits[n], start, end), Waiting(waits[..n], start, end),
                      Counted(waits[..n], start, end));
    }
  }

  lemma RowCountsAllIff(m: Merging, w: Wait, all: set<int>, counted: set<int>)
    requires Tallied(m, all, counted)
    ensures counted + Countable(m, w) == all + Ticks(w) <==>
            counted == all && (m.have ==> forall t | t in Ticks(w) && t < m.open.from :: t in all)
  {
    if counted + Countable(m, w) == all + Ticks(w) {
      forall t | t in all ensures t in counted {
        assert t in counted + Countable(m, w);
        assert m.open.from <= t ==> t in Ticks(m.open);
      }
      forall t | m.have && t in Ticks(w) && t < m.open.from ensures t in all {
        assert t in counted + Countable(m, w);
      }
    }
  }

  // ----- Rows in order -----

  predicate NextStartsLater(waits: seq<Wait>, i: int)
    requires 0 <= i < |waits| - 1
  {
    waits[i].from <= waits[i + 1].from
  }

  ghost predicate InOrder(waits: seq<Wait>) {
    forall i | 0 <= i < |waits| - 1 :: NextStartsLater(waits, i)
  }

  lemma {:induction false} OpenStartsInTime(waits: seq<Wait>, start: int, end: int)
    requires InOrder(waits) && waits != []
    ensures var m := MergedAll(waits, start, end); m.have ==> m.open.from <= Clipped(waits[|waits| - 1], start, end).from
    decreases |waits|
  {
    var n := |waits| - 1;
    if n > 0 {
      InOrderBefore(waits, n);
      OpenStartsInTime(waits[..n], start, end);
      assert NextStartsLater(waits, n - 1) && waits[..n][n - 1] == waits[n - 1];
    }
  }

  lemma InOrderBefore(waits: seq<Wait>, n: nat)
    requires InOrder(waits) && n <= |waits|
    ensures InOrder(waits[..n])
  {
    forall i | 0 <= i < n - 1 ensures NextStartsLater(waits[..n], i) {
      assert NextStartsLater(waits, i);
    }
  }

  lemma OrderedRowsLoseNothing(waits: seq<Wait>, start: int, end: int)
    requires InOrder(waits)
    ensures NothingLost(waits, start, end)
  {
    forall n: nat | n < |waits| ensures LosesNothing(waits, start, end, n) {
      if n > 0 {
        InOrderBefore(waits, n);
        OpenStartsInTime(waits[..n], start, end);
        assert NextStartsLater(waits, n - 1) && waits[..n][n - 1] == waits[n - 1];
      }
    }
  }

  // ----- The total -----

  /** It never exceeds the time waited, and equals it exactly when no row comes too late for ticks of its own. */
  lemma TotalIsExactIff(waits: seq<Wait>, start: int, end: int)
    ensures WebWaitTotal(waits, start, end) <= |Waiting(waits, start, end)|
    ensures WebWaitTotal(waits, start, end) == |Waiting(waits, start, end)| <==> NothingLost(waits, start, end)
  {
    var all, counted := Waiting(waits, start, end), Counted(waits, start, end);
    RowsTally(waits, start, end);
    AllCountedIff(waits, start, end);
    SubsetIsNoLarger(counted, all);
    if x :| x in all && x !in counted { ProperSubsetIsSmaller(counted, all, x); }
  }

  /**
   * Overlapping waits count once. The total is exactly the time waited if and only if no row comes
   * too late, as is the case with the rows in order of their start; it is never more.
   */
  method WebWaitDuration(waits: seq<Wait>, start: int, end: int) returns (total: int)
    ensures total == WebWaitTotal(waits, start, end) <= |Waiting(waits, start, end)|
    ensures total == |Waiting(waits, start, end)| <==> NothingLost(waits, start, end)
    ensures InOrder(waits) ==> total == |Waiting(waits, start, end)|
  {
    total := 0;
    var merged, have := Wait(start, start), false;
    for n := 0 to |waits|
      invariant Merging(total, merged, have) == MergedAll(waits[..n], start, end)
    {
      assert waits[..n + 1][..n] == waits[..n];
      var w := Clipped(waits[n], start, end);
      if w.to <= w.from { continue; }
      if !have {
        merged, have := w, true;
      } else if w.from <= merged.to {
        if w.to > merged.to { merged := merged.(to := w.to); }
      } else {
        total := total + (merged.to - merged.from);
        merged := w;
      }
    }
    assert waits[..|waits|] == waits;
    TotalIsExactIff(waits, start, end);
    if InOrder(waits) { OrderedRowsLoseNothing(waits, start, end); }
    if have { total := total + (merged.to - merged.from); }
  }

  // ----- The order in which the rows are read -----

  /** The digits after the point, as RFC3339Nano prints them: without trailing zeros, and no point without digits. */
  predicate Digits(f: string) {
    forall i | 0 <= i < |f| :: '0' <= f[i] <= '9'
  }

  function Stamp(second: string, f: string): string {
    second + (if f == "" then "Z" else "." + f + "Z")
  }

  function Pow10(n: nat): nat {
    if n == 0 then 1 else 10 * Pow10(n - 1)
  }

  /** The value of the digits in units of 10^-w seconds. */
  function Value(f: string, w: nat): nat
    requires Digits(f) && |f| <= w
    decreases w
  {
    if f == "" then 0 else (f[0] as int - '0' as int) * Pow10(w - 1) + Value(f[1..], w - 1)
  }

  lemma {:induction false} ValueIsBounded(f: string, w: nat)
    requires Digits(f) && |f| <= w
    ensures Value(f, w) < Pow10(w)
    decreases w
  {
    if f != "" {
      ValueIsBounded(f[1..], w - 1);
      assert (f[0] as int - '0' as int) * Pow10(w - 1) <= 9 * Pow10(w - 1);
    } else {
      PowIsPositive(w);
    }
  }

  lemma {:induction false} PowIsPositive(n: nat)
    ensures Pow10(n) > 0
    decreases n
  {
    if n > 0 { PowIsPositive(n - 1); }
  }

  lemma {:induction false} OneMoreOfThese(a: nat, b: nat, p: nat)
    requires a > b
    ensures a * p >= b * p + p
    decreases a
  {
    assert a * p == (a - 1) * p + p;
    if a - 1 > b { OneMoreOfThese(a - 1, b, p); }
  }

  /** A larger first digit decides. */
  lemma FirstDigitDecides(f: string, g: string, w: nat)
    requires Digits(f) && Digits(g) && |f| <= w && |g| <= w && f != "" && g != "" && f[0] > g[0]
    ensures Value(f, w) > Value(g, w)
  {
    ValueIsBounded(g[1..], w - 1);
    OneMoreOfThese(f[0] as int - '0' as int, g[0] as int - '0' as int, Pow10(w - 1));
  }

  lemma {:induction false} DigitsInTextOrder(f: string, g: string, w: nat)
    requires Digits(f) && Digits(g) && |f| <= w && |g| <= w && Value(f, w) < Value(g, w)
    ensures Less(f + "Z", g + "Z") <==> !(f <= g)
    decreases w
  {
    var s, t := f + "Z", g + "Z";
    if f != "" {
      if f[0] > g[0] { FirstDigitDecides(f, g, w); }
      assert s[1..] == f[1..] + "Z" && t[1..] == g[1..] + "Z";
      if f[0] == g[0] {
        DigitsInTextOrder(f[1..], g[1..], w - 1);
        assert f <= g <==> f[1..] <= g[1..];
      }
    }
  }

  lemma {:induction false} SamePrefix(p: string, s: string, t: string)
    ensures Less(p + s, p + t) <==> Less(s, t)
    decreases |p|
  {
    if p == "" {
      assert p + s == s && p + t == t;
    } else {
      SamePrefix(p[1..], s, t);
      assert (p + s)[1..] == p[1..] + s && (p + t)[1..] == p[1..] + t;
      LessIsTotal(p[..1], p[..1]);
    }
  }

  /**
   * The timestamps of two moments of one second are in text order exactly unless the digits of the
   * earlier one are a prefix of the digits of the later one.
   */
  lemma TextOrderIsTimeOrderIff(second: string, f: string, g: string)
    requires Digits(f) && Digits(g) && |f| <= 9 && |g| <= 9 && Value(f, 9) < Value(g, 9)
    ensures Less(Stamp(second, f), Stamp(second, g)) <==> !(f <= g)
  {
    assert g != "";
    SamePrefix(second, if f == "" then "Z" else "." + f + "Z", "." + g + "Z");
    assert Stamp(second, g) == second + ("." + g + "Z");
    if f != "" {
      SamePrefix(".", f + "Z", g + "Z");
      assert "." + f + "Z" == "." + (f + "Z") && "." + g + "Z" == "." + (g + "Z");
      DigitsInTextOrder(f, g, 9);
    }
  }

  /**
   * Two waits of a tenth of a second, one from the full second on and one from half a second later:
   * the later one is read first, and only it is counted.
   */
  lemma LateRowIsLost(second: string)
    ensures Less(Stamp(second, "5"), Stamp(second, "")) && Value("5", 9) > Value("", 9)
    ensures var waits := [Wait(Value("5", 9), Value("6", 9)), Wait(Value("", 9), Value("1", 9))];
            WebWaitTotal(waits, 0, Pow10(9)) == Pow10(8) && |Waiting(waits, 0, Pow10(9))| == 2 * Pow10(8)
  {
    PowIsPositive(8);
    assert Pow10(9) == 10 * Pow10(8);
    assert Value("5", 9) == 5 * Pow10(8) && Value("6", 9) == 6 * Pow10(8) && Value("1", 9) == Pow10(8);
    TextOrderIsTimeOrderIff(second, "", "5");
    LessIsTotal(Stamp(second, ""), Stamp(second, "5"));
    var p := Pow10(8);
    var late, early := Wait(5 * p, 6 * p), Wait(0, p);
    var waits := [late, early];
    assert waits[..1] == [late] && waits[..1][..0] == [];
    assert MergedAll(waits[..1], 0, 10 * p) == Merging(0, late, true);
    forall t ensures WaitedAt(waits, t) <==> t in Ticks(late) || t in Ticks(early) {
      assert Within(waits[0], t) || Within(waits[1], t) ==> WaitedAt(waits, t);
    }
    assert Waiting(waits, 0, 10 * p) == Ticks(late) + Ticks(early);
    Joined(Ticks(late), Ticks(early));
    TickCount(late);
    TickCount(early);
  }
}
