/** Personalized PageRank over the reals: internal/contextengine/ranking.go. */
module PageRank {
  import opened RealSums

  type Path = string
  type Vector = Path -> real

  const DAMPING: real := 0.85
  const ROUNDS: nat := 20

  // ----- A walk that restarts, whatever its weights are -----

  /** `home` is where the walk restarts; `hand(s, t, x)` is what `t` gets when `s` hands on a rank of `x`. */
  datatype Walk = Walk(paths: set<Path>, home: Vector, hand: (Path, Path, real) -> real)
  {
    function Handing(source: Path, x: real): Vector {
      (target: Path) => hand(source, target, x)
    }

    ghost predicate Stochastic() {
      && Distribution(home)
      && (forall s, x | s in paths :: Sum(paths, Handing(s, x)) == x)
      && (forall s, t, x | s in paths && x >= 0.0 :: hand(s, t, x) >= 0.0)
      && (forall s, t, x, y {:trigger hand(s, t, Apart(x, y))} | s in paths ::
            Apart(hand(s, t, x), hand(s, t, y)) <= hand(s, t, Apart(x, y)))
    }

    ghost predicate Distribution(r: Vector) {
      (forall k | k in paths :: r(k) >= 0.0) && Sum(paths, r) == 1.0
    }

    ghost function Flow(r: Vector): (Path, Path) -> real {
      (source: Path, target: Path) => hand(source, target, r(source))
    }

    /** What arrives at each path in one round. */
    ghost function Inflow(r: Vector): Vector {
      Down(Flow(r), paths)
    }

    /** Of every round 15 hundredths are given back at home, and 85 flow on. */
    ghost function Step(r: Vector): Vector {
      (k: Path) => 0.15 * home(k) + 0.85 * Inflow(r)(k)
    }

    /** What a source of the given rank adds to each path's next rank. */
    ghost function Gift(source: Path, rank: real): Vector {
      (k: Path) => DAMPING * hand(source, k, rank)
    }

    ghost function Rank(round: nat): Vector {
      if round == 0 then home else Step(Rank(round - 1))
    }

    ghost function Distance(r: Vector, q: Vector): real {
      Sum(paths, Gap(r, q))
    }
  }

  function Apart(x: real, y: real): real {
    if x >= y then x - y else y - x
  }

  function Gap(r: Vector, q: Vector): Vector {
    (k: Path) => Apart(r(k), q(k))
  }

  /** A round hands on exactly what there is. */
  lemma InflowAddsUp(w: Walk, r: Vector)
    requires w.Stochastic()
    ensures Sum(w.paths, w.Inflow(r)) == Sum(w.paths, r)
  {
    SumsExchange(w.paths, w.paths, w.Flow(r));
    forall source | source in w.paths ensures Across(w.Flow(r), w.paths)(source) == r(source) {
      SumsAgree(w.paths, Inner(w.Flow(r), source), w.Handing(source, r(source)));
    }
    SumsAgree(w.paths, Across(w.Flow(r), w.paths), r);
  }

  lemma InflowIsNonNegative(w: Walk, r: Vector, k: Path)
    requires w.Stochastic() && forall j | j in w.paths :: r(j) >= 0.0
    ensures w.Inflow(r)(k) >= 0.0
  {
    SumIsNonNegative(w.paths, Outer(w.Flow(r), k));
  }

  ghost function Damped(v: Vector): Vector {
    (k: Path) => DAMPING * v(k)
  }

  lemma DampedAddsUp(w: Walk, r: Vector)
    requires w.Stochastic()
    ensures Sum(w.paths, Damped(w.Inflow(r))) == DAMPING * Sum(w.paths, r)
  {
    SumScales(w.paths, Damped(w.Inflow(r)), DAMPING, w.Inflow(r));
    InflowAddsUp(w, r);
  }

  lemma StepAddsUp(w: Walk, r: Vector)
    requires w.Stochastic()
    ensures Sum(w.paths, w.Step(r)) == (1.0 - DAMPING) + DAMPING * Sum(w.paths, r)
  {
    DampedAddsUp(w, r);
    var kept := (k: Path) => (1.0 - DAMPING) * w.home(k);
    SumScales(w.paths, kept, 1.0 - DAMPING, w.home);
    SumAdds(w.paths, w.Step(r), kept, Damped(w.Inflow(r)));
  }

  lemma StepKeepsDistributions(w: Walk, r: Vector)
    requires w.Stochastic() && w.Distribution(r)
    ensures w.Distribution(w.Step(r))
  {
    StepAddsUp(w, r);
    forall k | k in w.paths ensures w.Step(r)(k) >= 0.0 {
      InflowIsNonNegative(w, r, k);
    }
  }

  /** In every round all ranks are non-negative and add up to exactly one. */
  lemma {:induction false} RanksAreADistribution(w: Walk, round: nat)
    requires w.Stochastic()
    ensures w.Distribution(w.Rank(round))
  {
    if round > 0 {
      RanksAreADistribution(w, round - 1);
      StepKeepsDistributions(w, w.Rank(round - 1));
    }
  }

  // ----- Rounds come closer to each other -----

  lemma {:induction false} SumsDifferByLess(s: set<Path>, f: Vector, h: Vector, bound: Vector)
    requires forall k | k in s :: Apart(f(k), h(k)) <= bound(k)
    ensures Apart(Sum(s, f), Sum(s, h)) <= Sum(s, bound)
    decreases |s|
  {
    if s != {} {
      var k :| k in s;
      SumWithout(s, f, k);
      SumWithout(s, h, k);
      SumWithout(s, bound, k);
      SumsDifferByLess(s - {k}, f, h, bound);
    }
  }

  lemma InflowsDifferByLess(w: Walk, r: Vector, q: Vector, k: Path)
    requires w.Stochastic()
    ensures Apart(w.Inflow(r)(k), w.Inflow(q)(k)) <= w.Inflow(Gap(r, q))(k)
  {
    SumsDifferByLess(w.paths, Outer(w.Flow(r), k), Outer(w.Flow(q), k), Outer(w.Flow(Gap(r, q)), k));
  }

  lemma StepsDifferByLess(w: Walk, r: Vector, q: Vector, k: Path)
    requires w.Stochastic()
    ensures Gap(w.Step(r), w.Step(q))(k) <= Damped(w.Inflow(Gap(r, q)))(k)
  {
    InflowsDifferByLess(w, r, q, k);
    DampedApart(w.home(k), w.Inflow(r)(k), w.Inflow(q)(k));
  }

  lemma DampedApart(h: real, x: real, y: real)
    ensures Apart((1.0 - DAMPING) * h + DAMPING * x, (1.0 - DAMPING) * h + DAMPING * y) == DAMPING * Apart(x, y)
  {}

  /** One round is a contraction: it shrinks the L1 distance of any two rank vectors by 0.85 or more. */
  lemma StepContracts(w: Walk, r: Vector, q: Vector)
    requires w.Stochastic()
    ensures w.Distance(w.Step(r), w.Step(q)) <= 0.85 * w.Distance(r, q)
  {
    forall k | k in w.paths ensures Gap(w.Step(r), w.Step(q))(k) <= Damped(w.Inflow(Gap(r, q)))(k) {
      StepsDifferByLess(w, r, q, k);
    }
    SumIsMonotone(w.paths, Gap(w.Step(r), w.Step(q)), Damped(w.Inflow(Gap(r, q))));
    DampedAddsUp(w, Gap(r, q));
  }

  lemma DistributionsAreClose(w: Walk, r: Vector, q: Vector)
    requires w.Distribution(r) && w.Distribution(q)
    ensures w.Distance(r, q) <= 2.0
  {
    var both := (k: Path) => r(k) + q(k);
    SumIsMonotone(w.paths, Gap(r, q), both);
    SumAdds(w.paths, both, r, q);
  }

  ghost function Power(n: nat): (p: real)
    ensures p >= 0.0
  {
    if n == 0 then 1.0 else 0.85 * Power(n - 1)
  }

  /** Successive rounds are at most 2 * 0.85^t apart, and each distance is at most 0.85 times the one before. */
  lemma {:induction false} RoundsConverge(w: Walk, round: nat)
    requires w.Stochastic()
    ensures w.Distance(w.Rank(round + 1), w.Rank(round)) <= 2.0 * Power(round)
    ensures w.Distance(w.Rank(round + 2), w.Rank(round + 1)) <= 0.85 * w.Distance(w.Rank(round + 1), w.Rank(round))
  {
    StepContracts(w, w.Rank(round + 1), w.Rank(round));
    if round == 0 {
      RanksAreADistribution(w, 1);
      DistributionsAreClose(w, w.Rank(1), w.Rank(0));
    } else {
      RoundsConverge(w, round - 1);
    }
  }

  /** Whatever distribution is stationary, the ranks after t rounds are within 2 * 0.85^t of it. */
  lemma {:induction false} RanksApproachStationary(w: Walk, fixed: Vector, round: nat)
    requires w.Stochastic() && w.Distribution(fixed) && forall k | k in w.paths :: w.Step(fixed)(k) == fixed(k)
    ensures w.Distance(w.Rank(round), fixed) <= 2.0 * Power(round)
  {
    if round == 0 {
      DistributionsAreClose(w, w.Rank(0), fixed);
    } else {
      RanksApproachStationary(w, fixed, round - 1);
      StepContracts(w, w.Rank(round - 1), fixed);
      SumsAgree(w.paths, Gap(w.Rank(round), fixed), Gap(w.Rank(round), w.Step(fixed)));
    }
  }

  // ----- The walk of a dependency graph -----

  datatype Graph = Graph(candidates: set<Path>, edges: map<Path, map<Path, real>>, seeds: map<Path, real>)
  {
    /** The edge weights that count: positive, to a candidate. */
    function Weight(source: Path, target: Path): (w: real)
      ensures w >= 0.0
    {
      if source in edges && target in edges[source] && target in candidates && edges[source][target] > 0.0
      then edges[source][target] else 0.0
    }

    function Row(source: Path): Vector {
      (target: Path) => Weight(source, target)
    }

    function Seed(path: Path): (w: real)
      ensures w >= 0.0
    {
      if path in seeds && path in candidates && seeds[path] > 0.0 then seeds[path] else 0.0
    }

    function Seeds(): Vector {
      (path: Path) => Seed(path)
    }

    ghost function SeedTotal(): real {
      Sum(candidates, Seeds())
    }

    ghost predicate HasSeed() {
      exists path :: Seed(path) > 0.0
    }

    ghost function Personalization(path: Path): real {
      if SeedTotal() > 0.0 then Seed(path) / SeedTotal() else 0.0
    }

    ghost function Total(source: Path): real {
      Sum(candidates, Row(source))
    }

    /** How the rank of `source` is shared out; one without outgoing weight gives to the seeds. */
    ghost function Share(source: Path, target: Path): real {
      if Total(source) <= 0.0 then Personalization(target) else Weight(source, target) / Total(source)
    }

    ghost function Walking(): Walk {
      Walk(candidates, Home(), (source: Path, target: Path, x: real) => x * Share(source, target))
    }

    ghost function Home(): Vector {
      (path: Path) => Personalization(path)
    }

    ghost function Shares(source: Path): Vector {
      (target: Path) => Share(source, target)
    }
  }

  lemma SeedTotalIsPositive(g: Graph)
    requires g.HasSeed()
    ensures g.SeedTotal() > 0.0
  {
    var path :| g.Seed(path) > 0.0;
    SumIsPositive(g.candidates, g.Seeds(), path);
  }

  lemma QuotientIsNonNegative(x: real, t: real)
    requires x >= 0.0 && t > 0.0
    ensures x / t >= 0.0 && t / t == 1.0
  {}

  lemma ProductIsNonNegative(x: real, y: real)
    requires x >= 0.0 && y >= 0.0
    ensures x * y >= 0.0
  {}

  lemma GapScales(x: real, y: real, a: real)
    requires a >= 0.0
    ensures Apart(x * a, y * a) == Apart(x, y) * a
  {
    assert x * a - y * a == (x - y) * a;
    if x >= y {
      ProductIsNonNegative(x - y, a);
    } else {
      ProductIsNonNegative(y - x, a);
      assert (x - y) * a == -((y - x) * a);
    }
  }

  lemma PersonalizationAddsUp(g: Graph)
    requires g.HasSeed()
    ensures Sum(g.candidates, g.Home()) == 1.0
  {
    SeedTotalIsPositive(g);
    SumDivides(g.candidates, g.Home(), g.Seeds(), g.SeedTotal());
    QuotientIsNonNegative(0.0, g.SeedTotal());
  }

  lemma PersonalizationIsNonNegative(g: Graph, k: Path)
    ensures g.Personalization(k) >= 0.0
  {
    if g.SeedTotal() > 0.0 {
      QuotientIsNonNegative(g.Seed(k), g.SeedTotal());
    }
  }

  lemma SharesAddUp(g: Graph, source: Path)
    requires g.HasSeed()
    ensures Sum(g.candidates, g.Shares(source)) == 1.0
  {
    if g.Total(source) <= 0.0 {
      PersonalizationAddsUp(g);
      SumsAgree(g.candidates, g.Shares(source), g.Home());
    } else {
      SumDivides(g.candidates, g.Shares(source), g.Row(source), g.Total(source));
      QuotientIsNonNegative(0.0, g.Total(source));
    }
  }

  lemma ShareIsNonNegative(g: Graph, source: Path, target: Path)
    ensures g.Share(source, target) >= 0.0
  {
    if g.Total(source) <= 0.0 {
      PersonalizationIsNonNegative(g, target);
    } else {
      QuotientIsNonNegative(g.Weight(source, target), g.Total(source));
    }
  }

  lemma HandingAddsUp(g: Graph, source: Path, x: real)
    requires g.HasSeed()
    ensures Sum(g.candidates, g.Walking().Handing(source, x)) == x
  {
    SharesAddUp(g, source);
    SumScales(g.candidates, g.Walking().Handing(source, x), x, g.Shares(source));
  }

  lemma HandingIsFair(g: Graph, source: Path, target: Path, x: real, y: real)
    ensures var h := g.Walking().hand; Apart(h(source, target, x), h(source, target, y)) <= h(source, target, Apart(x, y))
  {
    ShareIsNonNegative(g, source, target);
    GapScales(x, y, g.Share(source, target));
  }

  /** With a positive seed among the candidates the ranks are those of a walk, dangling paths included. */
  lemma GraphIsStochastic(g: Graph)
    requires g.HasSeed()
    ensures g.Walking().Stochastic()
  {
    var w := g.Walking();
    PersonalizationAddsUp(g);
    forall k ensures w.home(k) >= 0.0 {
      PersonalizationIsNonNegative(g, k);
    }
    forall s, x | s in w.paths ensures Sum(w.paths, w.Handing(s, x)) == x {
      HandingAddsUp(g, s, x);
    }
    forall s, t, x | s in w.paths && x >= 0.0 ensures w.hand(s, t, x) >= 0.0 {
      ShareIsNonNegative(g, s, t);
      ProductIsNonNegative(x, g.Share(s, t));
    }
    forall s, t, x, y {:trigger w.hand(s, t, Apart(x, y))} | s in w.paths
      ensures Apart(w.hand(s, t, x), w.hand(s, t, y)) <= w.hand(s, t, Apart(x, y))
    {
      HandingIsFair(g, s, t, x, y);
    }
  }

  // ----- personalizedPageRank -----

  /** `m` holds the vector on the candidates. */
  ghost predicate Holds(g: Graph, m: map<Path, real>, v: Vector) {
    m.Keys == g.candidates && forall k {:trigger m[k]} | k in g.candidates :: m[k] == v(k)
  }

  ghost predicate IsPersonalization(g: Graph, m: map<Path, real>) {
    m.Keys <= g.candidates && forall k :: g.Personalization(k) == if k in m then m[k] else 0.0
  }

  method AddSeeds(g: Graph) returns (total: real)
    ensures total == g.SeedTotal()
  {
    total := 0.0;
    var rest, done := g.seeds.Keys, {};
    while rest != {}
      invariant rest + done == g.seeds.Keys && rest !! done && total == Sum(done, g.Seeds())
    {
      var path :| path in rest;
      SumWith(done, g.Seeds(), path);
      if path in g.candidates && g.seeds[path] > 0.0 {
        total := total + g.seeds[path];
      }
      rest, done := rest - {path}, done + {path};
    }
    SumOverMore(done, done + g.candidates, g.Seeds());
    SumOverMore(g.candidates, done + g.candidates, g.Seeds());
  }

  method AddOutgoing(g: Graph, source: Path, outgoing: map<Path, real>) returns (total: real)
    requires outgoing == Outgoing(g, source)
    ensures total == g.Total(source)
  {
    total := 0.0;
    var rest, done := outgoing.Keys, {};
    while rest != {}
      invariant rest + done == outgoing.Keys && rest !! done && total == Sum(done, g.Row(source))
    {
      var target :| target in rest;
      SumWith(done, g.Row(source), target);
      if target in g.candidates && outgoing[target] > 0.0 {
        total := total + outgoing[target];
      }
      rest, done := rest - {target}, done + {target};
    }
    SumOverMore(done, done + g.candidates, g.Row(source));
    SumOverMore(g.candidates, done + g.candidates, g.Row(source));
  }

  method Personalize(g: Graph, seedTotal: real) returns (personalization: map<Path, real>)
    requires seedTotal == g.SeedTotal() > 0.0
    ensures IsPersonalization(g, personalization)
  {
    personalization := map[];
    var rest := g.seeds.Keys;
    while rest != {}
      invariant rest <= g.seeds.Keys && personalization.Keys <= g.candidates
      invariant forall k | k !in rest :: g.Personalization(k) == if k in personalization then personalization[k] else 0.0
      invariant forall k | k in rest :: k !in personalization
    {
      var path :| path in rest;
      if path in g.candidates && g.seeds[path] > 0.0 {
        personalization := personalization[path := g.seeds[path] / seedTotal];
      }
      rest := rest - {path};
    }
  }

  /** What each path has received when a round has visited the sources in `done`. */
  ghost function Received(w: Walk, r: Vector, done: set<Path>): Vector {
    (k: Path) => (1.0 - DAMPING) * w.home(k) + DAMPING * Sum(done, Outer(w.Flow(r), k))
  }

  lemma ReceivesMore(w: Walk, r: Vector, done: set<Path>, source: Path, k: Path)
    requires source !in done
    ensures Received(w, r, done + {source})(k) == Received(w, r, done)(k) + w.Gift(source, r(source))(k)
  {
    SumWith(done, Outer(w.Flow(r), k), source);
  }

  /** What the loops of one round add for a source of rank `rank`. */
  ghost function Amount(g: Graph, personalization: map<Path, real>, outgoing: map<Path, real>, total: real, rank: real, k: Path): real {
    if total <= 0.0 then (if k in personalization then DAMPING * rank * personalization[k] else 0.0)
    else if k in outgoing && outgoing[k] > 0.0 then DAMPING * rank * outgoing[k] / total
    else 0.0
  }

  ghost predicate Amounts(g: Graph, personalization: map<Path, real>, outgoing: map<Path, real>, total: real, rank: real, gift: Vector) {
    forall k | k in g.candidates :: gift(k) == Amount(g, personalization, outgoing, total, rank, k)
  }

  function Outgoing(g: Graph, source: Path): map<Path, real> {
    if source in g.edges then g.edges[source] else map[]
  }

  lemma AmountIsHanded(g: Graph, personalization: map<Path, real>, source: Path, rank: real, k: Path)
    requires IsPersonalization(g, personalization) && k in g.candidates
    ensures Amount(g, personalization, Outgoing(g, source), g.Total(source), rank, k) == DAMPING * (rank * g.Share(source, k))
  {
    if g.Total(source) > 0.0 {
      AssociateQuotient(rank, g.Weight(source, k), g.Total(source));
    } else {
      Associate(rank, g.Personalization(k));
    }
  }

  lemma GiftIsHanded(g: Graph, source: Path, rank: real, k: Path)
    ensures g.Walking().Gift(source, rank)(k) == DAMPING * (rank * g.Share(source, k))
  {}

  lemma Associate(rank: real, weight: real)
    ensures DAMPING * rank * weight == DAMPING * (rank * weight)
  {}

  lemma AssociateQuotient(rank: real, weight: real, total: real)
    requires total > 0.0
    ensures DAMPING * rank * weight / total == DAMPING * (rank * (weight / total))
    ensures weight == 0.0 ==> DAMPING * (rank * (weight / total)) == 0.0
  {
    var q := weight / total;
    assert weight == q * total;
    assert DAMPING * rank * weight == (DAMPING * (rank * q)) * total;
  }

  /** The loops compute what the walk hands on. */
  ghost predicate Computes(g: Graph, personalization: map<Path, real>, w: Walk, source: Path, rank: real) {
    Amounts(g, personalization, Outgoing(g, source), g.Total(source), rank, w.Gift(source, rank))
  }

  ghost predicate Models(g: Graph, personalization: map<Path, real>, w: Walk) {
    && w.paths == g.candidates && personalization.Keys <= g.candidates
    && (forall k :: w.home(k) == if k in personalization then personalization[k] else 0.0)
    && (forall source, rank :: Computes(g, personalization, w, source, rank))
  }

  lemma WalkingModels(g: Graph, personalization: map<Path, real>)
    requires IsPersonalization(g, personalization)
    ensures Models(g, personalization, g.Walking())
  {
    forall source, rank ensures Computes(g, personalization, g.Walking(), source, rank) {
      forall k | k in g.candidates
        ensures g.Walking().Gift(source, rank)(k) == Amount(g, personalization, Outgoing(g, source), g.Total(source), rank, k)
      {
        AmountIsHanded(g, personalization, source, rank, k);
        GiftIsHanded(g, source, rank, k);
      }
    }
  }

  /** Adds the source's gift to `next`, target by target. */
  method ShareOut(candidates: set<Path>, personalization: map<Path, real>, outgoing: map<Path, real>, total: real, rank: real,
                  before: map<Path, real>, ghost g: Graph, ghost gift: Vector)
    returns (next: map<Path, real>)
    requires candidates == g.candidates == before.Keys && personalization.Keys <= candidates
    requires Amounts(g, personalization, outgoing, total, rank, gift)
    ensures next.Keys == candidates && forall k | k in candidates :: next[k] == before[k] + gift(k)
  {
    next := before;
    if total <= 0.0 {
      var rest := personalization.Keys;
      while rest != {}
        invariant rest <= personalization.Keys && next.Keys == candidates
        invariant forall k | k in candidates :: next[k] == if k in rest then before[k] else before[k] + gift(k)
      {
        var target :| target in rest;
        next := next[target := next[target] + DAMPING * rank * personalization[target]];
        rest := rest - {target};
      }
    } else {
      var rest := outgoing.Keys;
      while rest != {}
        invariant rest <= outgoing.Keys && next.Keys == candidates
        invariant forall k | k in candidates :: next[k] == if k in rest then before[k] else before[k] + gift(k)
      {
        var target :| target in rest;
        if target in candidates && outgoing[target] > 0.0 {
          next := next[target := next[target] + DAMPING * rank * outgoing[target] / total];
        }
        rest := rest - {target};
      }
    }
  }

  method Visit(g: Graph, personalization: map<Path, real>, source: Path, rank: real, before: map<Path, real>, ghost gift: Vector)
    returns (next: map<Path, real>)
    requires before.Keys == g.candidates && personalization.Keys <= g.candidates
    requires Amounts(g, personalization, Outgoing(g, source), g.Total(source), rank, gift)
    ensures next.Keys == g.candidates && forall k | k in g.candidates :: next[k] == before[k] + gift(k)
  {
    var outgoing := Outgoing(g, source);
    var total := AddOutgoing(g, source, outgoing);
    next := ShareOut(g.candidates, personalization, outgoing, total, rank, before, g, gift);
  }

  method Round(g: Graph, personalization: map<Path, real>, result: map<Path, real>, ghost w: Walk, ghost r: Vector)
    returns (next: map<Path, real>)
    requires Models(g, personalization, w) && Holds(g, result, r)
    ensures Holds(g, next, w.Step(r))
  {
    next := Restart(g, personalization, w, r);
    var rest, done := g.candidates, {};
    while rest != {}
      invariant Splits(g.candidates, rest, done) && Holds(g, next, Received(w, r, done))
    {
      var source :| source in rest;
      SplitMoves(g.candidates, rest, done, source);
      next := RoundFrom(g, personalization, source, result[source], next, w, r, done);
      rest, done := rest - {source}, done + {source};
    }
    AllReceived(g, next, w, r, done);
  }

  ghost predicate Splits(all: set<Path>, rest: set<Path>, done: set<Path>) {
    rest + done == all && rest !! done
  }

  lemma SplitMoves(all: set<Path>, rest: set<Path>, done: set<Path>, source: Path)
    requires Splits(all, rest, done) && source in rest
    ensures Splits(all, rest - {source}, done + {source}) && source in all && source !in done
  {}

  lemma AllReceived(g: Graph, m: map<Path, real>, w: Walk, r: Vector, done: set<Path>)
    requires Splits(w.paths, {}, done) && w.paths == g.candidates && Holds(g, m, Received(w, r, done))
    ensures Holds(g, m, w.Step(r))
  {
    assert done == w.paths;
    forall k | k in g.candidates ensures Received(w, r, w.paths)(k) == w.Step(r)(k) {}
  }

  method Restart(g: Graph, personalization: map<Path, real>, ghost w: Walk, ghost r: Vector) returns (next: map<Path, real>)
    requires Models(g, personalization, w)
    ensures Holds(g, next, Received(w, r, {}))
  {
    next := map k | k in g.candidates :: (1.0 - DAMPING) * (if k in personalization then personalization[k] else 0.0);
    forall k | k in g.candidates ensures next[k] == Received(w, r, {})(k) {
      assert Received(w, r, {})(k) == (1.0 - DAMPING) * w.home(k) + DAMPING * Sum({}, Outer(w.Flow(r), k));
    }
  }

  method RoundFrom(g: Graph, personalization: map<Path, real>, source: Path, rank: real, before: map<Path, real>,
                   ghost w: Walk, ghost r: Vector, ghost done: set<Path>)
    returns (next: map<Path, real>)
    requires Models(g, personalization, w)
    requires source !in done && rank == r(source) && Holds(g, before, Received(w, r, done))
    ensures Holds(g, next, Received(w, r, done + {source}))
  {
    assert Computes(g, personalization, w, source, rank);
    next := Visit(g, personalization, source, rank, before, w.Gift(source, rank));
    forall k | k in g.candidates ensures next[k] == Received(w, r, done + {source})(k) {
      ReceivesMore(w, r, done, source, k);
    }
  }

  /** The ranks after twenty rounds; none at all without a candidate that carries a positive seed. */
  method PersonalizedPageRank(g: Graph) returns (result: map<Path, real>)
    ensures g.HasSeed() ==> Holds(g, result, g.Walking().Rank(20)) && g.Walking().Stochastic()
    ensures !g.HasSeed() ==> result == map[]
  {
    result := map[];
    if g.candidates == {} || g.seeds == map[] { return; }
    var seedTotal := AddSeeds(g);
    if seedTotal <= 0.0 {
      if g.HasSeed() { SeedTotalIsPositive(g); }
      return;
    }
    if g.HasSeed() { GraphIsStochastic(g); } else { SumOfZeros(g.candidates, g.Seeds()); }
    var personalization := Personalize(g, seedTotal);
    WalkingModels(g, personalization);
    result := Iterate(g, personalization, g.Walking());
  }

  method Iterate(g: Graph, personalization: map<Path, real>, ghost w: Walk) returns (result: map<Path, real>)
    requires Models(g, personalization, w)
    ensures Holds(g, result, w.Rank(ROUNDS))
  {
    result := map k | k in g.candidates :: if k in personalization then personalization[k] else 0.0;
    for round := 0 to ROUNDS
      invariant Holds(g, result, w.Rank(round))
    {
      result := Round(g, personalization, result, w, w.Rank(round));
    }
  }
}
