/** Matching a trace to the network: the candidate lattice, the search for the best chain and the
    route distances between candidates in internal/algo/routing/mapmatch.go. */
module MapMatch {
  import opened Numbers
  import opened Paths
  import opened Search

  // A projection of a trace point onto an edge: where along the edge, and how far away.
  datatype Candidate = Candidate(edge: int, frac: real, distM: real)

  // ----- route distances

  // The distances from the candidate to the two ends of its edge.
  function ExitSeeds(g: Graph, c: Candidate): seq<Seed>
    requires IsEdge(g, c.edge)
  {
    var e := g.edges[c.edge];
    [Seed(e.from, c.frac * e.lengthM), Seed(e.to, (1.0 - c.frac) * e.lengthM)]
  }

  function Plus(x: Cost, d: real): Cost {
    if x.Inf? then Inf else Fin(x.v + d)
  }

  function Smaller(x: Cost, y: Cost): Cost {
    if x.Inf? then y else if y.Inf? || x.v <= y.v then x else y
  }

  // From the labels of the ends of the candidate's edge to the candidate itself.
  function EntryDistance(g: Graph, labels: seq<Cost>, c: Candidate, prev: Candidate): Cost
    requires Indexed(g) && |labels| == g.n && IsEdge(g, c.edge)
  {
    var e := g.edges[c.edge];
    if c.edge == prev.edge then Fin(Abs(c.frac - prev.frac) * e.lengthM)
    else Smaller(Plus(labels[e.from], c.frac * e.lengthM), Plus(labels[e.to], (1.0 - c.frac) * e.lengthM))
  }

  // What a bounded search leaves at a node: the least cost if a walk within the bound leads there,
  // otherwise the least seed there, otherwise nothing.
  ghost predicate BoundedLabel(g: Graph, cost: seq<real>, seeds: seq<Seed>, cutoff: real, v: int, x: Cost) {
    && Sound(g, cost, seeds, v, x) && Least(g, cost, seeds, cutoff, v, x)
    && (x.Fin? ==> Within(cutoff, x.v) || exists k :: 0 <= k < |seeds| && seeds[k] == Seed(v, x.v))
    && (forall k :: 0 <= k < |seeds| && seeds[k].node == v ==> AtMost(x, seeds[k].cost))
  }

  lemma BoundedLabelAtMost(g: Graph, cost: seq<real>, seeds: seq<Seed>, cutoff: real, v: int, x: Cost, y: Cost)
    requires BoundedLabel(g, cost, seeds, cutoff, v, x) && BoundedLabel(g, cost, seeds, cutoff, v, y)
    ensures x.Fin? ==> AtMost(y, x.v)
  {
    if x.Fin? {
      var k, p :| SeedWalk(g, cost, seeds, k, p, v, x.v);
    }
  }

  lemma BoundedLabelIsUnique(g: Graph, cost: seq<real>, seeds: seq<Seed>, cutoff: real, v: int, x: Cost, y: Cost)
    requires BoundedLabel(g, cost, seeds, cutoff, v, x) && BoundedLabel(g, cost, seeds, cutoff, v, y)
    ensures x == y
  {
    BoundedLabelAtMost(g, cost, seeds, cutoff, v, x, y);
    BoundedLabelAtMost(g, cost, seeds, cutoff, v, y, x);
  }

  ghost predicate BoundedLabels(g: Graph, seeds: seq<Seed>, cutoff: real, labels: seq<Cost>) {
    |labels| == g.n && forall v :: IsNode(g, v) ==> BoundedLabel(g, DistanceCost(g.edges), seeds, cutoff, v, labels[v])
  }

  // The route distance between two candidates, as far as a search up to the cutoff sees it.
  ghost predicate RouteIs(g: Graph, cutoff: real, prev: Candidate, c: Candidate, d: Cost) {
    && Indexed(g) && IsEdge(g, prev.edge) && IsEdge(g, c.edge)
    && exists labels :: BoundedLabels(g, ExitSeeds(g, prev), cutoff, labels) && d == EntryDistance(g, labels, c, prev)
  }

  lemma RouteIsUnique(g: Graph, cutoff: real, prev: Candidate, c: Candidate, d: Cost, d': Cost)
    requires RouteIs(g, cutoff, prev, c, d) && RouteIs(g, cutoff, prev, c, d')
    ensures d == d'
  {
    hide BoundedLabel, Indexed, EntryDistance;
    var seeds := ExitSeeds(g, prev);
    var a: seq<Cost> :| BoundedLabels(g, seeds, cutoff, a) && d == EntryDistance(g, a, c, prev);
    var b: seq<Cost> :| BoundedLabels(g, seeds, cutoff, b) && d' == EntryDistance(g, b, c, prev);
    forall v | IsNode(g, v)
      ensures a[v] == b[v]
    {
      BoundedLabelIsUnique(g, DistanceCost(g.edges), seeds, cutoff, v, a[v], b[v]);
    }
    assert a == b;
  }

  // Where the walk from a seed of prev enters the edge of c: at its start or at its end.
  function EntryOffset(g: Graph, c: Candidate, atEnd: bool): real
    requires IsEdge(g, c.edge)
  {
    if atEnd then (1.0 - c.frac) * g.edges[c.edge].lengthM else c.frac * g.edges[c.edge].lengthM
  }

  function EntryNode(g: Graph, c: Candidate, atEnd: bool): int
    requires IsEdge(g, c.edge)
  {
    if atEnd then g.edges[c.edge].to else g.edges[c.edge].from
  }

  // The offsets are measured along the edge: from its start they grow with the share of it that lies
  // behind the candidate, from nothing at the start, and both together are its length.
  lemma OffsetsMeasure(g: Graph, c: Candidate, c': Candidate)
    requires IsEdge(g, c.edge) && c'.edge == c.edge
    ensures EntryNode(g, c, false) == g.edges[c.edge].from && EntryNode(g, c, true) == g.edges[c.edge].to
    ensures c.frac == 0.0 ==> EntryOffset(g, c, false) == 0.0
    ensures c.frac == 1.0 ==> EntryOffset(g, c, true) == 0.0
    ensures EntryOffset(g, c, false) + EntryOffset(g, c, true) == g.edges[c.edge].lengthM
    ensures EntryOffset(g, c', false) - EntryOffset(g, c, false) == (c'.frac - c.frac) * g.edges[c.edge].lengthM
  {
  }

  // The way out of a candidate over an end of its edge is the way in over that end.
  lemma ExitIsEntry(g: Graph, c: Candidate, atEnd: bool)
    requires IsEdge(g, c.edge)
    ensures |ExitSeeds(g, c)| == 2
    ensures ExitSeeds(g, c)[if atEnd then 1 else 0] == Seed(EntryNode(g, c, atEnd), EntryOffset(g, c, atEnd))
  {
  }

  // On one edge the route distance is the stretch between the two candidates.
  lemma SameEdgeIsStretch(g: Graph, cutoff: real, prev: Candidate, c: Candidate, d: Cost)
    requires RouteIs(g, cutoff, prev, c, d) && c.edge == prev.edge && g.edges[c.edge].lengthM >= 0.0
    ensures d == Fin(Abs(EntryOffset(g, c, false) - EntryOffset(g, prev, false)))
  {
    hide Indexed, BoundedLabels;
    var r, e := c.frac - prev.frac, g.edges[c.edge].lengthM;
    assert EntryOffset(g, c, false) - EntryOffset(g, prev, false) == r * e;
    AbsOfProduct(r, e);
  }

  lemma AbsOfProduct(r: real, e: real)
    requires e >= 0.0
    ensures Abs(r * e) == Abs(r) * e
  {
    if r < 0.0 {
      assert r * e == -((-r) * e);
    }
  }

  // A route from prev to c: out of prev over an end of its edge, along a walk, and in over an end.
  ghost predicate Route(g: Graph, prev: Candidate, c: Candidate, k: int, p: seq<int>, atEnd: bool, total: real)
    requires IsEdge(g, prev.edge) && IsEdge(g, c.edge)
  {
    SeedWalk(g, DistanceCost(g.edges), ExitSeeds(g, prev), k, p, EntryNode(g, c, atEnd), total)
  }

  // Between different edges the distance is that of some route ...
  lemma RouteIsAttained(g: Graph, cutoff: real, prev: Candidate, c: Candidate, d: Cost)
    requires RouteIs(g, cutoff, prev, c, d) && c.edge != prev.edge && d.Fin?
    ensures exists k, p, atEnd, total ::
              Route(g, prev, c, k, p, atEnd, total) && d.v == total + EntryOffset(g, c, atEnd)
  {
    hide SeedWalk, Least;
    var cost, seeds := DistanceCost(g.edges), ExitSeeds(g, prev);
    var a: seq<Cost> :| BoundedLabels(g, seeds, cutoff, a) && d == EntryDistance(g, a, c, prev);
    var atEnd := d != Plus(a[EntryNode(g, c, false)], EntryOffset(g, c, false));
    var v := EntryNode(g, c, atEnd);
    assert BoundedLabel(g, cost, seeds, cutoff, v, a[v]);
    var k, p :| SeedWalk(g, cost, seeds, k, p, v, a[v].v);
    assert Route(g, prev, c, k, p, atEnd, a[v].v);
  }

  // ... and no route whose walk stays within the cutoff is shorter.
  lemma RouteIsShortest(g: Graph, cutoff: real, prev: Candidate, c: Candidate, d: Cost, k: int, p: seq<int>,
                        atEnd: bool, total: real)
    requires RouteIs(g, cutoff, prev, c, d) && c.edge != prev.edge
    requires Route(g, prev, c, k, p, atEnd, total) && Within(cutoff, total)
    ensures AtMost(d, total + EntryOffset(g, c, atEnd))
  {
    hide SeedWalk, Sound;
    var cost, seeds := DistanceCost(g.edges), ExitSeeds(g, prev);
    var a: seq<Cost> :| BoundedLabels(g, seeds, cutoff, a) && d == EntryDistance(g, a, c, prev);
    var v := EntryNode(g, c, atEnd);
    assert BoundedLabel(g, cost, seeds, cutoff, v, a[v]);
    assert AtMost(a[v], total);
  }

  lemma LabelsAreBounded(g: Graph, seeds: seq<Seed>, cutoff: real, res: SearchResult, x: Snapshot)
    requires Final(g, DistanceCost(g.edges), seeds, cutoff, res, x) && SeedsOk(g, seeds, x.l.cost)
    requires forall v :: IsNode(g, v) ==> Least(g, DistanceCost(g.edges), seeds, cutoff, v, x.l.cost[v])
    ensures BoundedLabels(g, seeds, cutoff, res.Cost[..]) && res.Cost.Length == g.n
  {
    hide Sound, Least;
    forall v | IsNode(g, v)
      ensures BoundedLabel(g, DistanceCost(g.edges), seeds, cutoff, v, x.l.cost[v])
    {
      assert Rooted(g, seeds, cutoff, x.l, v);
    }
  }

  // ----- the lattice

  // One step of the lattice: for every candidate of this row the route distances from every
  // candidate of the row before, the great-circle distance, and the candidates' own scores.
  datatype Layer = Layer(into: seq<seq<Cost>>, gc: real, emission: seq<real>)

  function Emission(c: Candidate, sigma: real): real
    requires sigma > 0.0
  {
    -0.5 * (c.distM / sigma) * (c.distM / sigma)
  }

  ghost predicate Shaped(l: Layer, before: nat) {
    |l.into| == |l.emission| && forall k :: 0 <= k < |l.into| ==> |l.into[k]| == before
  }

  predicate Connected(l: Layer, j: int, k: int) {
    0 <= k < |l.into| && 0 <= j < |l.into[k]| && l.into[k][j].Fin?
  }

  ghost predicate Reached(l: Layer, k: int) {
    exists j :: Connected(l, j, k)
  }

  // A connected pair may be used; a candidate that nothing connects to may follow any.
  ghost predicate Allowed(l: Layer, j: int, k: int) {
    0 <= k < |l.into| == |l.emission| && 0 <= j < |l.into[k]| && (Reached(l, k) ==> Connected(l, j, k))
  }

  const GAP_PENALTY := 1000.0

  function Transition(l: Layer, beta: real, j: int, k: int): real
    requires beta > 0.0 && Connected(l, j, k)
  {
    -Abs(l.into[k][j].v - l.gc) / beta
  }

  function StepScore(l: Layer, beta: real, j: int, k: int): real
    requires beta > 0.0 && 0 <= k < |l.emission|
  {
    l.emission[k] + if Connected(l, j, k) then Transition(l, beta, j, k) else -GAP_PENALTY
  }

  // The rows of scores below the first: layers[i] leads from row i to row i + 1.
  datatype Lattice = Lattice(first: seq<real>, layers: seq<Layer>, beta: real)

  function RowSize(t: Lattice, i: int): nat
    requires 0 <= i <= |t.layers|
  {
    if i == 0 then |t.first| else |t.layers[i - 1].emission|
  }

  ghost predicate WellShaped(t: Lattice) {
    && t.beta > 0.0
    && (forall i :: 0 <= i <= |t.layers| ==> RowSize(t, i) > 0)
    && (forall i :: 0 <= i < |t.layers| ==> Shaped(t.layers[i], RowSize(t, i)))
  }

  // One candidate per row, each step allowed.
  ghost predicate Chain(t: Lattice, ch: seq<int>) {
    var m := |ch|;
    && 1 <= m <= |t.layers| + 1
    && if m == 1 then 0 <= ch[0] < RowSize(t, 0)
       else Chain(t, ch[..m - 1]) && Allowed(t.layers[m - 2], ch[m - 2], ch[m - 1])
  }

  // The sum of the emissions of its candidates and of the scores of its steps.
  ghost function Score(t: Lattice, ch: seq<int>): real
    requires t.beta > 0.0 && Chain(t, ch)
  {
    var m := |ch|;
    if m == 1 then t.first[ch[0]]
    else Score(t, ch[..m - 1]) + StepScore(t.layers[m - 2], t.beta, ch[m - 2], ch[m - 1])
  }

  // ----- what the scores mean

  // A quotient is the number of times its divisor goes into what is divided.
  lemma QuotientIs(a: real, s: real, q: real)
    requires s > 0.0 && a == q * s
    ensures a / s == q
  {
  }

  // A candidate scores nothing at distance zero and less the farther away it is: a half less than
  // nothing at sigma, and k times k times as much at k times the distance. Only the ratio of the
  // distance to sigma matters.
  lemma EmissionMeans(c: Candidate, sigma: real, c': Candidate, sigma': real, k: real)
    requires sigma > 0.0 && sigma' > 0.0
    ensures Emission(c, sigma) <= 0.0 && (Emission(c, sigma) == 0.0 <==> c.distM == 0.0)
    ensures c.distM == sigma ==> Emission(c, sigma) == -0.5
    ensures c'.distM == k * c.distM ==> Emission(c', sigma) == k * k * Emission(c, sigma)
    ensures c.distM * sigma' == c'.distM * sigma ==> Emission(c, sigma) == Emission(c', sigma')
  {
    hide Emission;
    var q := c.distM / sigma;
    HalfSquare(c, sigma, q);
    SquareSign(q);
    if c.distM == sigma {
      HalfSquare(c, sigma, 1.0);
    }
    if c'.distM == k * c.distM {
      assert c'.distM == (k * q) * sigma;
      HalfSquare(c', sigma, k * q);
      SquareOfProduct(k, q);
    }
    if c.distM * sigma' == c'.distM * sigma {
      SameRatio(c.distM, sigma, c'.distM, sigma', q);
      HalfSquare(c', sigma', q);
    }
  }

  lemma SameRatio(a: real, s: real, a': real, s': real, q: real)
    requires s > 0.0 && s' > 0.0 && a == q * s && a * s' == a' * s
    ensures a' == q * s'
  {
    assert (a' - q * s') * s == 0.0;
  }

  lemma HalfSquare(c: Candidate, sigma: real, q: real)
    requires sigma > 0.0 && c.distM == q * sigma
    ensures Emission(c, sigma) == -0.5 * (q * q)
  {
    QuotientIs(c.distM, sigma, q);
  }

  lemma PositiveProduct(a: real, b: real)
    requires a > 0.0 && b > 0.0
    ensures a * b > 0.0
  {
  }

  lemma SquareSign(q: real)
    ensures if q == 0.0 then q * q == 0.0 else q * q > 0.0
  {
    if q > 0.0 {
      PositiveProduct(q, q);
    } else if q < 0.0 {
      PositiveProduct(-q, -q);
      assert (-q) * (-q) == q * q;
    }
  }

  lemma SquareOfProduct(k: real, q: real)
    ensures -0.5 * ((k * q) * (k * q)) == k * k * (-0.5 * (q * q))
  {
    assert (k * q) * (k * q) == (k * k) * (q * q);
  }

  lemma SquaresGrow(q: real, q': real)
    requires 0.0 <= q < q'
    ensures q * q < q' * q'
  {
    PositiveProduct(q' - q, q' + q);
    assert q' * q' - q * q == (q' - q) * (q' + q);
  }

  // The nearer of two candidates scores more.
  lemma NearerScoresMore(c: Candidate, c': Candidate, sigma: real)
    requires sigma > 0.0 && c.distM >= 0.0 && c'.distM >= 0.0
    ensures c.distM < c'.distM <==> Emission(c', sigma) < Emission(c, sigma)
    ensures c.distM == c'.distM <==> Emission(c', sigma) == Emission(c, sigma)
  {
    var q, q' := c.distM / sigma, c'.distM / sigma;
    assert q * sigma == c.distM && q' * sigma == c'.distM;
    HalfSquare(c, sigma, q);
    HalfSquare(c', sigma, q');
    hide Emission;
    if c.distM < c'.distM {
      SquaresGrow(q, q');
    } else if c'.distM < c.distM {
      SquaresGrow(q', q);
    }
  }

  // By how much the route of a connected step differs from the straight line.
  function Detour(l: Layer, j: int, k: int): real
    requires Connected(l, j, k)
  {
    Abs(l.into[k][j].v - l.gc)
  }

  // A step along the straight line costs nothing, and one that differs from it by beta costs one; n
  // times the difference costs n times as much.
  lemma TransitionMeans(l: Layer, beta: real, j: int, k: int, j': int, k': int, n: real)
    requires beta > 0.0 && Connected(l, j, k) && Connected(l, j', k')
    ensures Transition(l, beta, j, k) <= 0.0 && (Transition(l, beta, j, k) == 0.0 <==> l.into[k][j].v == l.gc)
    ensures l.into[k][j].v - l.gc == beta || l.gc - l.into[k][j].v == beta ==> Transition(l, beta, j, k) == -1.0
    ensures Detour(l, j', k') == n * Detour(l, j, k) ==> Transition(l, beta, j', k') == n * Transition(l, beta, j, k)
    ensures Detour(l, j, k) < Detour(l, j', k') <==> Transition(l, beta, j', k') < Transition(l, beta, j, k)
  {
    hide Transition;
    var d, d' := Detour(l, j, k), Detour(l, j', k');
    assert d == 0.0 <==> l.into[k][j].v == l.gc;
    assert l.into[k][j].v - l.gc == beta || l.gc - l.into[k][j].v == beta ==> d == beta;
    var q := Share(d, beta);
    MinusQuotient(l, beta, j, k, q);
    hide Detour;
    Scaled(0.0, q, beta);
    Scaled(q, 0.0, beta);
    TransitionFalls(l, beta, j, k, j', k');
    if d == beta {
      MinusQuotient(l, beta, j, k, 1.0);
    }
    if d' == n * d {
      TransitionScales(l, beta, j, k, j', k', n);
    }
  }

  lemma TransitionFalls(l: Layer, beta: real, j: int, k: int, j': int, k': int)
    requires beta > 0.0 && Connected(l, j, k) && Connected(l, j', k')
    ensures Detour(l, j, k) < Detour(l, j', k') <==> Transition(l, beta, j', k') < Transition(l, beta, j, k)
  {
    hide Transition, Detour;
    var q := Share(Detour(l, j, k), beta);
    var q' := Share(Detour(l, j', k'), beta);
    MinusQuotient(l, beta, j, k, q);
    MinusQuotient(l, beta, j', k', q');
    Scaled(q, q', beta);
  }

  lemma TransitionScales(l: Layer, beta: real, j: int, k: int, j': int, k': int, n: real)
    requires beta > 0.0 && Connected(l, j, k) && Connected(l, j', k')
    requires Detour(l, j', k') == n * Detour(l, j, k)
    ensures Transition(l, beta, j', k') == n * Transition(l, beta, j, k)
  {
    hide Transition, Detour;
    var q := Share(Detour(l, j, k), beta);
    MinusQuotient(l, beta, j, k, q);
    assert Detour(l, j', k') == (n * q) * beta;
    MinusQuotient(l, beta, j', k', n * q);
  }

  lemma Share(d: real, s: real) returns (q: real)
    requires s > 0.0
    ensures d == q * s
  {
    q := d / s;
  }

  lemma Scaled(q: real, q': real, s: real)
    requires s > 0.0
    ensures q * s < q' * s <==> q < q'
  {
    assert q' * s - q * s == (q' - q) * s;
    if q < q' {
      PositiveProduct(q' - q, s);
    } else if q' < q {
      PositiveProduct(q - q', s);
    }
  }

  lemma MinusQuotient(l: Layer, beta: real, j: int, k: int, q: real)
    requires beta > 0.0 && Connected(l, j, k) && Detour(l, j, k) == q * beta
    ensures Transition(l, beta, j, k) == -q
  {
    var d := Detour(l, j, k);
    assert -d == (-q) * beta;
    QuotientIs(-d, beta, -q);
  }

  // A step is no worse than another if it differs less from the straight line; a step without a
  // connection is as bad as a difference of a thousand times beta.
  predicate NoWorse(l: Layer, beta: real, j: int, k: int, j': int, k': int) {
    if Connected(l, j, k) then
      Detour(l, j, k) <= if Connected(l, j', k') then Detour(l, j', k') else 1000.0 * beta
    else
      Connected(l, j', k') ==> Detour(l, j', k') >= 1000.0 * beta
  }

  // What a step scores besides the candidate's own score.
  function Bonus(l: Layer, beta: real, j: int, k: int): real
    requires beta > 0.0 && 0 <= k < |l.emission|
  {
    StepScore(l, beta, j, k) - l.emission[k]
  }

  lemma NoWorseScoresMore(l: Layer, beta: real, j: int, k: int, j': int, k': int)
    requires beta > 0.0 && 0 <= k < |l.emission| && 0 <= k' < |l.emission|
    ensures NoWorse(l, beta, j, k, j', k') <==> Bonus(l, beta, j, k) >= Bonus(l, beta, j', k')
  {
    if Connected(l, j, k) {
      ThousandTimes(l, beta, j, k);
    }
    if Connected(l, j', k') {
      ThousandTimes(l, beta, j', k');
      if Connected(l, j, k) {
        TransitionFalls(l, beta, j, k, j', k');
        TransitionFalls(l, beta, j', k', j, k);
        hide Transition, Detour;
      }
    }
  }

  lemma ThousandTimes(l: Layer, beta: real, j: int, k: int)
    requires beta > 0.0 && Connected(l, j, k)
    ensures Transition(l, beta, j, k) >= -1000.0 <==> Detour(l, j, k) <= 1000.0 * beta
    ensures Transition(l, beta, j, k) <= -1000.0 <==> Detour(l, j, k) >= 1000.0 * beta
  {
    var q := Share(Detour(l, j, k), beta);
    MinusQuotient(l, beta, j, k, q);
    hide Transition, Detour;
    Scaled(q, 1000.0, beta);
    Scaled(1000.0, q, beta);
  }

  // ----- the dynamic program

  // s is the best score of candidate k over all allowed steps, and b the one that gives it, from 1.
  ghost predicate BestStep(l: Layer, beta: real, prev: seq<real>, k: int, s: real, b: int)
    requires beta > 0.0 && 0 <= k < |l.into| == |l.emission| && |prev| == |l.into[k]|
  {
    && Allowed(l, b - 1, k) && s == prev[b - 1] + StepScore(l, beta, b - 1, k)
    && forall j :: Allowed(l, j, k) ==> prev[j] + StepScore(l, beta, j, k) <= s
  }

  // One row of scores and back links.
  ghost predicate RowOk(l: Layer, beta: real, prev: seq<real>, s: seq<real>, b: seq<int>) {
    && beta > 0.0 && |s| == |b| == |l.into| == |l.emission|
    && forall k :: 0 <= k < |s| ==> |l.into[k]| == |prev| && BestStep(l, beta, prev, k, s[k], b[k])
  }

  // The tables of scores and back links.
  ghost predicate Filled(t: Lattice, score: seq<seq<real>>, back: seq<seq<int>>, rows: nat) {
    && WellShaped(t) && 1 <= rows <= |t.layers| + 1 && |score| == |back| == rows
    && (forall i :: 0 <= i < rows ==> |score[i]| == |back[i]| == RowSize(t, i))
    && score[0] == t.first
    && (forall i :: 0 < i < rows ==> RowOk(t.layers[i - 1], t.beta, score[i - 1], score[i], back[i]))
  }

  lemma StepAt(t: Lattice, score: seq<seq<real>>, back: seq<seq<int>>, rows: nat, i: int, k: int)
    requires Filled(t, score, back, rows) && 0 < i < rows && 0 <= k < RowSize(t, i)
    ensures |score| == |back| == rows && |score[i]| == |back[i]| == RowSize(t, i) && |score[i - 1]| == RowSize(t, i - 1)
    ensures |t.layers[i - 1].into| == |t.layers[i - 1].emission| && |t.layers[i - 1].into[k]| == RowSize(t, i - 1)
    ensures BestStep(t.layers[i - 1], t.beta, score[i - 1], k, score[i][k], back[i][k])
  {
    hide BestStep;
    assert RowOk(t.layers[i - 1], t.beta, score[i - 1], score[i], back[i]);
  }

  lemma FirstRow(t: Lattice, score: seq<seq<real>>, back: seq<seq<int>>, rows: nat)
    requires Filled(t, score, back, rows)
    ensures |score| == |back| == rows >= 1 && rows <= |t.layers| + 1 && score[0] == t.first && WellShaped(t)
  {
  }

  lemma ChainBegins(t: Lattice, ch: seq<int>)
    requires WellShaped(t) && Chain(t, ch)
    ensures t.beta > 0.0 && (|ch| == 1 ==> 0 <= ch[0] < RowSize(t, 0))
  {
  }

  lemma FirstStep(t: Lattice, ch: seq<int>)
    requires WellShaped(t) && |ch| == 1 && 0 <= ch[0] < RowSize(t, 0)
    ensures Chain(t, ch) && Score(t, ch) == t.first[ch[0]]
  {
  }

  lemma NextStep(t: Lattice, ch: seq<int>)
    requires WellShaped(t) && 2 <= |ch| <= |t.layers| + 1
    ensures Chain(t, ch) <==> Chain(t, ch[..|ch| - 1]) && Allowed(t.layers[|ch| - 2], ch[|ch| - 2], ch[|ch| - 1])
    ensures Chain(t, ch) ==> 0 <= ch[|ch| - 1] < RowSize(t, |ch| - 1)
    ensures Chain(t, ch) ==>
      Score(t, ch) == Score(t, ch[..|ch| - 1]) + StepScore(t.layers[|ch| - 2], t.beta, ch[|ch| - 2], ch[|ch| - 1])
  {
    hide StepScore, WellShaped;
  }

  lemma StepForth(t: Lattice, score: seq<seq<real>>, back: seq<seq<int>>, rows: nat, i: int, j: int, k: int)
    requires Filled(t, score, back, rows) && 0 < i < rows <= |t.layers| + 1 && 0 <= k < RowSize(t, i)
    requires Allowed(t.layers[i - 1], j, k) && t.beta > 0.0
    ensures |score[i]| == RowSize(t, i) && 0 <= j < |score[i - 1]|
    ensures score[i - 1][j] + StepScore(t.layers[i - 1], t.beta, j, k) <= score[i][k]
  {
    hide StepScore, Reached;
    StepAt(t, score, back, rows, i, k);
  }

  // No chain beats the table.
  lemma {:induction false} TableIsUpperBound(t: Lattice, score: seq<seq<real>>, back: seq<seq<int>>, rows: nat,
                                             ch: seq<int>)
    requires Filled(t, score, back, rows) && WellShaped(t) && |score| == rows <= |t.layers| + 1
    requires Chain(t, ch) && 1 <= |ch| <= rows
    ensures 0 <= ch[|ch| - 1] < |score[|ch| - 1]|
    ensures Score(t, ch) <= score[|ch| - 1][ch[|ch| - 1]]
    decreases |ch|
  {
    hide Filled, Allowed, StepScore, Score, BestStep, WellShaped, Chain;
    var m := |ch|;
    if m == 1 {
      FirstRow(t, score, back, rows);
      ChainBegins(t, ch);
      FirstStep(t, ch);
    } else {
      ChainBegins(t, ch);
      NextStep(t, ch);
      TableIsUpperBound(t, score, back, rows, ch[..m - 1]);
      StepForth(t, score, back, rows, m - 1, ch[m - 2], ch[m - 1]);
    }
  }

  predicate LinkHolds(links: seq<int>, k: int, before: int) {
    0 <= k < |links| && before == links[k] - 1
  }

  // Each entry is what the back link of the next one says.
  ghost predicate Follows(back: seq<seq<int>>, ch: seq<int>) {
    && 1 <= |ch| <= |back|
    && (forall i :: 0 < i < |ch| ==> LinkHolds(back[i], ch[i], ch[i - 1]))
  }

  lemma FollowsOn(back: seq<seq<int>>, ch: seq<int>)
    requires Follows(back, ch) && |ch| > 1
    ensures Follows(back, ch[..|ch| - 1]) && |ch| <= |back| && LinkHolds(back[|ch| - 1], ch[|ch| - 1], ch[|ch| - 2])
  {
  }

  lemma StepBack(t: Lattice, score: seq<seq<real>>, back: seq<seq<int>>, rows: nat, i: int, k: int)
    requires Filled(t, score, back, rows) && 0 < i < rows && 0 <= k < RowSize(t, i)
    ensures
      && |score| == |back| == rows && |score[i]| == |back[i]| == RowSize(t, i) && |score[i - 1]| == RowSize(t, i - 1)
      && t.beta > 0.0 && RowSize(t, i) == |t.layers[i - 1].emission|
      && var j := back[i][k] - 1;
        && 0 <= j < |score[i - 1]|
        && Allowed(t.layers[i - 1], j, k) && score[i][k] == score[i - 1][j] + StepScore(t.layers[i - 1], t.beta, j, k)
  {
    hide StepScore, Reached;
    StepAt(t, score, back, rows, i, k);
  }

  // Following the back links gives a chain that attains the table.
  lemma {:induction false} BackLinksAttain(t: Lattice, score: seq<seq<real>>, back: seq<seq<int>>, rows: nat,
                                           ch: seq<int>)
    requires Filled(t, score, back, rows) && WellShaped(t) && |score| == |back| == rows <= |t.layers| + 1
    requires Follows(back, ch) && 1 <= |ch| <= rows && 0 <= ch[|ch| - 1] < RowSize(t, |ch| - 1)
    ensures Chain(t, ch) && ch[|ch| - 1] < |score[|ch| - 1]|
    ensures Score(t, ch) == score[|ch| - 1][ch[|ch| - 1]]
    decreases |ch|
  {
    hide Filled, StepScore, WellShaped, Chain, Score, Allowed, BestStep, Follows;
    var m := |ch|;
    if m == 1 {
      FirstRow(t, score, back, rows);
      FirstStep(t, ch);
    } else {
      StepBack(t, score, back, rows, m - 1, ch[m - 1]);
      FollowsOn(back, ch);
      BackLinksAttain(t, score, back, rows, ch[..m - 1]);
      NextStep(t, ch);
    }
  }

  // argmax: the first of the greatest values.
  method Argmax(v: seq<real>) returns (best: int)
    requires |v| > 0
    ensures 0 <= best < |v|
    ensures forall j :: 0 <= j < |v| ==> v[j] <= v[best]
    ensures forall j :: 0 <= j < best ==> v[j] < v[best]
  {
    best := 0;
    for i := 1 to |v|
      invariant 0 <= best < i
      invariant forall j :: 0 <= j < i ==> v[j] <= v[best]
      invariant forall j :: 0 <= j < best ==> v[j] < v[best]
    {
      if v[i] > v[best] {
        best := i;
      }
    }
  }

  // ----- filling one row

  // What the loops over one row read.
  datatype Stage = Stage(g: Graph, prevRow: seq<Candidate>, curRow: seq<Candidate>, gc: real,
                         sigma: real, beta: real, prev: seq<real>)

  ghost predicate OnNetwork(g: Graph, row: seq<Candidate>) {
    forall k :: 0 <= k < |row| ==> IsEdge(g, row[k].edge)
  }

  ghost predicate StageOk(st: Stage) {
    && Indexed(st.g) && NonNegative(st.g, DistanceCost(st.g.edges))
    && OnNetwork(st.g, st.prevRow) && OnNetwork(st.g, st.curRow)
    && st.sigma > 0.0 && st.beta > 0.0 && |st.prev| == |st.prevRow| > 0
  }

  function Cutoff(gc: real): real {
    gc * 10.0 + 2000.0
  }

  ghost function Emissions(row: seq<Candidate>, sigma: real): (r: seq<real>)
    requires sigma > 0.0
    ensures |r| == |row| && forall k :: 0 <= k < |r| ==> r[k] == Emission(row[k], sigma)
  {
    seq(|row|, k requires 0 <= k < |row| => Emission(row[k], sigma))
  }

  // A detour of up to ten times the straight line and two kilometres more is never missed.
  lemma DetourIsFound(g: Graph, gc: real, prev: Candidate, c: Candidate, d: Cost, k: int, p: seq<int>, atEnd: bool,
                      total: real)
    requires RouteIs(g, Cutoff(gc), prev, c, d) && c.edge != prev.edge && gc >= 0.0
    requires Route(g, prev, c, k, p, atEnd, total) && total <= 10.0 * gc + 2000.0
    ensures AtMost(d, total + EntryOffset(g, c, atEnd))
  {
    hide RouteIs, Route, EntryOffset;
    RouteIsShortest(g, Cutoff(gc), prev, c, d, k, p, atEnd, total);
  }

  // And the walk that the distance counts is never longer than that, unless there is no walk in it.
  lemma LongDetourIsMissed(g: Graph, gc: real, prev: Candidate, c: Candidate, d: Cost)
    requires RouteIs(g, Cutoff(gc), prev, c, d) && c.edge != prev.edge && d.Fin? && gc >= 0.0
    ensures exists k, p, atEnd, total ::
              Route(g, prev, c, k, p, atEnd, total) && d.v == total + EntryOffset(g, c, atEnd) &&
              (total <= 10.0 * gc + 2000.0 || p == [])
  {
    hide SeedWalk, Least, EntryOffset, Plus;
    var cost, seeds := DistanceCost(g.edges), ExitSeeds(g, prev);
    var a: seq<Cost> :| BoundedLabels(g, seeds, Cutoff(gc), a) && d == EntryDistance(g, a, c, prev);
    var atEnd := EntryIsBest(g, a, c, prev);
    var v := EntryNode(g, c, atEnd);
    assert BoundedLabel(g, cost, seeds, Cutoff(gc), v, a[v]);
    PlusIs(a[v], EntryOffset(g, c, atEnd));
    if Within(Cutoff(gc), a[v].v) {
      var k, p :| SeedWalk(g, cost, seeds, k, p, v, a[v].v);
      assert Route(g, prev, c, k, p, atEnd, a[v].v);
    } else {
      var k :| 0 <= k < |seeds| && seeds[k] == Seed(v, a[v].v);
      StandingStill(g, cost, seeds, k);
      assert Route(g, prev, c, k, [], atEnd, a[v].v);
    }
  }

  lemma PlusIs(x: Cost, d: real)
    ensures Plus(x, d) == if x.Fin? then Fin(x.v + d) else Inf
  {
  }

  lemma EntryIsBest(g: Graph, labels: seq<Cost>, c: Candidate, prev: Candidate) returns (atEnd: bool)
    requires Indexed(g) && |labels| == g.n && IsEdge(g, c.edge) && c.edge != prev.edge
    ensures IsNode(g, EntryNode(g, c, atEnd))
    ensures EntryDistance(g, labels, c, prev) == Plus(labels[EntryNode(g, c, atEnd)], EntryOffset(g, c, atEnd))
  {
    hide Plus;
    atEnd := EntryDistance(g, labels, c, prev) != Plus(labels[EntryNode(g, c, false)], EntryOffset(g, c, false));
  }

  lemma StandingStill(g: Graph, cost: seq<real>, seeds: seq<Seed>, k: int)
    requires |cost| == |g.edges| && 0 <= k < |seeds|
    ensures SeedWalk(g, cost, seeds, k, [], seeds[k].node, seeds[k].cost)
  {
  }

  // The score of reaching candidate k from predecessor j at route distance d.
  function Reach(st: Stage, k: int, j: int, d: Cost): real
    requires st.sigma > 0.0 && st.beta > 0.0 && 0 <= k < |st.curRow| && 0 <= j < |st.prev| && d.Fin?
  {
    st.prev[j] + -Abs(d.v - st.gc) / st.beta + Emission(st.curRow[k], st.sigma)
  }

  // After the first n predecessors: col are their route distances to candidate k, and b is the
  // first of the best connected ones, from 1; 0 when none is connected.
  ghost predicate Cell(st: Stage, k: int, n: int, col: seq<Cost>, s: real, b: int) {
    && StageOk(st) && 0 <= k < |st.curRow| && |col| == n <= |st.prev|
    && (forall j :: 0 <= j < n ==> RouteIs(st.g, Cutoff(st.gc), st.prevRow[j], st.curRow[k], col[j]))
    && if b == 0 then forall j :: 0 <= j < n ==> col[j].Inf?
       else
         && 1 <= b <= n && col[b - 1].Fin? && s == Reach(st, k, b - 1, col[b - 1])
         && forall j :: 0 <= j < n && col[j].Fin? ==> Reach(st, k, j, col[j]) <= s
  }

  lemma CellNext(st: Stage, k: int, n: int, col: seq<Cost>, s: real, b: int, d: Cost)
    requires Cell(st, k, n, col, s, b) && n < |st.prev| && RouteIs(st.g, Cutoff(st.gc), st.prevRow[n], st.curRow[k], d)
    ensures
      if d.Inf? then Cell(st, k, n + 1, col + [d], s, b)
      else if b == 0 || Reach(st, k, n, d) > s then Cell(st, k, n + 1, col + [d], Reach(st, k, n, d), n + 1)
      else Cell(st, k, n + 1, col + [d], s, b)
  {
    hide RouteIs, StageOk, Reach;
  }

  lemma CellDone(st: Stage, l: Layer, k: int, s: real, b: int, best: int)
    requires 0 <= k < |l.into| == |l.emission| && Cell(st, k, |st.prev|, l.into[k], s, b)
    requires l.gc == st.gc && l.emission == Emissions(st.curRow, st.sigma)
    requires 0 <= best < |st.prev| && forall j :: 0 <= j < |st.prev| ==> st.prev[j] <= st.prev[best]
    ensures b != 0 ==> BestStep(l, st.beta, st.prev, k, s, b)
    ensures b == 0 ==>
      BestStep(l, st.beta, st.prev, k, st.prev[best] + Emission(st.curRow[k], st.sigma) - GAP_PENALTY, best + 1)
  {
    hide RouteIs, StageOk, Emission;
    if b != 0 {
      assert Connected(l, b - 1, k);
    } else {
      assert !Reached(l, k);
    }
  }

  // The route distances of one layer are right.
  ghost predicate Routed(g: Graph, prevRow: seq<Candidate>, curRow: seq<Candidate>, l: Layer) {
    && |l.into| == |curRow|
    && forall k, j :: 0 <= k < |curRow| && 0 <= j < |prevRow| ==>
         |l.into[k]| == |prevRow| && RouteIs(g, Cutoff(l.gc), prevRow[j], curRow[k], l.into[k][j])
  }

  ghost predicate Cells(st: Stage, cols: seq<seq<Cost>>, score: seq<real>, back: seq<int>, j: int, k: int) {
    && |cols| == |score| == |back| == |st.curRow|
    && forall i :: 0 <= i < |cols| ==> Cell(st, i, if i < k then j + 1 else j, cols[i], score[i], back[i])
  }

  lemma CellsNext(st: Stage, cols: seq<seq<Cost>>, score: seq<real>, back: seq<int>, j: int, k: int, d: Cost, s: real,
                  b: int)
    requires Cells(st, cols, score, back, j, k) && 0 <= k < |cols| && Cell(st, k, j + 1, cols[k] + [d], s, b)
    ensures Cells(st, cols[k := cols[k] + [d]], score[k := s], back[k := b], j, k + 1)
  {
    hide Cell;
  }

  lemma CellsRow(st: Stage, cols: seq<seq<Cost>>, score: seq<real>, back: seq<int>, j: int)
    requires Cells(st, cols, score, back, j, |st.curRow|)
    ensures Cells(st, cols, score, back, j + 1, 0)
  {
    hide Cell;
  }

  lemma CellsStart(st: Stage, cols: seq<seq<Cost>>, score: seq<real>, back: seq<int>)
    requires StageOk(st) && |cols| == |score| == |back| == |st.curRow|
    requires forall i :: 0 <= i < |cols| ==> cols[i] == [] && back[i] == 0
    ensures Cells(st, cols, score, back, 0, 0)
  {
    hide StageOk;
  }

  // One predecessor: a bounded search from it, then one comparison for every candidate.
  method TryPredecessor(st: Stage, j: int, score: array<real>, back: array<int>, ghost cols0: seq<seq<Cost>>,
                        ctxErr: nat -> bool)
      returns (cancelled: bool, ghost cols: seq<seq<Cost>>)
    requires StageOk(st) && 0 <= j < |st.prevRow| && Cells(st, cols0, score[..], back[..], j, 0)
    modifies score, back
    ensures cancelled ==> exists n :: ctxErr(n)
    ensures !cancelled ==> Cells(st, cols, score[..], back[..], j + 1, 0)
  {
    hide Cells, Cell, Reach, RouteIs, BoundedLabels, Final, Least, SeedsOk;
    cols, cancelled := cols0, false;
    StageFacts(st, j);
    var res, x := DijkstraSeeded(st.g, ExitSeeds(st.g, st.prevRow[j]), DistanceCost(st.g.edges), Cutoff(st.gc), -1,
      ctxErr);
    if res == null {
      cancelled := true;
      return;
    }
    LabelsAreBounded(st.g, ExitSeeds(st.g, st.prevRow[j]), Cutoff(st.gc), res, x);
    ghost var labels := res.Cost[..];
    CellsSize(st, cols, score[..], back[..], j, 0);
    for k := 0 to |st.curRow|
      invariant labels == res.Cost[..] && score.Length == back.Length == |st.curRow|
      invariant Cells(st, cols, score[..], back[..], j, k)
    {
      ghost var scores, backs := score[..], back[..];
      CurrentEdge(st, k);
      var d := EntryDistance(st.g, res.Cost[..], st.curRow[k], st.prevRow[j]);
      EntryIsRoute(st, labels, j, k, d);
      CellsAt(st, cols, scores, backs, j, k);
      CellNext(st, k, j, cols[k], score[k], back[k], d);
      if d.Fin? {
        var cand := Reach(st, k, j, d);
        if back[k] == 0 || cand > score[k] {
          score[k] := cand;
          back[k] := j + 1;
        }
      }
      assert score[..] == scores[k := score[k]] && back[..] == backs[k := back[k]];
      CellsNext(st, cols, scores, backs, j, k, d, score[k], back[k]);
      cols := cols[k := cols[k] + [d]];
    }
    CellsRow(st, cols, score[..], back[..], j);
  }

  lemma StageFacts(st: Stage, j: int)
    requires StageOk(st) && 0 <= j < |st.prevRow|
    ensures Indexed(st.g) && NonNegative(st.g, DistanceCost(st.g.edges)) && IsEdge(st.g, st.prevRow[j].edge)
    ensures |st.prev| == |st.prevRow|
    ensures SeedsInGraph(st.g, ExitSeeds(st.g, st.prevRow[j])) && st.sigma > 0.0 && st.beta > 0.0
  {
    hide NonNegative;
  }

  lemma CurrentEdge(st: Stage, k: int)
    requires StageOk(st) && 0 <= k < |st.curRow|
    ensures IsEdge(st.g, st.curRow[k].edge)
  {
    hide NonNegative, Indexed;
  }

  lemma CellsSize(st: Stage, cols: seq<seq<Cost>>, score: seq<real>, back: seq<int>, j: int, k: int)
    requires Cells(st, cols, score, back, j, k)
    ensures |cols| == |score| == |back| == |st.curRow|
  {
    hide Cell;
  }

  lemma CellsAt(st: Stage, cols: seq<seq<Cost>>, score: seq<real>, back: seq<int>, j: int, k: int)
    requires Cells(st, cols, score, back, j, k) && 0 <= k < |st.curRow|
    ensures |cols| == |score| == |back| == |st.curRow| && Cell(st, k, j, cols[k], score[k], back[k])
  {
    hide Cell;
  }

  lemma EntryIsRoute(st: Stage, labels: seq<Cost>, j: int, k: int, d: Cost)
    requires Indexed(st.g) && 0 <= j < |st.prevRow| && 0 <= k < |st.curRow|
    requires IsEdge(st.g, st.prevRow[j].edge) && IsEdge(st.g, st.curRow[k].edge)
    requires BoundedLabels(st.g, ExitSeeds(st.g, st.prevRow[j]), Cutoff(st.gc), labels)
    requires d == EntryDistance(st.g, labels, st.curRow[k], st.prevRow[j])
    ensures RouteIs(st.g, Cutoff(st.gc), st.prevRow[j], st.curRow[k], d)
  {
    hide Indexed, EntryDistance, BoundedLabel, ExitSeeds;
  }

  // A row of the lattice: afterwards every entry is the best allowed step to its candidate.
  method FillRow(st: Stage, ctxErr: (nat, nat) -> bool)
      returns (cancelled: bool, score: array<real>, back: array<int>, ghost l: Layer)
    requires StageOk(st)
    ensures fresh(score) && fresh(back)
    ensures cancelled ==> exists j, n :: ctxErr(j, n)
    ensures !cancelled ==>
      && score.Length == back.Length == |l.into| == |l.emission| == |st.curRow|
      && Routed(st.g, st.prevRow, st.curRow, l) && l.gc == st.gc && l.emission == Emissions(st.curRow, st.sigma)
      && Shaped(l, |st.prev|) && st.beta > 0.0
      && RowOk(l, st.beta, st.prev, score[..], back[..])
  {
    hide Cells, Cell, BestStep, Emission, RouteIs, StageOk;
    StageSizes(st);
    cancelled := false;
    score := new real[|st.curRow|](_ => 0.0);
    back := new int[|st.curRow|](_ => 0);
    ghost var cols := seq(|st.curRow|, _ => []);
    CellsStart(st, cols, score[..], back[..]);
    l := Layer(cols, st.gc, Emissions(st.curRow, st.sigma));
    for j := 0 to |st.prevRow|
      invariant fresh(score) && fresh(back)
      invariant Cells(st, cols, score[..], back[..], j, 0)
    {
      var failed;
      var from: nat := j;
      failed, cols := TryPredecessor(st, j, score, back, cols, (n: nat) => ctxErr(from, n));
      if failed {
        cancelled := true;
        return;
      }
    }
    l := Layer(cols, st.gc, Emissions(st.curRow, st.sigma));
    CellsSize(st, cols, score[..], back[..], |st.prevRow|, 0);
    CellsAreRouted(st, l, score[..], back[..]);
    for k := 0 to |st.curRow|
      invariant fresh(score) && fresh(back) && score.Length == back.Length == |st.curRow|
      invariant forall i :: k <= i < |st.curRow| ==> Cell(st, i, |st.prevRow|, cols[i], score[i], back[i])
      invariant forall i :: 0 <= i < k ==> BestStep(l, st.beta, st.prev, i, score[i], back[i])
    {
      var best := Argmax(st.prev);
      CellDone(st, l, k, score[k], back[k], best);
      if back[k] == 0 {
        score[k] := st.prev[best] + Emission(st.curRow[k], st.sigma) - GAP_PENALTY;
        back[k] := best + 1;
      }
    }
  }

  lemma StageSizes(st: Stage)
    requires StageOk(st)
    ensures st.sigma > 0.0 && st.beta > 0.0 && |st.prev| == |st.prevRow| > 0
  {
  }

  lemma CellsAreRouted(st: Stage, l: Layer, score: seq<real>, back: seq<int>)
    requires Cells(st, l.into, score, back, |st.prevRow|, 0) && l.gc == st.gc && |l.emission| == |st.curRow|
    requires |st.prev| == |st.prevRow|
    ensures Routed(st.g, st.prevRow, st.curRow, l) && Shaped(l, |st.prevRow|)
    ensures forall i :: 0 <= i < |st.curRow| ==> Cell(st, i, |st.prevRow|, l.into[i], score[i], back[i])
  {
    hide RouteIs, StageOk, Reach;
  }

  // ----- the whole match

  datatype Match = Cancelled | TooFew | Chosen(pointIdx: seq<int>, chosen: seq<int>)

  // The trace points with at least one candidate, in order.
  ghost predicate Usable(cands: seq<seq<Candidate>>, n: int, idx: seq<int>) {
    && (forall a, b :: 0 <= a < b < |idx| ==> idx[a] < idx[b])
    && (forall i :: i in idx <==> 0 <= i < n && i < |cands| && cands[i] != [])
  }

  // The first n rows of the lattice are what the candidates prescribe.
  ghost predicate LatticeOf(g: Graph, rows: seq<seq<Candidate>>, gcs: seq<real>, sigma: real, t: Lattice, n: int) {
    && sigma > 0.0 && 1 <= n <= |rows| == |gcs| && |t.layers| == n - 1
    && t.first == Emissions(rows[0], sigma)
    && (forall i :: 1 <= i < n ==> LayerOf(g, rows[i - 1], rows[i], gcs[i], sigma, t.layers[i - 1]))
  }

  ghost predicate LayerOf(g: Graph, prevRow: seq<Candidate>, curRow: seq<Candidate>, gc: real, sigma: real, l: Layer) {
    && sigma > 0.0 && l.gc == gc && l.emission == Emissions(curRow, sigma)
    && Routed(g, prevRow, curRow, l)
  }

  // The candidates leave no choice: there is one lattice.
  lemma LayerIsUnique(g: Graph, prevRow: seq<Candidate>, curRow: seq<Candidate>, gc: real, sigma: real, l: Layer,
                      l': Layer)
    requires LayerOf(g, prevRow, curRow, gc, sigma, l) && LayerOf(g, prevRow, curRow, gc, sigma, l') && |prevRow| > 0
    ensures l == l'
  {
    hide RouteIs;
    forall k | 0 <= k < |curRow|
      ensures l.into[k] == l'.into[k]
    {
      assert |l.into[k]| == |prevRow| && |l'.into[k]| == |prevRow| by {
        assert RouteIs(g, Cutoff(l.gc), prevRow[0], curRow[k], l.into[k][0]);
        assert RouteIs(g, Cutoff(l.gc), prevRow[0], curRow[k], l'.into[k][0]);
      }
      forall j | 0 <= j < |prevRow|
        ensures l.into[k][j] == l'.into[k][j]
      {
        RouteIsUnique(g, Cutoff(l.gc), prevRow[j], curRow[k], l.into[k][j], l'.into[k][j]);
      }
    }
  }

  lemma LatticeIsUnique(g: Graph, rows: seq<seq<Candidate>>, gcs: seq<real>, sigma: real, t: Lattice, t': Lattice,
                        n: int)
    requires LatticeOf(g, rows, gcs, sigma, t, n) && LatticeOf(g, rows, gcs, sigma, t', n)
    requires forall i :: 0 <= i < n ==> |rows[i]| > 0
    ensures t.first == t'.first && t.layers == t'.layers
  {
    hide LayerOf;
    forall i | 0 <= i < n - 1
      ensures t.layers[i] == t'.layers[i]
    {
      assert LayerOf(g, rows[i + 1 - 1], rows[i + 1], gcs[i + 1], sigma, t.layers[i + 1 - 1]);
      assert LayerOf(g, rows[i + 1 - 1], rows[i + 1], gcs[i + 1], sigma, t'.layers[i + 1 - 1]);
      LayerIsUnique(g, rows[i], rows[i + 1], gcs[i + 1], sigma, t.layers[i], t'.layers[i]);
    }
  }

  lemma ShapeNext(t: Lattice, l: Layer)
    requires WellShaped(t) && Shaped(l, RowSize(t, |t.layers|)) && |l.emission| > 0
    ensures WellShaped(Lattice(t.first, t.layers + [l], t.beta))
  {
    hide Shaped;
    var t' := Lattice(t.first, t.layers + [l], t.beta);
    forall i | 0 <= i < |t'.layers|
      ensures RowSize(t', i) > 0 && Shaped(t'.layers[i], RowSize(t', i))
    {
      assert RowSize(t', i) == RowSize(t, i);
    }
  }

  lemma RowsNext(t: Lattice, score: seq<seq<real>>, back: seq<seq<int>>, n: nat, l: Layer, s: seq<real>, b: seq<int>)
    requires Filled(t, score, back, n) && n == |t.layers| + 1 && |score| == n && Shaped(l, RowSize(t, n - 1))
    requires |l.emission| > 0
    requires RowOk(l, t.beta, score[n - 1], s, b)
    ensures Filled(Lattice(t.first, t.layers + [l], t.beta), score + [s], back + [b], n + 1)
  {
    hide RowOk, WellShaped, Shaped;
    var t', score', back' := Lattice(t.first, t.layers + [l], t.beta), score + [s], back + [b];
    ShapeNext(t, l);
    RowSizes(l, t.beta, score[n - 1], s, b);
    forall i | 0 <= i < n + 1
      ensures |score'[i]| == |back'[i]| == RowSize(t', i)
    {
      assert i < n ==> RowSize(t', i) == RowSize(t, i);
    }
    forall i | 0 < i < n + 1
      ensures RowOk(t'.layers[i - 1], t'.beta, score'[i - 1], score'[i], back'[i])
    {
    }
  }

  lemma RowSizes(l: Layer, beta: real, prev: seq<real>, s: seq<real>, b: seq<int>)
    requires RowOk(l, beta, prev, s, b)
    ensures |s| == |b| == |l.into| == |l.emission|
  {
  }

  lemma RowsStart(first: seq<real>, beta: real, links: seq<int>)
    requires |first| == |links| > 0 && beta > 0.0
    ensures Filled(Lattice(first, [], beta), [first], [links], 1)
  {
  }

  lemma LatticeNext(g: Graph, rows: seq<seq<Candidate>>, gcs: seq<real>, sigma: real, t: Lattice, n: int, l: Layer)
    requires LatticeOf(g, rows, gcs, sigma, t, n) && n < |rows| && LayerOf(g, rows[n - 1], rows[n], gcs[n], sigma, l)
    ensures LatticeOf(g, rows, gcs, sigma, Lattice(t.first, t.layers + [l], t.beta), n + 1)
  {
    hide LayerOf;
  }

  lemma LastRowSize(t: Lattice, score: seq<seq<real>>, back: seq<seq<int>>, n: nat)
    requires Filled(t, score, back, n)
    ensures |score| == |back| == n && n >= 1 && n - 1 <= |t.layers|
    ensures |score[n - 1]| == |back[n - 1]| == RowSize(t, n - 1) > 0
    ensures t.beta > 0.0
  {
  }

  // The chain is allowed, and no chain through all rows scores more.
  ghost predicate Best(t: Lattice, n: int, chosen: seq<int>) {
    && t.beta > 0.0 && |chosen| == n && Chain(t, chosen)
    && forall ch :: |ch| == n && Chain(t, ch) ==> Score(t, ch) <= Score(t, chosen)
  }

  // A chain that is best at everything: its candidates are nearest in their rows, and no allowed step
  // is better than its own.
  ghost predicate Dominates(rows: seq<seq<Candidate>>, t: Lattice, near: seq<int>) {
    && WellShaped(t) && |near| == |rows| == |t.layers| + 1 && Chain(t, near)
    && (forall i :: 0 <= i < |rows| ==> NearestIn(rows[i], near[i]))
    && (forall i :: 0 < i < |rows| ==> BestStepOf(t.layers[i - 1], t.beta, near[i - 1], near[i]))
  }

  ghost predicate NearestIn(row: seq<Candidate>, k: int) {
    0 <= k < |row| && forall m :: 0 <= m < |row| ==> 0.0 <= row[k].distM <= row[m].distM
  }

  ghost predicate BestStepOf(l: Layer, beta: real, j: int, k: int) {
    Allowed(l, j, k) && forall j', k' :: Allowed(l, j', k') ==> NoWorse(l, beta, j, k, j', k')
  }

  // Every candidate of the chain is a nearest one, and no allowed step is better than one of its own.
  ghost predicate BestAtAll(rows: seq<seq<Candidate>>, t: Lattice, ch: seq<int>, n: int) {
    && 0 <= n <= |ch| && |ch| <= |rows| == |t.layers| + 1
    && (forall i :: 0 <= i < n ==> NearestIn(rows[i], ch[i]))
    && (forall i :: 0 < i < n ==> BestStepOf(t.layers[i - 1], t.beta, ch[i - 1], ch[i]))
  }

  function OwnScore(t: Lattice, i: int, k: int): real
    requires 0 <= i <= |t.layers| && 0 <= k < RowSize(t, i)
  {
    if i == 0 then t.first[k] else t.layers[i - 1].emission[k]
  }

  lemma OwnScoreIs(g: Graph, rows: seq<seq<Candidate>>, gcs: seq<real>, sigma: real, t: Lattice, i: int, k: int)
    requires LatticeOf(g, rows, gcs, sigma, t, |rows|) && 0 <= i < |rows| && 0 <= k < |rows[i]|
    ensures |t.layers| == |rows| - 1 && RowSize(t, i) == |rows[i]| && sigma > 0.0
    ensures OwnScore(t, i, k) == Emission(rows[i][k], sigma)
  {
    hide Routed, Emission;
    if i > 0 {
      assert LayerOf(g, rows[i - 1], rows[i], gcs[i], sigma, t.layers[i - 1]);
    }
  }

  lemma NearestScoresMost(g: Graph, rows: seq<seq<Candidate>>, gcs: seq<real>, sigma: real, t: Lattice, i: int,
                          near: int, k: int)
    requires LatticeOf(g, rows, gcs, sigma, t, |rows|) && 0 <= i < |rows| && |t.layers| == |rows| - 1
    requires NearestIn(rows[i], near) && 0 <= k < RowSize(t, i)
    ensures k < |rows[i]| && 0 <= near < RowSize(t, i) && OwnScore(t, i, k) <= OwnScore(t, i, near)
    ensures OwnScore(t, i, k) == OwnScore(t, i, near) ==> NearestIn(rows[i], k)
  {
    hide LatticeOf, Emission;
    OwnScoreIs(g, rows, gcs, sigma, t, i, near);
    OwnScoreIs(g, rows, gcs, sigma, t, i, k);
    NearerScoresMore(rows[i][near], rows[i][k], sigma);
    NearerScoresMore(rows[i][k], rows[i][near], sigma);
  }

  lemma BestStepScoresMost(l: Layer, beta: real, j: int, k: int, j': int, k': int)
    requires beta > 0.0 && BestStepOf(l, beta, j, k) && Allowed(l, j', k')
    ensures 0 <= k < |l.emission| && 0 <= k' < |l.emission| && Bonus(l, beta, j', k') <= Bonus(l, beta, j, k)
    ensures Bonus(l, beta, j', k') == Bonus(l, beta, j, k) ==> BestStepOf(l, beta, j', k')
  {
    hide Bonus, NoWorse;
    NoWorseScoresMore(l, beta, j, k, j', k');
    if Bonus(l, beta, j', k') == Bonus(l, beta, j, k) {
      forall a, b | Allowed(l, a, b)
        ensures NoWorse(l, beta, j', k', a, b)
      {
        NoWorseScoresMore(l, beta, j, k, a, b);
        NoWorseScoresMore(l, beta, j', k', a, b);
      }
    }
  }

  // No chain scores more than one that is best at everything, and one that scores as much is, too.
  lemma {:induction false} DominantScoresMost(g: Graph, rows: seq<seq<Candidate>>, gcs: seq<real>, sigma: real,
                                              t: Lattice, near: seq<int>, ch: seq<int>, n: nat)
    requires LatticeOf(g, rows, gcs, sigma, t, |rows|) && Dominates(rows, t, near) && WellShaped(t)
    requires 1 <= n <= |rows| == |t.layers| + 1 == |near| && |ch| == n && Chain(t, ch)
    ensures t.beta > 0.0 && Chain(t, near[..n]) && Score(t, ch) <= Score(t, near[..n])
    ensures Score(t, ch) == Score(t, near[..n]) ==> BestAtAll(rows, t, ch, n)
    decreases n
  {
    hide LatticeOf, Score, Chain, OwnScore, WellShaped, NearestIn, BestStepOf, Allowed, Bonus, Dominates;
    ChainBegins(t, ch);
    DominantAt(rows, t, near, n);
    if n == 1 {
      FirstStep(t, ch);
      NearestScoresMost(g, rows, gcs, sigma, t, 0, near[0], ch[0]);
      FirstStep(t, near[..1]);
      OwnScoreFirst(t, ch[0]);
      OwnScoreFirst(t, near[0]);
    } else {
      NextStep(t, ch);
      NextStep(t, near[..n]);
      assert near[..n][..n - 1] == near[..n - 1];
      DominantScoresMost(g, rows, gcs, sigma, t, near, ch[..n - 1], n - 1);
      NearestScoresMost(g, rows, gcs, sigma, t, n - 1, near[n - 1], ch[n - 1]);
      BestStepScoresMost(t.layers[n - 2], t.beta, near[n - 2], near[n - 1], ch[n - 2], ch[n - 1]);
      StepIs(t, n - 1, ch[n - 2], ch[n - 1]);
      StepIs(t, n - 1, near[n - 2], near[n - 1]);
      assert ch == ch[..n - 1] + [ch[n - 1]];
    }
  }

  lemma OwnScoreFirst(t: Lattice, k: int)
    requires 0 <= k < RowSize(t, 0)
    ensures OwnScore(t, 0, k) == t.first[k]
  {
  }

  lemma StepIs(t: Lattice, i: int, j: int, k: int)
    requires 0 < i <= |t.layers| && 0 <= k < RowSize(t, i) && t.beta > 0.0
    ensures StepScore(t.layers[i - 1], t.beta, j, k) == OwnScore(t, i, k) + Bonus(t.layers[i - 1], t.beta, j, k)
  {
    hide StepScore;
  }

  lemma {:induction false} DominantAt(rows: seq<seq<Candidate>>, t: Lattice, near: seq<int>, n: nat)
    requires Dominates(rows, t, near) && 1 <= n <= |near|
    ensures Chain(t, near[..n]) && NearestIn(rows[n - 1], near[n - 1]) && t.beta > 0.0
    ensures n > 1 ==> BestStepOf(t.layers[n - 2], t.beta, near[n - 2], near[n - 1])
    decreases |near| - n
  {
    hide NearestIn, BestStepOf, Chain;
    if n < |near| {
      DominantAt(rows, t, near, n + 1);
      NextStep(t, near[..n + 1]);
      assert near[..n + 1][..n] == near[..n];
    } else {
      assert near[..n] == near;
    }
  }

  // When some chain is best at everything, the best chain is, too: every one of its candidates is a
  // nearest one of its row, and none of its steps could be better.
  lemma BestIsDominant(g: Graph, rows: seq<seq<Candidate>>, gcs: seq<real>, sigma: real, t: Lattice, near: seq<int>,
                       chosen: seq<int>)
    requires LatticeOf(g, rows, gcs, sigma, t, |rows|) && Best(t, |rows|, chosen) && Dominates(rows, t, near)
    ensures BestAtAll(rows, t, chosen, |rows|)
  {
    hide LatticeOf, Chain, Score, NearestIn, BestStepOf, WellShaped;
    DominantScoresMost(g, rows, gcs, sigma, t, near, chosen, |rows|);
    assert near[..|rows|] == near;
  }

  // The steps of a row are alike when all lead along a connection and differ equally from the straight
  // line, or none does.
  ghost predicate Alike(l: Layer) {
    forall j, k, j', k' :: Allowed(l, j, k) && Allowed(l, j', k') ==>
      && (Connected(l, j, k) <==> Connected(l, j', k'))
      && (Connected(l, j, k) ==> Detour(l, j, k) == Detour(l, j', k'))
  }

  lemma AlikeIsBest(l: Layer, beta: real, j: int, k: int)
    requires Alike(l) && Allowed(l, j, k)
    ensures BestStepOf(l, beta, j, k)
  {
    hide Allowed, Detour;
  }

  // A chain of nearest candidates is allowed, and in each row all steps are alike.
  ghost predicate NearestWillDo(rows: seq<seq<Candidate>>, t: Lattice, near: seq<int>) {
    && WellShaped(t) && |near| == |rows| && Chain(t, near)
    && (forall i :: 0 <= i < |rows| ==> NearestIn(rows[i], near[i]))
    && (forall i :: 0 <= i < |t.layers| ==> Alike(t.layers[i]))
  }

  // Then every candidate of the best chain is a nearest one of its row.
  lemma NearestAreChosen(g: Graph, rows: seq<seq<Candidate>>, gcs: seq<real>, sigma: real, t: Lattice, near: seq<int>,
                         chosen: seq<int>)
    requires LatticeOf(g, rows, gcs, sigma, t, |rows|) && Best(t, |rows|, chosen) && NearestWillDo(rows, t, near)
    ensures |chosen| == |rows| && forall i :: 0 <= i < |rows| ==> NearestIn(rows[i], chosen[i])
  {
    LatticeSize(g, rows, gcs, sigma, t);
    hide LatticeOf, Chain, Score, NearestIn, WellShaped, Allowed, Alike, BestStepOf;
    forall i | 0 < i < |rows|
      ensures BestStepOf(t.layers[i - 1], t.beta, near[i - 1], near[i])
    {
      ChainStep(t, near, i);
      AlikeIsBest(t.layers[i - 1], t.beta, near[i - 1], near[i]);
    }
    BestIsDominant(g, rows, gcs, sigma, t, near, chosen);
  }

  lemma LatticeSize(g: Graph, rows: seq<seq<Candidate>>, gcs: seq<real>, sigma: real, t: Lattice)
    requires LatticeOf(g, rows, gcs, sigma, t, |rows|)
    ensures |rows| == |t.layers| + 1
  {
  }

  lemma {:induction false} ChainStep(t: Lattice, ch: seq<int>, i: int)
    requires WellShaped(t) && Chain(t, ch) && 0 < i < |ch| <= |t.layers| + 1
    ensures Allowed(t.layers[i - 1], ch[i - 1], ch[i])
    decreases |ch|
  {
    hide Chain, Allowed, WellShaped;
    NextStep(t, ch);
    if i < |ch| - 1 {
      ChainStep(t, ch[..|ch| - 1], i);
    }
  }

  // Scores and back links row by row, then the best chain read backwards.
  method Viterbi(g: Graph, rows: seq<seq<Candidate>>, gcs: seq<real>, sigma: real, beta: real,
                 ctxErr: (nat, nat, nat) -> bool)
      returns (cancelled: bool, chosen: seq<int>, ghost t: Lattice)
    requires Indexed(g) && NonNegative(g, DistanceCost(g.edges)) && sigma > 0.0 && beta > 0.0 && |rows| == |gcs| > 0
    requires forall i :: 0 <= i < |rows| ==> rows[i] != [] && OnNetwork(g, rows[i])
    ensures cancelled ==> exists i, j, n :: ctxErr(i, j, n)
    ensures !cancelled ==> LatticeOf(g, rows, gcs, sigma, t, |rows|) && t.beta == beta
    ensures !cancelled ==> Best(t, |rows|, chosen)
  {
    hide Indexed, NonNegative, OnNetwork, Filled, LayerOf, LatticeOf, Routed, Shaped, BestStep, Emission, Chain, Score,
      WellShaped;
    cancelled, chosen := false, [];
    var score, back := [seq(|rows[0]|, k requires 0 <= k < |rows[0]| => Emission(rows[0][k], sigma))],
      [seq(|rows[0]|, _ => -1)];
    t := Lattice(Emissions(rows[0], sigma), [], beta);
    assert score[0] == t.first;
    RowsStart(t.first, beta, back[0]);
    LatticeStart(g, rows, gcs, sigma, t);
    var i: nat := 1;
    while i < |rows|
      invariant 1 <= i <= |rows| && i == |t.layers| + 1 && t.beta == beta
      invariant Filled(t, score, back, i) && LatticeOf(g, rows, gcs, sigma, t, i)
    {
      LastRowSize(t, score, back, i);
      FirstSize(g, rows, gcs, sigma, t, i);
      var st := Stage(g, rows[i - 1], rows[i], gcs[i], sigma, beta, score[i - 1]);
      IsStage(st);
      var failed, s, b;
      ghost var l;
      var row := i;
      failed, s, b, l := FillRow(st, (j: nat, n: nat) => ctxErr(row, j, n));
      if failed {
        cancelled := true;
        return;
      }
      IsLayer(st, l);
      RowsNext(t, score, back, i, l, s[..], b[..]);
      LatticeNext(g, rows, gcs, sigma, t, i, l);
      score, back, t := score + [s[..]], back + [b[..]], Lattice(t.first, t.layers + [l], t.beta);
      i := i + 1;
    }
    var n := |rows|;
    LastRowSize(t, score, back, n);
    var last := Argmax(score[n - 1]);
    chosen := seq(n, _ => 0)[n - 1 := last];
    i := n - 1;
    while i > 0
      invariant 0 <= i <= n - 1 && |chosen| == n == |back| == |score| && chosen[n - 1] == last
      invariant 0 <= chosen[i] < RowSize(t, i)
      invariant forall m :: i < m < n ==> LinkHolds(back[m], chosen[m], chosen[m - 1])
    {
      StepBack(t, score, back, n, i, chosen[i]);
      chosen := chosen[i - 1 := back[i][chosen[i]] - 1];
      i := i - 1;
    }
    BestIsBest(t, score, back, n, score[n - 1], chosen);
  }

  lemma LatticeStart(g: Graph, rows: seq<seq<Candidate>>, gcs: seq<real>, sigma: real, t: Lattice)
    requires |rows| == |gcs| > 0 && sigma > 0.0 && t.first == Emissions(rows[0], sigma) && t.layers == []
    ensures LatticeOf(g, rows, gcs, sigma, t, 1)
  {
  }

  lemma FirstSize(g: Graph, rows: seq<seq<Candidate>>, gcs: seq<real>, sigma: real, t: Lattice, n: int)
    requires LatticeOf(g, rows, gcs, sigma, t, n)
    ensures |t.layers| == n - 1 && RowSize(t, n - 1) == |rows[n - 1]|
  {
    hide Routed, Emission;
    if n > 1 {
      assert LayerOf(g, rows[n - 1 - 1], rows[n - 1], gcs[n - 1], sigma, t.layers[n - 1 - 1]);
    }
  }

  lemma IsStage(st: Stage)
    requires Indexed(st.g) && NonNegative(st.g, DistanceCost(st.g.edges)) && OnNetwork(st.g, st.prevRow)
    requires OnNetwork(st.g, st.curRow)
    requires st.sigma > 0.0 && st.beta > 0.0 && |st.prev| == |st.prevRow| > 0
    ensures StageOk(st)
  {
    hide Indexed, NonNegative, OnNetwork;
  }

  lemma IsLayer(st: Stage, l: Layer)
    requires st.sigma > 0.0 && Routed(st.g, st.prevRow, st.curRow, l) && l.gc == st.gc
    requires l.emission == Emissions(st.curRow, st.sigma)
    requires |l.into| == |l.emission| && Shaped(l, |st.prev|)
    ensures LayerOf(st.g, st.prevRow, st.curRow, st.gc, st.sigma, l)
    ensures |l.emission| == |st.curRow| && forall k :: 0 <= k < |l.into| ==> |l.into[k]| == |st.prev|
  {
    hide Routed, Emission;
  }

  lemma BestIsBest(t: Lattice, score: seq<seq<real>>, back: seq<seq<int>>, n: nat, lastRow: seq<real>, chosen: seq<int>)
    requires Filled(t, score, back, n) && |score| == |back| == n == |chosen| == |t.layers| + 1
    requires n > 0 && Follows(back, chosen)
    requires lastRow == score[n - 1] && 0 <= chosen[n - 1] < |lastRow| == RowSize(t, n - 1)
    requires forall k :: 0 <= k < |lastRow| ==> lastRow[k] <= lastRow[chosen[n - 1]]
    ensures WellShaped(t) && Chain(t, chosen)
    ensures forall ch :: |ch| == n && Chain(t, ch) ==> Score(t, ch) <= Score(t, chosen)
  {
    FirstRow(t, score, back, n);
    hide Filled, Chain, Score, WellShaped, Follows;
    BackLinksAttain(t, score, back, n, chosen);
    forall ch | |ch| == n && Chain(t, ch)
      ensures Score(t, ch) <= Score(t, chosen)
    {
      TableIsUpperBound(t, score, back, n, ch);
    }
  }

  // A parameter that is not positive stands for its default.
  const DEFAULT_SIGMA_M := 15.0
  const DEFAULT_BETA_M := 30.0

  function OrDefault(v: real, default: real): (r: real)
    requires default > 0.0
    ensures r > 0.0 && (v > 0.0 ==> r == v) && (v <= 0.0 ==> r == default)
  {
    if v <= 0.0 then default else v
  }

  // The rows that are matched, and the great-circle distances between consecutive ones.
  ghost predicate RowsAt(cands: seq<seq<Candidate>>, idx: seq<int>, rows: seq<seq<Candidate>>) {
    |idx| == |rows| && forall i :: 0 <= i < |idx| ==> 0 <= idx[i] < |cands| && rows[i] == cands[idx[i]] != []
  }

  ghost predicate Distances(dist: (int, int) -> real, idx: seq<int>, gcs: seq<real>) {
    |idx| == |gcs| && forall i :: 0 < i < |idx| ==> gcs[i] == dist(idx[i - 1], idx[i])
  }

  function Gaps(dist: (int, int) -> real, idx: seq<int>): (gcs: seq<real>)
    ensures |gcs| == |idx| && Distances(dist, idx, gcs)
  {
    seq(|idx|, i requires 0 <= i < |idx| => if i == 0 then 0.0 else dist(idx[i - 1], idx[i]))
  }

  lemma RowsOnNetwork(g: Graph, cands: seq<seq<Candidate>>, idx: seq<int>, rows: seq<seq<Candidate>>)
    requires RowsAt(cands, idx, rows) && forall i :: 0 <= i < |cands| ==> OnNetwork(g, cands[i])
    ensures |idx| == |rows| && forall i :: 0 <= i < |rows| ==> rows[i] != [] && OnNetwork(g, rows[i])
  {
    hide OnNetwork;
  }

  // Trace points without candidates are dropped.
  method DropEmpty(cands: seq<seq<Candidate>>) returns (rows: seq<seq<Candidate>>, idx: seq<int>)
    ensures Usable(cands, |cands|, idx) && RowsAt(cands, idx, rows)
  {
    rows, idx := [], [];
    for i := 0 to |cands|
      invariant Usable(cands, i, idx) && RowsAt(cands, idx, rows)
    {
      if |cands[i]| == 0 {
        continue;
      }
      rows, idx := rows + [cands[i]], idx + [i];
    }
  }

  // Run, from the candidates of every trace point to the chosen chain. dist gives the great-circle
  // distance between two trace points.
  method Run(g: Graph, cands: seq<seq<Candidate>>, dist: (int, int) -> real, sigmaM: real, betaM: real,
             ctxErr: (nat, nat, nat) -> bool)
      returns (m: Match, ghost rows: seq<seq<Candidate>>, ghost gcs: seq<real>, ghost t: Lattice)
    requires Indexed(g) && NonNegative(g, DistanceCost(g.edges))
    requires forall i :: 0 <= i < |cands| ==> OnNetwork(g, cands[i])
    ensures m.Cancelled? ==> exists i, j, n :: ctxErr(i, j, n)
    ensures m.TooFew? ==> exists idx :: Usable(cands, |cands|, idx) && |idx| < 2
    ensures m.Chosen? ==>
      && Usable(cands, |cands|, m.pointIdx) && |m.pointIdx| >= 2
      && RowsAt(cands, m.pointIdx, rows) && Distances(dist, m.pointIdx, gcs)
      && LatticeOf(g, rows, gcs, if sigmaM > 0.0 then sigmaM else 15.0, t, |rows|)
      && t.beta == (if betaM > 0.0 then betaM else 30.0)
      && Best(t, |rows|, m.chosen)
    ensures m.Chosen? && (exists near :: Dominates(rows, t, near)) ==> BestAtAll(rows, t, m.chosen, |rows|)
    ensures m.Chosen? && (exists near :: NearestWillDo(rows, t, near)) ==>
      |m.chosen| == |rows| && forall i :: 0 <= i < |rows| ==> NearestIn(rows[i], m.chosen[i])
  {
    hide Indexed, NonNegative, OnNetwork, LatticeOf, Best, Usable, RowsAt, Distances, OrDefault, Dominates, BestAtAll,
      NearestWillDo, NearestIn;
    var sigma, beta := OrDefault(sigmaM, DEFAULT_SIGMA_M), OrDefault(betaM, DEFAULT_BETA_M);
    var states, pointIdx := DropEmpty(cands);
    rows, gcs, t := states, [], Lattice([], [], beta);
    if |states| < 2 {
      m := TooFew;
      return;
    }
    RowsOnNetwork(g, cands, pointIdx, states);
    var gc := Gaps(dist, pointIdx);
    gcs := gc;
    var cancelled, chosen;
    cancelled, chosen, t := Viterbi(g, states, gc, sigma, beta, ctxErr);
    if cancelled {
      m := Cancelled;
      return;
    }
    m := Chosen(pointIdx, chosen);
    if near :| Dominates(rows, t, near) {
      BestIsDominant(g, rows, gcs, sigma, t, near, chosen);
    }
    if near :| NearestWillDo(rows, t, near) {
      NearestAreChosen(g, rows, gcs, sigma, t, near, chosen);
    }
  }
}
