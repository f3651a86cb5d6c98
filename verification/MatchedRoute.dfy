/** Drawing the matched route: routeGeometry in internal/algo/routing/mapmatch.go, against the route
    distances of the lattice. */
module MatchedRoute {
  import opened Numbers
  import opened Paths
  import opened Search
  import opened MapMatch

  // Two candidates are joined by a straight line, or along the network: from an end of the first
  // edge over a path to the node where the second edge is entered.
  datatype Drawn = Interrupted | Straight | Along(entry: int, path: seq<int>, lengthM: real)

  // The path leads from an end of a's edge to an end of b's, and the length counts the way to the
  // one and from the other.
  ghost predicate DrawnRoute(g: Graph, a: Candidate, b: Candidate, r: Drawn)
    requires IsEdge(g, a.edge) && IsEdge(g, b.edge) && r.Along?
  {
    exists k, atEnd, total ::
      Route(g, a, b, k, r.path, atEnd, total) && r.entry == EntryNode(g, b, atEnd) &&
      r.lengthM == total + EntryOffset(g, b, atEnd)
  }

  // routeGeometry: a search without a bound, and a path read off its labels.
  method RouteGeometry(g: Graph, a: Candidate, b: Candidate, ctxErr: nat -> bool) returns (r: Drawn)
    requires Indexed(g) && NonNegative(g, DistanceCost(g.edges)) && IsEdge(g, a.edge) && IsEdge(g, b.edge)
    ensures r.Interrupted? ==> exists k :: ctxErr(k)
    ensures r.Straight? ==> a.edge == b.edge || RouteIs(g, 0.0, a, b, Inf)
    ensures r.Along? ==> a.edge != b.edge && RouteIs(g, 0.0, a, b, Fin(r.lengthM)) && DrawnRoute(g, a, b, r)
  {
    hide Indexed, NonNegative, LabelsOk, Tight, Least, SeedsOk, BoundedLabels, RouteIs, DrawnRoute, LabelPath;
    if a.edge == b.edge {
      return Straight;
    }
    ghost var seeds := ExitSeeds(g, a);
    EndsAreNodes(g, a, b);
    var res, x := DijkstraSeeded(g, ExitSeeds(g, a), DistanceCost(g.edges), 0.0, -1, ctxErr);
    if res == null {
      return Interrupted;
    }
    LabelsAreBounded(g, seeds, 0.0, res, x);
    FinalIsSized(g, seeds, res, x);
    var e := g.edges[b.edge];
    var entry, offset := e.from, b.frac * e.lengthM;
    if Nearer(Plus(res.Cost[e.to], (1.0 - b.frac) * e.lengthM), Plus(res.Cost[e.from], offset)) {
      entry, offset := e.to, (1.0 - b.frac) * e.lengthM;
    }
    EntryIsLeast(g, a, b, res.Cost[..], entry, offset);
    if res.Cost[entry].Inf? {
      return Straight;
    }
    var path, root := PathTo(g, DistanceCost(g.edges), seeds, 0.0, res, x, entry);
    r := Along(entry, path, res.Cost[entry].v + offset);
    EntryByEnd(g, a, b, entry, offset);
    PathIsDrawn(g, a, b, x, root, r);
  }

  lemma EntryByEnd(g: Graph, a: Candidate, b: Candidate, entry: int, offset: real)
    requires IsEdge(g, b.edge)
    requires (entry == g.edges[b.edge].from && offset == b.frac * g.edges[b.edge].lengthM) ||
             (entry == g.edges[b.edge].to && offset == (1.0 - b.frac) * g.edges[b.edge].lengthM)
    ensures exists atEnd :: entry == EntryNode(g, b, atEnd) && offset == EntryOffset(g, b, atEnd)
  {
    assert (entry == EntryNode(g, b, true) && offset == EntryOffset(g, b, true)) ||
           (entry == EntryNode(g, b, false) && offset == EntryOffset(g, b, false));
  }

  lemma FinalIsSized(g: Graph, seeds: seq<Seed>, res: SearchResult, x: Snapshot)
    requires Final(g, DistanceCost(g.edges), seeds, 0.0, res, x)
    ensures Sized(g, x.l) && res.Cost.Length == g.n
  {
  }

  predicate Nearer(x: Cost, y: Cost) {
    x.Fin? && (y.Inf? || x.v < y.v)
  }

  lemma EndsAreNodes(g: Graph, a: Candidate, b: Candidate)
    requires Indexed(g) && IsEdge(g, a.edge) && IsEdge(g, b.edge)
    ensures SeedsInGraph(g, ExitSeeds(g, a)) && IsNode(g, g.edges[b.edge].from) && IsNode(g, g.edges[b.edge].to)
  {
  }

  lemma EntryIsLeast(g: Graph, a: Candidate, b: Candidate, labels: seq<Cost>, entry: int, offset: real)
    requires Indexed(g) && IsEdge(g, a.edge) && IsEdge(g, b.edge) && a.edge != b.edge
    requires BoundedLabels(g, ExitSeeds(g, a), 0.0, labels) && |labels| == g.n
    requires
      var e := g.edges[b.edge];
      var byEnd := Nearer(Plus(labels[e.to], (1.0 - b.frac) * e.lengthM), Plus(labels[e.from], b.frac * e.lengthM));
      if byEnd then entry == e.to && offset == (1.0 - b.frac) * e.lengthM
      else entry == e.from && offset == b.frac * e.lengthM
    ensures IsNode(g, entry) && RouteIs(g, 0.0, a, b, Plus(labels[entry], offset))
  {
    hide BoundedLabel;
    assert Plus(labels[entry], offset) == EntryDistance(g, labels, b, a);
  }

  lemma PathIsDrawn(g: Graph, a: Candidate, b: Candidate, x: Snapshot, root: int, r: Drawn)
    requires IsEdge(g, a.edge) && IsEdge(g, b.edge) && r.Along? && Sized(g, x.l) && IsNode(g, r.entry)
    requires x.l.cost[r.entry].Fin?
    requires LabelPath(g, DistanceCost(g.edges), x.l, root, r.path, r.entry) && Tight(g, DistanceCost(g.edges), x.l)
    requires exists k :: 0 <= k < |ExitSeeds(g, a)| && ExitSeeds(g, a)[k] == Seed(root, x.l.cost[root].v)
    requires exists atEnd ::
               r.entry == EntryNode(g, b, atEnd) && r.lengthM == x.l.cost[r.entry].v + EntryOffset(g, b, atEnd)
    ensures DrawnRoute(g, a, b, r)
  {
    hide Tight, Walk, Length;
    var k :| 0 <= k < |ExitSeeds(g, a)| && ExitSeeds(g, a)[k] == Seed(root, x.l.cost[root].v);
    var total := x.l.cost[r.entry].v;
    var atEnd :| r.entry == EntryNode(g, b, atEnd) && r.lengthM == total + EntryOffset(g, b, atEnd);
    assert Route(g, a, b, k, r.path, atEnd, total);
  }

  // ----- against the distance of the lattice

  // The label is one that the bounded search gives, too: within the cutoff, or that of an end of a's
  // edge.
  predicate Seen(cutoff: real, seeds: seq<Seed>, v: int, y: Cost) {
    y.Fin? && (Within(cutoff, y.v) || Seed(v, y.v) in seeds)
  }

  // The way in over this end is a best one, and starts from such a label.
  predicate BestBy(g: Graph, cutoff: real, a: Candidate, b: Candidate, labels: seq<Cost>, u: Cost, atEnd: bool)
    requires IsEdge(g, a.edge) && IsEdge(g, b.edge)
  {
    var v := EntryNode(g, b, atEnd);
    && IsNode(g, v) && |labels| == g.n && Plus(labels[v], EntryOffset(g, b, atEnd)) == u
    && Seen(cutoff, ExitSeeds(g, a), v, labels[v])
  }

  // A bounded label is the true one exactly as far as the cutoff goes.
  lemma BoundedAgainstTrue(g: Graph, seeds: seq<Seed>, cutoff: real, v: int, x: Cost, y: Cost)
    requires BoundedLabel(g, DistanceCost(g.edges), seeds, cutoff, v, x)
    requires BoundedLabel(g, DistanceCost(g.edges), seeds, 0.0, v, y)
    ensures SeenSame(x, y, Seen(cutoff, seeds, v, y))
  {
    if x.Fin? {
      var k, p :| SeedWalk(g, DistanceCost(g.edges), seeds, k, p, v, x.v);
    }
    if y.Fin? && Within(cutoff, y.v) {
      var k, p :| SeedWalk(g, DistanceCost(g.edges), seeds, k, p, v, y.v);
    }
  }

  // The bounded label x is never less than the true one y, and is the same exactly where it is seen.
  predicate SeenSame(x: Cost, y: Cost, seen: bool) {
    (x.Fin? ==> AtMost(y, x.v)) && (seen ==> y.Fin?) && (y.Fin? ==> (x == y <==> seen))
  }

  // Two ways in, by their labels and what is added to them.
  lemma TwoEntries(x0: Cost, x1: Cost, y0: Cost, y1: Cost, o0: real, o1: real, seen0: bool, seen1: bool)
    requires SeenSame(x0, y0, seen0) && SeenSame(x1, y1, seen1)
    requires Smaller(Plus(x0, o0), Plus(x1, o1)).Fin?
    ensures
      var d, u := Smaller(Plus(x0, o0), Plus(x1, o1)), Smaller(Plus(y0, o0), Plus(y1, o1));
      && u.Fin? && u.v <= d.v
      && (u == d <==> (Plus(y0, o0) == u && seen0) || (Plus(y1, o1) == u && seen1))
  {
  }

  lemma EntryIs(g: Graph, labels: seq<Cost>, a: Candidate, b: Candidate)
    requires Indexed(g) && |labels| == g.n && IsEdge(g, b.edge) && a.edge != b.edge
    ensures
      var e := g.edges[b.edge];
      EntryDistance(g, labels, b, a) ==
      Smaller(Plus(labels[e.from], EntryOffset(g, b, false)), Plus(labels[e.to], EntryOffset(g, b, true)))
  {
  }

  // The drawn route is never longer than the lattice says, and exactly as long if and only if a best
  // way in is within the bound of the search that made the lattice.
  lemma DrawnAgainstLattice(g: Graph, cutoff: real, a: Candidate, b: Candidate, d: Cost, u: Cost, labels: seq<Cost>)
    requires Indexed(g) && IsEdge(g, a.edge) && IsEdge(g, b.edge) && a.edge != b.edge
    requires RouteIs(g, cutoff, a, b, d) && d.Fin?
    requires BoundedLabels(g, ExitSeeds(g, a), 0.0, labels) && u == EntryDistance(g, labels, b, a)
    ensures u.Fin? && u.v <= d.v
    ensures u == d <==> BestBy(g, cutoff, a, b, labels, u, false) || BestBy(g, cutoff, a, b, labels, u, true)
  {
    hide BoundedLabel, SeenSame, Seen, Plus, Smaller, EntryOffset, EntryDistance;
    var seeds, e := ExitSeeds(g, a), g.edges[b.edge];
    EndsAreNodes(g, a, b);
    var bounded: seq<Cost> :| BoundedLabels(g, seeds, cutoff, bounded) && d == EntryDistance(g, bounded, b, a);
    BoundedAgainstTrue(g, seeds, cutoff, e.from, bounded[e.from], labels[e.from]);
    BoundedAgainstTrue(g, seeds, cutoff, e.to, bounded[e.to], labels[e.to]);
    EntryIs(g, bounded, a, b);
    EntryIs(g, labels, a, b);
    TwoEntries(bounded[e.from], bounded[e.to], labels[e.from], labels[e.to],
               EntryOffset(g, b, false), EntryOffset(g, b, true),
               Seen(cutoff, seeds, e.from, labels[e.from]), Seen(cutoff, seeds, e.to, labels[e.to]));
  }

  // In particular when the distance of the lattice is itself within the bound.
  lemma DrawnAsTheLatticeSays(g: Graph, cutoff: real, a: Candidate, b: Candidate, d: Cost, u: Cost)
    requires NonNegative(g, DistanceCost(g.edges)) && IsEdge(g, a.edge) && IsEdge(g, b.edge) && a.edge != b.edge
    requires 0.0 <= b.frac <= 1.0
    requires RouteIs(g, cutoff, a, b, d) && d.Fin? && Within(cutoff, d.v) && RouteIs(g, 0.0, a, b, u)
    ensures u == d
  {
    hide BoundedLabel, EntryDistance;
    var labels: seq<Cost> :| BoundedLabels(g, ExitSeeds(g, a), 0.0, labels) && u == EntryDistance(g, labels, b, a);
    DrawnAgainstLattice(g, cutoff, a, b, d, u, labels);
    OffsetsNonNegative(g, b);
    EntryAttained(g, a, b, labels, u);
  }

  lemma OffsetsNonNegative(g: Graph, b: Candidate)
    requires NonNegative(g, DistanceCost(g.edges)) && IsEdge(g, b.edge) && 0.0 <= b.frac <= 1.0
    ensures EntryOffset(g, b, false) >= 0.0 && EntryOffset(g, b, true) >= 0.0
  {
    assert DistanceCost(g.edges)[b.edge] == g.edges[b.edge].lengthM;
  }

  lemma EntryAttained(g: Graph, a: Candidate, b: Candidate, labels: seq<Cost>, u: Cost)
    requires Indexed(g) && IsEdge(g, a.edge) && IsEdge(g, b.edge) && a.edge != b.edge && |labels| == g.n
    requires u == EntryDistance(g, labels, b, a) && u.Fin?
    ensures exists atEnd ::
              IsNode(g, EntryNode(g, b, atEnd)) && Plus(labels[EntryNode(g, b, atEnd)], EntryOffset(g, b, atEnd)) == u
  {
    var atEnd := Plus(labels[EntryNode(g, b, false)], EntryOffset(g, b, false)) != u;
    assert Plus(labels[EntryNode(g, b, atEnd)], EntryOffset(g, b, atEnd)) == u;
  }

  // ----- a drawn route that is shorter

  // From the first street two ways lead from its end to a third node; the second candidate lies near
  // the far end of the longer one.
  const TWO_WAYS := Graph(3, [Edge(0, 1, 10.0, 1.0, 0.0), Edge(1, 2, 2060.0, 1.0, 0.0), Edge(1, 2, 3000.0, 1.0, 0.0)],
                          [[0], [1, 2], []])
  const HERE := Candidate(0, 0.5, 0.0)
  const THERE := Candidate(2, 0.9, 0.0)

  // Distances that the seeds start with and that no edge shortens are no more than what walks cost.
  lemma {:induction false} WalkCostsAtLeast(least: seq<real>, k: int, p: seq<int>, t: int, total: real)
    requires |least| == 3 && least == [5.0, 5.0, 2065.0]
    requires SeedWalk(TWO_WAYS, DistanceCost(TWO_WAYS.edges), ExitSeeds(TWO_WAYS, HERE), k, p, t, total)
    ensures 0 <= t < 3 && least[t] <= total
    decreases |p|
  {
    if p != [] {
      var e := p[|p| - 1];
      WalkCostsAtLeast(least, k, p[..|p| - 1], TWO_WAYS.edges[e].from, total - DistanceCost(TWO_WAYS.edges)[e]);
    }
  }

  lemma WayAround()
    ensures SeedWalk(TWO_WAYS, DistanceCost(TWO_WAYS.edges), ExitSeeds(TWO_WAYS, HERE), 1, [1], 2, 2065.0)
    ensures SeedWalk(TWO_WAYS, DistanceCost(TWO_WAYS.edges), ExitSeeds(TWO_WAYS, HERE), 0, [], 0, 5.0)
    ensures SeedWalk(TWO_WAYS, DistanceCost(TWO_WAYS.edges), ExitSeeds(TWO_WAYS, HERE), 1, [], 1, 5.0)
  {
    assert [1][..0] == [];
  }

  lemma LabelsOfTwoWays(cutoff: real)
    requires cutoff <= 0.0 || 5.0 <= cutoff < 2065.0
    ensures BoundedLabels(TWO_WAYS, ExitSeeds(TWO_WAYS, HERE), cutoff,
                          [Fin(5.0), Fin(5.0), if cutoff <= 0.0 then Fin(2065.0) else Inf])
  {
    var seeds, cost := ExitSeeds(TWO_WAYS, HERE), DistanceCost(TWO_WAYS.edges);
    var labels := [Fin(5.0), Fin(5.0), if cutoff <= 0.0 then Fin(2065.0) else Inf];
    WayAround();
    forall v | IsNode(TWO_WAYS, v)
      ensures BoundedLabel(TWO_WAYS, cost, seeds, cutoff, v, labels[v])
    {
      forall k, p, total | SeedWalk(TWO_WAYS, cost, seeds, k, p, v, total) && Within(cutoff, total)
        ensures AtMost(labels[v], total)
      {
        WalkCostsAtLeast([5.0, 5.0, 2065.0], k, p, v, total);
      }
      assert seeds[0] == Seed(0, 5.0) && seeds[1] == Seed(1, 5.0);
    }
  }

  // One metre apart as the crow flies: the bound of the search is 2010 metres, the way around takes
  // 2065 to the far end. The lattice counts 2705 metres, the route that is drawn has 2365.
  lemma DrawnShorterExample()
    ensures Indexed(TWO_WAYS)
    ensures RouteIs(TWO_WAYS, Cutoff(1.0), HERE, THERE, Fin(2705.0))
    ensures RouteIs(TWO_WAYS, 0.0, HERE, THERE, Fin(2365.0))
  {
    hide BoundedLabel;
    assert TWO_WAYS.adj[0] == [0] && TWO_WAYS.adj[1] == [1, 2] && TWO_WAYS.adj[2] == [];
    LabelsOfTwoWays(Cutoff(1.0));
    LabelsOfTwoWays(0.0);
    assert EntryDistance(TWO_WAYS, [Fin(5.0), Fin(5.0), Inf], THERE, HERE) == Fin(2705.0);
    assert EntryDistance(TWO_WAYS, [Fin(5.0), Fin(5.0), Fin(2065.0)], THERE, HERE) == Fin(2365.0);
  }
}
