/** Routable graphs and the walks in them: the types of internal/algo/network/graph.go and
    internal/algo/network/search.go, and the meaning of a shortest path. */
module Paths {

  // A directed segment. DurationS > 0 is a fixed traversal time.
  datatype Edge = Edge(from: int, to: int, lengthM: real, speedMS: real, durationS: real)

  // A graph over the nodes 0 .. n-1; adj lists the outgoing edges of each node.
  datatype Graph = Graph(n: nat, edges: seq<Edge>, adj: seq<seq<int>>)

  predicate IsEdge(g: Graph, e: int) {
    0 <= e < |g.edges|
  }

  predicate IsNode(g: Graph, v: int) {
    0 <= v < g.n
  }

  // What buildIndexes establishes: adj[u] lists exactly the edges that leave u, each once.
  ghost predicate Indexed(g: Graph) {
    && |g.adj| == g.n
    && (forall e :: IsEdge(g, e) ==> IsNode(g, g.edges[e].from) && IsNode(g, g.edges[e].to))
    && (forall u, e :: IsNode(g, u) ==> (e in g.adj[u] <==> IsEdge(g, e) && g.edges[e].from == u))
    && (forall u, i, j :: IsNode(g, u) && 0 <= i < j < |g.adj[u]| ==> g.adj[u][i] != g.adj[u][j])
  }

  lemma OutEdge(g: Graph, u: int, i: int)
    requires Indexed(g) && IsNode(g, u) && 0 <= i < |g.adj[u]|
    ensures var e := g.adj[u][i]; IsEdge(g, e) && g.edges[e].from == u && IsNode(g, g.edges[e].to)
  {
    assert g.adj[u][i] in g.adj[u];
  }

  // The cost of every edge, as the cost function prices it.
  ghost predicate NonNegative(g: Graph, cost: seq<real>) {
    |cost| == |g.edges| && forall e :: IsEdge(g, e) ==> cost[e] >= 0.0
  }

  // Edges priced by their length.
  function DistanceCost(edges: seq<Edge>): (cost: seq<real>)
    ensures |cost| == |edges| && forall i :: 0 <= i < |cost| ==> cost[i] == edges[i].lengthM
  {
    seq(|edges|, i requires 0 <= i < |edges| => edges[i].lengthM)
  }

  // The edges of p lead from s to t, each starting where the one before it ends.
  ghost predicate Walk(g: Graph, s: int, p: seq<int>, t: int) {
    if p == [] then s == t
    else
      var e := p[|p| - 1];
      IsEdge(g, e) && g.edges[e].to == t && Walk(g, s, p[..|p| - 1], g.edges[e].from)
  }

  ghost function Length(g: Graph, cost: seq<real>, p: seq<int>): real
    requires |cost| == |g.edges|
  {
    if p == [] then 0.0
    else
      var e := p[|p| - 1];
      Length(g, cost, p[..|p| - 1]) + (if IsEdge(g, e) then cost[e] else 0.0)
  }

  // A start node with an initial cost.
  datatype Seed = Seed(node: int, cost: real)

  // A walk from the k-th seed to t, whose cost includes the seed's.
  ghost predicate SeedWalk(g: Graph, cost: seq<real>, seeds: seq<Seed>, k: int, p: seq<int>, t: int, total: real) {
    && |cost| == |g.edges| && 0 <= k < |seeds|
    && Walk(g, seeds[k].node, p, t)
    && total == seeds[k].cost + Length(g, cost, p)
  }

  // One more edge at the end of a walk.
  lemma WalkOn(g: Graph, cost: seq<real>, seeds: seq<Seed>, k: int, p: seq<int>, e: int, total: real)
    requires IsEdge(g, e) && SeedWalk(g, cost, seeds, k, p, g.edges[e].from, total)
    ensures SeedWalk(g, cost, seeds, k, p + [e], g.edges[e].to, total + cost[e])
  {
    assert (p + [e])[..|p|] == p;
  }

  // A bound of zero or less is no bound.
  predicate Within(cutoff: real, c: real) {
    cutoff <= 0.0 || c <= cutoff
  }

  // A label: the cost found so far, or +Inf for a node not reached.
  datatype Cost = Inf | Fin(v: real)

  predicate AtMost(x: Cost, c: real) {
    x.Fin? && x.v <= c
  }

  // The label of t is the cost of some walk to it.
  ghost predicate Sound(g: Graph, cost: seq<real>, seeds: seq<Seed>, t: int, x: Cost) {
    x.Fin? ==> exists k, p :: SeedWalk(g, cost, seeds, k, p, t, x.v)
  }

  // No walk within the bound is cheaper than the label of t.
  ghost predicate Least(g: Graph, cost: seq<real>, seeds: seq<Seed>, cutoff: real, t: int, x: Cost) {
    forall k, p, total :: SeedWalk(g, cost, seeds, k, p, t, total) && Within(cutoff, total) ==> AtMost(x, total)
  }

  // Two searches that both find the least cost find the same cost.
  lemma LeastIsUnique(g: Graph, cost: seq<real>, seeds: seq<Seed>, t: int, x: Cost, y: Cost)
    requires Sound(g, cost, seeds, t, x) && Least(g, cost, seeds, 0.0, t, x)
    requires Sound(g, cost, seeds, t, y) && Least(g, cost, seeds, 0.0, t, y)
    ensures x == y
  {
    if x.Fin? {
      var k, p :| SeedWalk(g, cost, seeds, k, p, t, x.v);
    }
    if y.Fin? {
      var k, p :| SeedWalk(g, cost, seeds, k, p, t, y.v);
    }
  }

  // One search up to a cutoff answers every smaller budget: the nodes whose label is within the
  // budget are exactly those a walk within the budget reaches.
  lemma ReachedWithin(g: Graph, cost: seq<real>, seeds: seq<Seed>, cutoff: real, budget: real, t: int, x: Cost)
    requires Sound(g, cost, seeds, t, x) && Least(g, cost, seeds, cutoff, t, x)
    requires 0.0 < budget <= cutoff
    ensures AtMost(x, budget) <==> exists k, p, total :: SeedWalk(g, cost, seeds, k, p, t, total) && total <= budget
  {
    if AtMost(x, budget) {
      var k, p :| SeedWalk(g, cost, seeds, k, p, t, x.v);
      assert x.v <= budget;
    }
  }
}
