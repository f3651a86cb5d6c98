/** The shortest path from the features on: Run in internal/algo/routing/shortestpath.go, over a
    network that the builder made. */
module ShortestPath {
  import opened Numbers
  import opened Paths
  import opened Search
  import opened Builder

  datatype Answer =
    | Interrupted
    | NotConnected
    | Route(path: seq<int>, stops: seq<int>, lengthM: real, timeS: real)

  // The network and its graph, as the builder leaves them.
  ghost predicate OnNetwork(net: Net, g: Graph) {
    Good(net) && net.edges != [] && g == GraphOf(net, g.adj) && Indexed(g)
  }

  lemma NetworkSizes(net: Net, g: Graph)
    requires OnNetwork(net, g)
    ensures Indexed(g) && g.n == |net.nodes| && g.edges == net.edges && net.maxSpeedMS > 0.0
    ensures forall i :: 0 <= i < |net.edges| ==> net.edges[i].speedMS > 0.0
    ensures NonNegative(g, TimeCost(net)) && NonNegative(g, DistanceCost(net.edges))
  {
    assert EdgeOk(net, net.edges[0]);
    CostsNonNegative(net, g.adj);
  }

  function CostOf(net: Net, timeBased: bool): (cost: seq<real>)
    requires forall i :: 0 <= i < |net.edges| ==> net.edges[i].speedMS > 0.0
    ensures |cost| == |net.edges|
  {
    if timeBased then TimeCost(net) else DistanceCost(net.edges)
  }

  // What makes the straight line an estimate: no edge is shorter than the distance of its nodes,
  // and for routes by time no fixed duration is too short.
  ghost predicate Honest(dist: Distance, net: Net, timeBased: bool) {
    Covers(dist, net) && (timeBased ==> DurationsHonest(net))
  }

  lemma HonestIsConsistent(dist: Distance, net: Net, g: Graph, to: int, timeBased: bool)
    requires Metric(dist) && OnNetwork(net, g) && Honest(dist, net, timeBased) && IsNode(g, to)
    ensures g.n == |net.nodes| && net.maxSpeedMS > 0.0
    ensures forall i :: 0 <= i < |net.edges| ==> net.edges[i].speedMS > 0.0
    ensures Consistent(g, CostOf(net, timeBased), Heuristic(dist, net, to, if timeBased then net.maxSpeedMS else 1.0))
  {
    hide Metric, Covers, DurationsHonest, Good, Fair, Indexed, Consistent;
    NetworkSizes(net, g);
    if timeBased {
      HonestIsFair(dist, net);
      ConsistentIff(dist, net, g.adj, TimeCost(net), net.maxSpeedMS);
    } else {
      DistanceConsistentIff(dist, net, g.adj);
    }
  }

  ghost predicate Connected(g: Graph, s: int, t: int) {
    exists p :: Walk(g, s, p, t)
  }

  // No walk between the two nodes costs less.
  ghost predicate Shortest(g: Graph, cost: seq<real>, s: int, path: seq<int>, t: int) {
    |cost| == |g.edges| && forall p :: Walk(g, s, p, t) ==> Length(g, cost, path) <= Length(g, cost, p)
  }

  // The nodes a walk visits.
  function Stops(g: Graph, s: int, path: seq<int>): (r: seq<int>) {
    if path == [] then [s]
    else
      var e := path[|path| - 1];
      Stops(g, s, path[..|path| - 1]) + [if IsEdge(g, e) then g.edges[e].to else s]
  }

  // The stops lead from s to t, from each to the next by the edge of the path between them.
  ghost predicate Visits(g: Graph, s: int, path: seq<int>, t: int, stops: seq<int>) {
    && |stops| == |path| + 1 && stops[0] == s && stops[|path|] == t
    && forall i :: 0 <= i < |path| ==>
         IsEdge(g, path[i]) && g.edges[path[i]].from == stops[i] && g.edges[path[i]].to == stops[i + 1]
  }

  lemma {:induction false} StopsAlongWalk(g: Graph, s: int, path: seq<int>, t: int)
    requires Walk(g, s, path, t)
    ensures Visits(g, s, path, t, Stops(g, s, path))
    decreases |path|
  {
    if path != [] {
      var n := |path| - 1;
      StopsAlongWalk(g, s, path[..n], g.edges[path[n]].from);
      var front, all := Stops(g, s, path[..n]), Stops(g, s, path);
      assert all == front + [t];
      forall i | 0 <= i < |path|
        ensures IsEdge(g, path[i]) && g.edges[path[i]].from == all[i] && g.edges[path[i]].to == all[i + 1]
      {
        if i < n {
          assert path[..n][i] == path[i];
        }
      }
    }
  }

  // Any other search that finds sound and least labels finds the same cost at the goal.
  ghost predicate AgreesWithAll(g: Graph, cost: seq<real>, s: int, t: int, total: real) {
    forall c :: Sound(g, cost, [Seed(s, 0.0)], t, c) && Least(g, cost, [Seed(s, 0.0)], 0.0, t, c) ==> c == Fin(total)
  }

  lemma WalkHasEdges(g: Graph, s: int, path: seq<int>, t: int, i: nat)
    requires Walk(g, s, path, t) && i < |path|
    ensures IsEdge(g, path[i])
  {
    if i < |path| - 1 {
      WalkHasEdges(g, s, path[..|path| - 1], g.edges[path[|path| - 1]].from, i);
    }
  }

  // What the path that is read off the labels says: none for two nodes exactly when they are not
  // connected, otherwise a walk from one to the other that costs no more than the label.
  lemma PathMeans(g: Graph, cost: seq<real>, src: int, dst: int, x: Snapshot, root: int, path: seq<int>)
    requires Sized(g, x.l) && |cost| == |g.edges| && IsNode(g, src) && IsNode(g, dst)
    requires Reaches(g, src, dst, x.l.cost[dst])
    requires x.l.cost[dst].Inf? ==> path == []
    requires x.l.cost[dst].Fin? ==>
      && LabelPath(g, cost, x.l, root, path, dst)
      && exists k :: 0 <= k < 1 && [Seed(src, 0.0)][k] == Seed(root, x.l.cost[root].v)
    ensures path == [] && src != dst ==> !Connected(g, src, dst)
    ensures path != [] || src == dst ==>
      Walk(g, src, path, dst) && x.l.cost[dst].Fin? && Length(g, cost, path) <= x.l.cost[dst].v
  {
    assert src == dst ==> Walk(g, src, [], dst);
  }

  lemma LabelIsSound(g: Graph, cost: seq<real>, src: int, dst: int, res: SearchResult, x: Snapshot)
    requires Final(g, cost, [Seed(src, 0.0)], 0.0, res, x) && IsNode(g, dst)
    ensures Sized(g, x.l) && Sound(g, cost, [Seed(src, 0.0)], dst, x.l.cost[dst])
  {
  }

  lemma PathIsShortest(g: Graph, cost: seq<real>, h: seq<real>, src: int, dst: int, x: Snapshot, path: seq<int>)
    requires Sized(g, x.l) && |cost| == |g.edges| && IsNode(g, src) && IsNode(g, dst)
    requires Consistent(g, cost, h) && Found(g, cost, h, [Seed(src, 0.0)], dst, x)
    requires Sound(g, cost, [Seed(src, 0.0)], dst, x.l.cost[dst])
    requires Walk(g, src, path, dst) && x.l.cost[dst].Fin? && Length(g, cost, path) <= x.l.cost[dst].v
    ensures Shortest(g, cost, src, path, dst) && AgreesWithAll(g, cost, src, dst, Length(g, cost, path))
  {
    hide Sound, Tight;
    var seeds := [Seed(src, 0.0)];
    forall p | Walk(g, src, p, dst)
      ensures x.l.cost[dst].v <= Length(g, cost, p)
    {
      assert SeedWalk(g, cost, seeds, 0, p, dst, Length(g, cost, p));
    }
    forall c | Sound(g, cost, seeds, dst, c) && Least(g, cost, seeds, 0.0, dst, c)
      ensures c == Fin(Length(g, cost, path))
    {
      LeastIsUnique(g, cost, seeds, dst, c, x.l.cost[dst]);
    }
  }

  // Run, after its endpoints have been snapped to nodes. It answers that they are not connected
  // exactly when they are not, and otherwise a route with its length and time; when the network is
  // honest no route costs less, and Dijkstra's search finds the same cost.
  method Run(dist: Distance, net: Net, g: Graph, src: int, dst: int, timeBased: bool, ctxErr: nat -> bool)
      returns (r: Answer)
    requires Metric(dist) && OnNetwork(net, g) && IsNode(g, src) && IsNode(g, dst)
    ensures r.Interrupted? ==> exists k :: ctxErr(k)
    ensures r.NotConnected? ==> !Connected(g, src, dst)
    ensures r.Route? ==>
      && Walk(g, src, r.path, dst) && Visits(g, src, r.path, dst, r.stops)
      && |net.edges| == |g.edges|
      && r.lengthM == Length(g, DistanceCost(net.edges), r.path) && r.timeS == Length(g, TimeCost(net), r.path)
    ensures r.Route? && Honest(dist, net, timeBased) ==>
      && Shortest(g, CostOf(net, timeBased), src, r.path, dst)
      && AgreesWithAll(g, CostOf(net, timeBased), src, dst, if timeBased then r.timeS else r.lengthM)
  {
    hide Metric, OnNetwork, Honest, Good, Indexed, NonNegative, Consistent, Final, Found, LabelsOk, LabelPath, Reaches,
      Shortest, AgreesWithAll, Connected, Walk, Visits;
    NetworkSizes(net, g);
    var cost := CostOf(net, timeBased);
    var h := Heuristic(dist, net, dst, if timeBased then net.maxSpeedMS else 1.0);
    var res, x := AStar(g, src, dst, cost, h, ctxErr);
    if res == null {
      return Interrupted;
    }
    LabelIsSound(g, cost, src, dst, res, x);
    var path, root := PathTo(g, cost, [Seed(src, 0.0)], 0.0, res, x, dst);
    PathMeans(g, cost, src, dst, x, root, path);
    if path == [] && src != dst {
      return NotConnected;
    }
    var stops, lengthM, timeS := [src], 0.0, 0.0;
    for i := 0 to |path|
      invariant stops == Stops(g, src, path[..i])
      invariant lengthM == Length(g, DistanceCost(net.edges), path[..i]) && timeS == Length(g, TimeCost(net), path[..i])
    {
      WalkHasEdges(g, src, path, dst, i);
      assert path[..i + 1][..i] == path[..i] && path[..i + 1][i] == path[i];
      var e := g.edges[path[i]];
      stops := stops + [e.to];
      lengthM := lengthM + e.lengthM;
      timeS := timeS + TravelSeconds(e);
    }
    assert path[..|path|] == path;
    StopsAlongWalk(g, src, path, dst);
    r := Route(path, stops, lengthM, timeS);
    if Honest(dist, net, timeBased) {
      HonestIsConsistent(dist, net, g, dst, timeBased);
      PathIsShortest(g, cost, h, src, dst, x, path);
    }
  }

  // From the features to the route: when no two points of the features snap together, every route
  // by distance is shortest, and every route by time is when no fixed duration is too short.
  method RouteOver(dist: Distance, feats: seq<Feature>, ghost points: set<Point>, src: int, dst: int, timeBased: bool,
                   buildErr: nat -> bool, ctxErr: nat -> bool) returns (b: Built, r: Answer)
    requires Metric(dist) && forall i :: 0 <= i < |feats| && !feats[i].Other? ==> feats[i].speedMS > 0.0
    requires Separate(points) && forall i :: 0 <= i < |feats| ==> FeatureOk(points, feats[i])
    ensures b.Built? ==> b.net == AddFeatures(dist, feats, |feats|) && OnNetwork(b.net, b.g)
    ensures b.Built? ==> AllIsThere(dist, feats, b.net) && NothingElse(dist, feats, b.net)
    ensures b.Built? && IsNode(b.g, src) && IsNode(b.g, dst) ==>
      && (r.Interrupted? ==> exists k :: ctxErr(k))
      && (r.NotConnected? ==> !Connected(b.g, src, dst))
      && (r.Route? ==> Walk(b.g, src, r.path, dst) && Visits(b.g, src, r.path, dst, r.stops))
      && (r.Route? && (timeBased ==> DurationsHonest(b.net)) ==>
            BestRoute(b.net, b.g, src, dst, timeBased, r))
  {
    hide Metric, Separate, FeatureOk, Exact, Good, Indexed, Walk, Visits, Connected, DurationsHonest, Shortest,
      AgreesWithAll, AllIsThere, NothingElse, ServesAll, Links;
    b := Build(dist, feats, buildErr);
    r := Interrupted;
    if b.Built? && IsNode(b.g, src) && IsNode(b.g, dst) {
      ExactCovers(dist, points, b.net);
      NetworkSizes(b.net, b.g);
      r := Run(dist, b.net, b.g, src, dst, timeBased, ctxErr);
    }
  }

  lemma ExactCovers(dist: Distance, points: set<Point>, net: Net)
    requires Exact(dist, points, net)
    ensures Covers(dist, net)
  {
  }

  // The route is shortest by its cost, which is the cost every other exact search finds.
  ghost predicate BestRoute(net: Net, g: Graph, src: int, dst: int, timeBased: bool, r: Answer)
    requires r.Route?
  {
    && (forall i :: 0 <= i < |net.edges| ==> net.edges[i].speedMS > 0.0)
    && Shortest(g, CostOf(net, timeBased), src, r.path, dst)
    && AgreesWithAll(g, CostOf(net, timeBased), src, dst, if timeBased then r.timeS else r.lengthM)
  }

  // ----- networks without one-way features

  predicate TwoWay(f: Feature) {
    f.Other? || !f.oneway
  }

  // Edge b leads back over edge a.
  predicate LeadsBack(g: Graph, a: int, b: int) {
    IsEdge(g, a) && IsEdge(g, b) && g.edges[b] == g.edges[a].(from := g.edges[a].to, to := g.edges[a].from)
  }

  lemma BackIsThere(dist: Distance, feats: seq<Feature>, net: Net, k: Link)
    requires AllIsThere(dist, feats, net) && AskedFor(dist, feats, k)
    requires forall i :: 0 <= i < |feats| ==> TwoWay(feats[i])
    ensures Served(net, k.Reversed())
  {
    hide LineIsThere, AsksFor, Served;
    var i, j :| 0 <= i < |feats| && !feats[i].Other? && 0 <= j < |feats[i].lines| &&
                AsksFor(dist, feats[i], feats[i].lines[j], k);
    assert TwoWay(feats[i]);
    AsksForBack(dist, feats[i], feats[i].lines[j], k);
    LineServes(dist, net, feats[i], feats[i].lines[j], k.Reversed());
  }

  lemma AsksForBack(dist: Distance, f: Feature, ln: seq<Point>, k: Link)
    requires !f.Other? && !f.oneway && AsksFor(dist, f, ln, k)
    ensures AsksFor(dist, f, ln, k.Reversed())
  {
    hide KeyOf, WayLength;
    if f.Street? {
      var n :| 0 < n < |ln| && StretchAsksFor(dist, ln[n - 1], ln[n], f.level, f.oneway, k);
      assert StretchAsksFor(dist, ln[n - 1], ln[n], f.level, f.oneway, k.Reversed());
    }
  }

  // Without one-way features there is an edge back for every edge, of the same length and speed.
  lemma EveryEdgeLeadsBack(dist: Distance, feats: seq<Feature>, net: Net, g: Graph, a: int) returns (b: int)
    requires OnNetwork(net, g) && AllIsThere(dist, feats, net) && NothingElse(dist, feats, net)
    requires (forall i :: 0 <= i < |feats| ==> TwoWay(feats[i])) && IsEdge(g, a)
    ensures LeadsBack(g, a, b)
  {
    hide AllIsThere, AskedFor, KeyOf, Indexed;
    assert g.edges == net.edges && 0 <= a < |net.edges|;
    var k :| AskedFor(dist, feats, k) && Serves(net, net.edges[a], k);
    BackIsThere(dist, feats, net, k);
    b :| 0 <= b < |net.edges| && Serves(net, net.edges[b], k.Reversed());
    assert EdgeOk(net, net.edges[a]) && EdgeOk(net, net.edges[b]);
  }

  lemma {:induction false} BeforeWalk(g: Graph, cost: seq<real>, e: int, p: seq<int>, t: int)
    requires |cost| == |g.edges| && IsEdge(g, e) && Walk(g, g.edges[e].to, p, t)
    ensures Walk(g, g.edges[e].from, [e] + p, t) && Length(g, cost, [e] + p) == cost[e] + Length(g, cost, p)
    decreases |p|
  {
    var n := |p| - 1;
    if p == [] {
      assert [e] + p == [e] && [e][..0] == [];
    } else {
      BeforeWalk(g, cost, e, p[..n], g.edges[p[n]].from);
      assert ([e] + p)[..n + 1] == [e] + p[..n];
    }
  }

  // So every walk can be walked back, for the same time and over the same distance.
  lemma {:induction false} WalkBack(dist: Distance, feats: seq<Feature>, net: Net, g: Graph, s: int, p: seq<int>,
                                    t: int, timeBased: bool) returns (q: seq<int>)
    requires OnNetwork(net, g) && AllIsThere(dist, feats, net) && NothingElse(dist, feats, net)
    requires (forall i :: 0 <= i < |feats| ==> TwoWay(feats[i])) && Walk(g, s, p, t)
    ensures |net.edges| == |g.edges| && forall i :: 0 <= i < |net.edges| ==> net.edges[i].speedMS > 0.0
    ensures Walk(g, t, q, s)
    ensures Length(g, CostOf(net, timeBased), q) == Length(g, CostOf(net, timeBased), p)
    decreases |p|
  {
    hide OnNetwork, AllIsThere, NothingElse, Indexed;
    NetworkSizes(net, g);
    q := [];
    if p != [] {
      var n := |p| - 1;
      var e := p[n];
      var front := WalkBack(dist, feats, net, g, s, p[..n], g.edges[e].from, timeBased);
      var back := EveryEdgeLeadsBack(dist, feats, net, g, e);
      BeforeWalk(g, CostOf(net, timeBased), back, front, s);
      q := [back] + front;
    }
  }

  lemma ConnectedBothWays(dist: Distance, feats: seq<Feature>, net: Net, g: Graph, s: int, t: int)
    requires OnNetwork(net, g) && AllIsThere(dist, feats, net) && NothingElse(dist, feats, net)
    requires forall i :: 0 <= i < |feats| ==> TwoWay(feats[i])
    ensures Connected(g, s, t) <==> Connected(g, t, s)
  {
    hide OnNetwork, AllIsThere, NothingElse, Walk;
    if Connected(g, s, t) {
      var p :| Walk(g, s, p, t);
      var _ := WalkBack(dist, feats, net, g, s, p, t, false);
    }
    if Connected(g, t, s) {
      var p :| Walk(g, t, p, s);
      var _ := WalkBack(dist, feats, net, g, t, p, s, false);
    }
  }

  // The way back costs what the way there does.
  lemma BackIsAsShort(dist: Distance, feats: seq<Feature>, net: Net, g: Graph, s: int, p: seq<int>, q: seq<int>, t: int,
                      timeBased: bool)
    requires OnNetwork(net, g) && AllIsThere(dist, feats, net) && NothingElse(dist, feats, net)
    requires (forall i :: 0 <= i < |feats| ==> TwoWay(feats[i])) && Walk(g, s, p, t) && Walk(g, t, q, s)
    requires forall i :: 0 <= i < |net.edges| ==> net.edges[i].speedMS > 0.0
    requires Shortest(g, CostOf(net, timeBased), s, p, t) && Shortest(g, CostOf(net, timeBased), t, q, s)
    ensures Length(g, CostOf(net, timeBased), p) == Length(g, CostOf(net, timeBased), q)
  {
    hide OnNetwork, AllIsThere, NothingElse, Walk;
    var p' := WalkBack(dist, feats, net, g, s, p, t, timeBased);
    var q' := WalkBack(dist, feats, net, g, t, q, s, timeBased);
  }

  // ----- a route that is not the cheapest

  // A street from the first node to the third, and two connectors by way of a distant node that take
  // next to no time.
  function DetourNet(): Net {
    var s, far, t := Point(0.0, 0.0), Point(10.0, 0.0), Point(1.0, 0.0);
    var up := AddConnector(Manhattan, EMPTY, [s, far], 0, 1, 1.0, 0.1, true);
    var down := AddConnector(Manhattan, up, [far, t], 1, 0, 1.0, 0.1, true);
    AddSegment(Manhattan, down, s, t, 0, 1.0, 0.0, true)
  }

  const DETOUR := Graph(3, [Edge(0, 1, 10.0, 1.0, 0.1), Edge(1, 2, 9.0, 1.0, 0.1), Edge(0, 2, 1.0, 1.0, 0.0)],
                        [[0, 2], [1], []])

  lemma DetourKeys()
    ensures KeyOf(Point(0.0, 0.0), 0) == Key(0, 0, 0) && KeyOf(Point(10.0, 0.0), 1) == Key(10000000, 0, 1)
    ensures KeyOf(Point(1.0, 0.0), 0) == Key(1000000, 0, 0)
  {
  }

  lemma TwoPointLine(p: Point, q: Point)
    ensures LineLength(Manhattan, [p, q], 1) == Manhattan(p, q)
  {
    assert LineLength(Manhattan, [p, q], 0) == 0.0;
  }

  lemma DetourIs()
    ensures GraphOf(DetourNet(), DETOUR.adj) == DETOUR && DetourNet().maxSpeedMS == 1.0
    ensures DetourNet().nodes == [Node(Point(0.0, 0.0), 0), Node(Point(10.0, 0.0), 1), Node(Point(1.0, 0.0), 0)]
  {
    hide KeyOf;
    DetourKeys();
    var s, far, t := Point(0.0, 0.0), Point(10.0, 0.0), Point(1.0, 0.0);
    TwoPointLine(s, far);
    TwoPointLine(far, t);
    var up := AddConnector(Manhattan, EMPTY, [s, far], 0, 1, 1.0, 0.1, true);
    assert up == Net([Node(s, 0), Node(far, 1)], [Edge(0, 1, 10.0, 1.0, 0.1)],
                     map[Key(0, 0, 0) := 0, Key(10000000, 0, 1) := 1], 1.0);
    var down := AddConnector(Manhattan, up, [far, t], 1, 0, 1.0, 0.1, true);
    assert down.nodes == [Node(s, 0), Node(far, 1), Node(t, 0)];
    assert down.edges == [Edge(0, 1, 10.0, 1.0, 0.1), Edge(1, 2, 9.0, 1.0, 0.1)];
  }

  // The estimates for the third node, and the costs by time.
  lemma DetourCosts(net: Net)
    requires net == DetourNet()
    ensures |net.nodes| == 3 && net.maxSpeedMS == 1.0 && forall i :: 0 <= i < |net.edges| ==> net.edges[i].speedMS > 0.0
    ensures Heuristic(Manhattan, net, 2, net.maxSpeedMS) == DETOUR_H && TimeCost(net) == DETOUR_COST
  {
    hide DetourNet;
    DetourIs();
    assert net.edges == DETOUR.edges;
  }

  lemma DetourIsIndexed()
    ensures Indexed(DETOUR) && NonNegative(DETOUR, DETOUR_COST)
  {
    assert DETOUR.adj[0] == [0, 2] && DETOUR.adj[1] == [1] && DETOUR.adj[2] == [];
  }

  // The way by the distant node takes a fifth of the time.
  lemma DetourIsCheaper()
    ensures Walk(DETOUR, 0, [0, 1], 2) && Length(DETOUR, DETOUR_COST, [0, 1]) == 0.2
  {
    assert [0, 1][..1] == [0] && [0][..0] == [];
  }

  const DETOUR_COST := [0.1, 0.1, 1.0]
  const DETOUR_H := [1.0, 9.0, 0.0]

  lemma DetourStart(x: Snapshot)
    requires AfterRounds(DETOUR, DETOUR_COST, DETOUR_H, 0, 2, 0, x)
    ensures x.l.cost == [Fin(0.0), Inf, Inf] && Sized(DETOUR, x.l)
    ensures x.q == multiset{Item(0, 1.0)} && x.pr.settled == {}
  {
    var seeds := [Seed(0, 0.0)];
    assert seeds[..0] == [];
    assert SeededWith(DETOUR, DETOUR_H, seeds[..0]) == Unreached(3);
  }

  lemma DetourExpands(x: Snapshot, y: Snapshot)
    requires x.l.cost == [Fin(0.0), Inf, Inf] && Sized(DETOUR, x.l) && x.q == multiset{}
    requires Expanded(DETOUR, DETOUR_COST, DETOUR_H, 0.0, 0, x, y)
    ensures y.l.cost == [Fin(0.0), Fin(0.1), Fin(1.0)] && Sized(DETOUR, y.l)
    ensures y.q == multiset{Item(1, 9.1), Item(2, 1.0)} && y.pr.settled == x.pr.settled
  {
    hide Indexed;
    assert DETOUR.adj[0] == [0, 2];
    var z := ExpandedTo(DETOUR, DETOUR_COST, DETOUR_H, 0.0, 0, 1, x);
    assert ExpandedTo(DETOUR, DETOUR_COST, DETOUR_H, 0.0, 0, 0, x) == x;
    assert z.l.cost == [Fin(0.0), Fin(0.1), Inf] && z.q == multiset{Item(1, 9.1)};
    assert ExpandedTo(DETOUR, DETOUR_COST, DETOUR_H, 0.0, 0, 2, x) ==
           EdgeStep(DETOUR, DETOUR_COST, DETOUR_H, 0.0, 0, 2, z);
  }

  // The first round labels the goal over the street and the distant node over the connector.
  lemma DetourFirst(x: Snapshot)
    requires AfterRounds(DETOUR, DETOUR_COST, DETOUR_H, 0, 2, 1, x)
    ensures x.l.cost == [Fin(0.0), Fin(0.1), Fin(1.0)] && Sized(DETOUR, x.l)
    ensures x.q == multiset{Item(1, 9.1), Item(2, 1.0)} && Item(2, 1.0) in x.q && x.pr.settled == {0}
  {
    hide Expanded, SeededWith;
    var y, it :| AfterRounds(DETOUR, DETOUR_COST, DETOUR_H, 0, 2, 0, y) &&
                 AStarRound(DETOUR, DETOUR_COST, DETOUR_H, 2, y, it, x);
    DetourStart(y);
    assert it == Item(0, 1.0);
    DetourExpands(Settling(y, it), x);
  }

  // Then the goal is due, so there is no other round.
  lemma {:induction false} DetourEnds(n: nat, x: Snapshot)
    requires n >= 2
    ensures !AfterRounds(DETOUR, DETOUR_COST, DETOUR_H, 0, 2, n, x)
    decreases n
  {
    if AfterRounds(DETOUR, DETOUR_COST, DETOUR_H, 0, 2, n, x) {
      var y, it :| AfterRounds(DETOUR, DETOUR_COST, DETOUR_H, 0, 2, n - 1, y) &&
                   AStarRound(DETOUR, DETOUR_COST, DETOUR_H, 2, y, it, x);
      if n == 2 {
        DetourFirst(y);
      } else {
        DetourEnds(n - 1, y);
      }
    }
  }

  // So A* comes back with the street.
  lemma DetourIsMissed(x: Snapshot)
    requires AStarEnd(DETOUR, DETOUR_COST, DETOUR_H, 0, 2, x)
    ensures Sized(DETOUR, x.l) && x.l.cost[2] == Fin(1.0)
  {
    hide AfterRounds;
    var n: nat :| AfterRounds(DETOUR, DETOUR_COST, DETOUR_H, 0, 2, n, x);
    if n >= 2 {
      DetourEnds(n, x);
    } else if n == 1 {
      DetourFirst(x);
    } else {
      DetourStart(x);
    }
  }

  // The search itself on that network: whenever it is not interrupted it answers with a route that
  // takes a second, although there is one of a fifth of a second.
  method MissTheDetour(ctxErr: nat -> bool) returns (res: SearchResult?, ghost x: Snapshot)
    ensures res == null ==> exists k :: ctxErr(k)
    ensures res != null ==>
      && res.Cost.Length == 3 && res.Cost[2] == Fin(1.0)
      && Walk(DETOUR, 0, [0, 1], 2) && Length(DETOUR, DETOUR_COST, [0, 1]) == 0.2
  {
    DetourIsIndexed();
    DetourIsCheaper();
    hide Found, Reaches, AStarEnd, LabelsOk, Indexed, NonNegative;
    res, x := AStar(DETOUR, 0, 2, DETOUR_COST, DETOUR_H, ctxErr);
    if res != null {
      DetourIsMissed(x);
    }
  }
}
