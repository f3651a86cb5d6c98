/** Building a graph from line features: internal/algo/network/graph.go. */
module Builder {
  import opened Numbers
  import opened Paths
  import opened Search

  // ----- the parts of a network

  datatype Node = Node(pt: Point, level: int)

  datatype Key = Key(x: int, y: int, level: int)

  // Coordinates are snapped to a millionth of a degree.
  function KeyOf(p: Point, level: int): Key {
    Key(Round(p.x * 1000000.0), Round(p.y * 1000000.0), level)
  }

  datatype Net = Net(nodes: seq<Node>, edges: seq<Edge>, index: map<Key, int>, maxSpeedMS: real)

  // The great-circle distance, as far as the builder and the heuristic depend on it.
  type Distance = (Point, Point) -> real

  ghost predicate Metric(dist: Distance) {
    && (forall p, q :: dist(p, q) >= 0.0)
    && (forall p :: dist(p, p) == 0.0)
    && (forall p, q, r :: dist(p, r) <= dist(p, q) + dist(q, r))
    && (forall p, q :: dist(p, q) == dist(q, p))
  }

  // ----- what the builder's methods do to a network

  function NodeAt(net: Net, p: Point, level: int): (Net, int) {
    var k := KeyOf(p, level);
    if k in net.index then (net, net.index[k])
    else (net.(nodes := net.nodes + [Node(p, level)], index := net.index[k := |net.nodes|]), |net.nodes|)
  }

  function AddEdge(net: Net, e: Edge): Net {
    net.(edges := net.edges + [e], maxSpeedMS := if e.speedMS > net.maxSpeedMS then e.speedMS else net.maxSpeedMS)
  }

  function AddBoth(net: Net, n1: int, n2: int, lengthM: real, speedMS: real, durationS: real, oneway: bool): Net {
    var there := AddEdge(net, Edge(n1, n2, lengthM, speedMS, durationS));
    if oneway then there else AddEdge(there, Edge(n2, n1, lengthM, speedMS, durationS))
  }

  function AddSegment(dist: Distance, net: Net, p1: Point, p2: Point, level: int, speedMS: real, durationS: real,
                      oneway: bool): Net {
    var (net1, n1) := NodeAt(net, p1, level);
    var (net2, n2) := NodeAt(net1, p2, level);
    if n1 == n2 then net2 else AddBoth(net2, n1, n2, dist(p1, p2), speedMS, durationS, oneway)
  }

  // The length of the first n segments of a line.
  function LineLength(dist: Distance, ln: seq<Point>, n: nat): real
    requires n < |ln| || n == 0
  {
    if n == 0 then 0.0 else LineLength(dist, ln, n - 1) + dist(ln[n - 1], ln[n])
  }

  function AddConnector(dist: Distance, net: Net, ln: seq<Point>, from: int, to: int, speedMS: real, durationS: real,
                        oneway: bool): Net
    requires |ln| >= 2
  {
    var (net1, n1) := NodeAt(net, ln[0], from);
    var (net2, n2) := NodeAt(net1, ln[|ln| - 1], to);
    var length := LineLength(dist, ln, |ln| - 1);
    var duration := if length == 0.0 && durationS == 0.0 then 30.0 else durationS;
    if n1 == n2 then net2 else AddBoth(net2, n1, n2, length, speedMS, duration, oneway)
  }

  // ----- invariants

  ghost predicate IndexOk(nodes: seq<Node>, index: map<Key, int>) {
    && (forall i :: 0 <= i < |nodes| ==>
         KeyOf(nodes[i].pt, nodes[i].level) in index && index[KeyOf(nodes[i].pt, nodes[i].level)] == i)
    && (forall k :: k in index ==> 0 <= index[k] < |nodes| && KeyOf(nodes[index[k]].pt, nodes[index[k]].level) == k)
  }

  predicate EdgeOk(net: Net, e: Edge) {
    && 0 <= e.from < |net.nodes| && 0 <= e.to < |net.nodes| && e.from != e.to
    && e.lengthM >= 0.0 && 0.0 < e.speedMS <= net.maxSpeedMS
  }

  // The index names every node once under its snapped key; edges join different nodes, have a
  // length and a speed, and the speed bound covers them all and is one of them.
  ghost predicate Good(net: Net) {
    && IndexOk(net.nodes, net.index)
    && (forall i :: 0 <= i < |net.edges| ==> EdgeOk(net, net.edges[i]))
    && (net.maxSpeedMS == 0.0 || exists i :: 0 <= i < |net.edges| && net.edges[i].speedMS == net.maxSpeedMS)
  }

  const EMPTY := Net([], [], map[], 0.0)

  lemma NodeAtIsGood(net: Net, p: Point, level: int)
    requires Good(net)
    ensures
      var (net', id) := NodeAt(net, p, level);
      && Good(net') && 0 <= id < |net'.nodes|
      && net.nodes <= net'.nodes && net'.edges == net.edges && net'.maxSpeedMS == net.maxSpeedMS
      && KeyOf(net'.nodes[id].pt, net'.nodes[id].level) == KeyOf(p, level)
      && (forall k :: k in net.index ==> k in net'.index && net'.index[k] == net.index[k])
      && KeyOf(p, level) in net'.index && net'.index[KeyOf(p, level)] == id
  {
    var (net', id) := NodeAt(net, p, level);
    assert forall i :: 0 <= i < |net.edges| ==> EdgeOk(net, net.edges[i]);
    assert IndexOk(net'.nodes, net'.index);
  }

  // Two points share a node exactly when they snap to the same coordinate on the same level.
  lemma SharedNodeIff(net: Net, p: Point, level: int, q: Point, level': int)
    requires Good(net)
    ensures
      var (net1, n1) := NodeAt(net, p, level);
      var (net2, n2) := NodeAt(net1, q, level');
      n1 == n2 <==> KeyOf(p, level) == KeyOf(q, level')
  {
    NodeAtIsGood(net, p, level);
    NodeAtIsGood(NodeAt(net, p, level).0, q, level');
  }

  lemma AddEdgeIsGood(net: Net, e: Edge)
    requires Good(net) && 0 <= e.from < |net.nodes| && 0 <= e.to < |net.nodes| && e.from != e.to
    requires e.lengthM >= 0.0 && e.speedMS > 0.0
    ensures Good(AddEdge(net, e))
  {
    var net' := AddEdge(net, e);
    assert net'.edges[|net.edges|] == e;
    forall i | 0 <= i < |net'.edges|
      ensures EdgeOk(net', net'.edges[i])
    {
      if i < |net.edges| {
        assert EdgeOk(net, net.edges[i]);
      }
    }
    if net'.maxSpeedMS == net.maxSpeedMS && net.maxSpeedMS != 0.0 {
      var i :| 0 <= i < |net.edges| && net.edges[i].speedMS == net.maxSpeedMS;
      assert net'.edges[i] == net.edges[i];
    }
  }

  lemma AddBothIsGood(net: Net, n1: int, n2: int, lengthM: real, speedMS: real, durationS: real, oneway: bool)
    requires Good(net) && 0 <= n1 < |net.nodes| && 0 <= n2 < |net.nodes| && n1 != n2
    requires lengthM >= 0.0 && speedMS > 0.0
    ensures Good(AddBoth(net, n1, n2, lengthM, speedMS, durationS, oneway))
  {
    AddEdgeIsGood(net, Edge(n1, n2, lengthM, speedMS, durationS));
    if !oneway {
      AddEdgeIsGood(AddEdge(net, Edge(n1, n2, lengthM, speedMS, durationS)), Edge(n2, n1, lengthM, speedMS, durationS));
    }
  }

  lemma AddSegmentIsGood(dist: Distance, net: Net, p1: Point, p2: Point, level: int, speedMS: real, durationS: real,
                         oneway: bool)
    requires Metric(dist) && Good(net) && speedMS > 0.0
    ensures Good(AddSegment(dist, net, p1, p2, level, speedMS, durationS, oneway))
  {
    NodeAtIsGood(net, p1, level);
    var (net1, n1) := NodeAt(net, p1, level);
    NodeAtIsGood(net1, p2, level);
    var (net2, n2) := NodeAt(net1, p2, level);
    if n1 != n2 {
      AddBothIsGood(net2, n1, n2, dist(p1, p2), speedMS, durationS, oneway);
    }
  }

  lemma AddConnectorIsGood(dist: Distance, net: Net, ln: seq<Point>, from: int, to: int, speedMS: real, durationS: real,
                           oneway: bool)
    requires Metric(dist) && Good(net) && speedMS > 0.0 && |ln| >= 2
    ensures Good(AddConnector(dist, net, ln, from, to, speedMS, durationS, oneway))
  {
    NodeAtIsGood(net, ln[0], from);
    var (net1, n1) := NodeAt(net, ln[0], from);
    NodeAtIsGood(net1, ln[|ln| - 1], to);
    var (net2, n2) := NodeAt(net1, ln[|ln| - 1], to);
    var length := LineLength(dist, ln, |ln| - 1);
    LineIsLonger(dist, ln, |ln| - 1);
    if n1 != n2 {
      AddBothIsGood(net2, n1, n2, length, speedMS,
                    if length == 0.0 && durationS == 0.0 then 30.0 else durationS, oneway);
    }
  }

  // ----- lengths against node distances

  // No edge is shorter than the distance between its nodes.
  ghost predicate Covers(dist: Distance, net: Net) {
    forall i :: 0 <= i < |net.edges| && 0 <= net.edges[i].from < |net.nodes| && 0 <= net.edges[i].to < |net.nodes| ==>
      net.edges[i].lengthM >= dist(net.nodes[net.edges[i].from].pt, net.nodes[net.edges[i].to].pt)
  }

  // No two of the points snap to the same coordinate.
  ghost predicate Separate(points: set<Point>) {
    forall p, q :: p in points && q in points && KeyOf(p, 0) == KeyOf(q, 0) ==> p == q
  }

  ghost predicate NodesFrom(points: set<Point>, net: Net) {
    forall i :: 0 <= i < |net.nodes| ==> net.nodes[i].pt in points
  }

  ghost predicate Exact(dist: Distance, points: set<Point>, net: Net) {
    Good(net) && NodesFrom(points, net) && Covers(dist, net)
  }

  lemma NodeAtIsExact(dist: Distance, points: set<Point>, net: Net, p: Point, level: int)
    requires Separate(points) && Exact(dist, points, net) && p in points
    ensures
      var (net', id) := NodeAt(net, p, level);
      Exact(dist, points, net') && 0 <= id < |net'.nodes| && net'.nodes[id].pt == p && net.nodes <= net'.nodes
  {
    NodeAtIsGood(net, p, level);
    var (net', id) := NodeAt(net, p, level);
    assert KeyOf(net'.nodes[id].pt, 0) == KeyOf(p, 0);
    forall i | 0 <= i < |net'.edges|
      ensures net'.edges[i].lengthM >= dist(net'.nodes[net'.edges[i].from].pt, net'.nodes[net'.edges[i].to].pt)
    {
      assert EdgeOk(net, net.edges[i]);
    }
  }

  lemma AddEdgeIsExact(dist: Distance, points: set<Point>, net: Net, e: Edge)
    requires Exact(dist, points, net) && 0 <= e.from < |net.nodes| && 0 <= e.to < |net.nodes| && e.from != e.to
    requires e.lengthM >= 0.0 && e.speedMS > 0.0
    requires e.lengthM >= dist(net.nodes[e.from].pt, net.nodes[e.to].pt)
    ensures Exact(dist, points, AddEdge(net, e))
  {
    AddEdgeIsGood(net, e);
  }

  lemma AddBothIsExact(dist: Distance, points: set<Point>, net: Net, n1: int, n2: int,
                       lengthM: real, speedMS: real, durationS: real, oneway: bool)
    requires Metric(dist) && Exact(dist, points, net)
    requires 0 <= n1 < |net.nodes| && 0 <= n2 < |net.nodes| && n1 != n2
    requires speedMS > 0.0 && lengthM >= dist(net.nodes[n1].pt, net.nodes[n2].pt)
    ensures Exact(dist, points, AddBoth(net, n1, n2, lengthM, speedMS, durationS, oneway))
  {
    var there := Edge(n1, n2, lengthM, speedMS, durationS);
    AddEdgeIsExact(dist, points, net, there);
    if !oneway {
      AddEdgeIsExact(dist, points, AddEdge(net, there), Edge(n2, n1, lengthM, speedMS, durationS));
    }
  }

  lemma AddSegmentIsExact(dist: Distance, points: set<Point>, net: Net, p1: Point, p2: Point, level: int,
                          speedMS: real, durationS: real, oneway: bool)
    requires Metric(dist) && Separate(points) && Exact(dist, points, net) && p1 in points && p2 in points
    requires speedMS > 0.0
    ensures Exact(dist, points, AddSegment(dist, net, p1, p2, level, speedMS, durationS, oneway))
  {
    NodeAtIsExact(dist, points, net, p1, level);
    var (net1, n1) := NodeAt(net, p1, level);
    NodeAtIsExact(dist, points, net1, p2, level);
    var (net2, n2) := NodeAt(net1, p2, level);
    if n1 != n2 {
      AddBothIsExact(dist, points, net2, n1, n2, dist(p1, p2), speedMS, durationS, oneway);
    }
  }

  // A line is at least as long as the distance between its ends.
  lemma {:induction false} LineIsLonger(dist: Distance, ln: seq<Point>, n: nat)
    requires Metric(dist) && n < |ln|
    ensures LineLength(dist, ln, n) >= dist(ln[0], ln[n])
  {
    if n > 0 {
      LineIsLonger(dist, ln, n - 1);
    }
  }

  lemma AddConnectorIsExact(dist: Distance, points: set<Point>, net: Net, ln: seq<Point>, from: int, to: int,
                            speedMS: real, durationS: real, oneway: bool)
    requires Metric(dist) && Separate(points) && Exact(dist, points, net) && speedMS > 0.0
    requires |ln| >= 2 && forall i :: 0 <= i < |ln| ==> ln[i] in points
    ensures Exact(dist, points, AddConnector(dist, net, ln, from, to, speedMS, durationS, oneway))
  {
    NodeAtIsExact(dist, points, net, ln[0], from);
    var (net1, n1) := NodeAt(net, ln[0], from);
    NodeAtIsExact(dist, points, net1, ln[|ln| - 1], to);
    var (net2, n2) := NodeAt(net1, ln[|ln| - 1], to);
    var length := LineLength(dist, ln, |ln| - 1);
    LineIsLonger(dist, ln, |ln| - 1);
    if n1 != n2 {
      AddBothIsExact(dist, points, net2, n1, n2, length, speedMS,
                     if length == 0.0 && durationS == 0.0 then 30.0 else durationS, oneway);
    }
  }

  // ----- costs and the A* heuristic

  function TravelSeconds(e: Edge): real
    requires e.speedMS > 0.0
  {
    if e.durationS > 0.0 then e.durationS else e.lengthM / e.speedMS
  }

  // A fixed duration is the time an edge takes; without one its length is what is covered at its speed
  // in that time.
  lemma TravelSecondsMeans(e: Edge)
    requires e.speedMS > 0.0
    ensures e.durationS > 0.0 ==> TravelSeconds(e) == e.durationS
    ensures e.durationS <= 0.0 ==> TravelSeconds(e) * e.speedMS == e.lengthM
  {
  }

  function TimeCost(net: Net): (cost: seq<real>)
    requires forall i :: 0 <= i < |net.edges| ==> net.edges[i].speedMS > 0.0
    ensures |cost| == |net.edges| && forall i :: 0 <= i < |cost| ==> cost[i] == TravelSeconds(net.edges[i])
  {
    seq(|net.edges|, i requires 0 <= i < |net.edges| => TravelSeconds(net.edges[i]))
  }

  // The heuristic of AStar: the straight line to the goal, for time costs at the highest speed.
  function Heuristic(dist: Distance, net: Net, to: int, scale: real): (h: seq<real>)
    requires 0 <= to < |net.nodes| && scale > 0.0
    ensures |h| == |net.nodes|
    ensures forall i :: 0 <= i < |h| ==> h[i] == dist(net.nodes[i].pt, net.nodes[to].pt) / scale
  {
    seq(|net.nodes|, i requires 0 <= i < |net.nodes| => dist(net.nodes[i].pt, net.nodes[to].pt) / scale)
  }

  function GraphOf(net: Net, adj: seq<seq<int>>): Graph {
    Graph(|net.nodes|, net.edges, adj)
  }

  lemma Quotients(a: real, b: real, c: real, scale: real)
    requires scale > 0.0
    ensures a <= b + c ==> a / scale <= b / scale + c / scale
    ensures a / scale <= b / scale <==> a <= b
  {
    assert (b + c) / scale == b / scale + c / scale;
    Monotone(a, b, scale);
    Monotone(a, b + c, scale);
  }

  lemma Monotone(a: real, b: real, scale: real)
    requires scale > 0.0
    ensures a / scale <= b / scale <==> a <= b
  {
    assert (b - a) / scale == b / scale - a / scale;
    assert (b - a) == ((b - a) / scale) * scale;
  }

  // An edge is priced fairly if it costs no less than the heuristic's estimate from end to end.
  ghost predicate Fair(dist: Distance, net: Net, cost: seq<real>, scale: real)
    requires Good(net) && |cost| == |net.edges| && scale > 0.0
  {
    forall i :: 0 <= i < |net.edges| ==>
      EdgeOk(net, net.edges[i]) &&
      cost[i] >= dist(net.nodes[net.edges[i].from].pt, net.nodes[net.edges[i].to].pt) / scale
  }

  ghost predicate AlwaysConsistent(dist: Distance, net: Net, adj: seq<seq<int>>, cost: seq<real>, scale: real)
    requires scale > 0.0
  {
    forall to :: 0 <= to < |net.nodes| ==> Consistent(GraphOf(net, adj), cost, Heuristic(dist, net, to, scale))
  }

  lemma Triangle(dist: Distance, p: Point, q: Point, r: Point)
    requires Metric(dist)
    ensures dist(p, r) <= dist(p, q) + dist(q, r) && dist(p, p) == 0.0
  {
  }

  lemma FairIsConsistent(dist: Distance, net: Net, adj: seq<seq<int>>, cost: seq<real>, scale: real, to: int)
    requires Metric(dist) && Good(net) && |cost| == |net.edges| && scale > 0.0
    requires Fair(dist, net, cost, scale) && 0 <= to < |net.nodes|
    ensures Consistent(GraphOf(net, adj), cost, Heuristic(dist, net, to, scale))
  {
    hide Metric, Good;
    var g, h := GraphOf(net, adj), Heuristic(dist, net, to, scale);
    forall e | IsEdge(g, e)
      ensures h[g.edges[e].from] <= cost[e] + h[g.edges[e].to]
    {
      assert EdgeOk(net, net.edges[e]);
      var p, q, r := net.nodes[net.edges[e].from].pt, net.nodes[net.edges[e].to].pt, net.nodes[to].pt;
      Triangle(dist, p, q, r);
      Quotients(dist(p, r), dist(p, q), dist(q, r), scale);
    }
  }

  // Aiming at its far end shows whether an edge is priced fairly.
  lemma ConsistentIsFair(dist: Distance, net: Net, adj: seq<seq<int>>, cost: seq<real>, scale: real, i: int)
    requires Metric(dist) && Good(net) && |cost| == |net.edges| && scale > 0.0
    requires AlwaysConsistent(dist, net, adj, cost, scale) && 0 <= i < |net.edges|
    ensures EdgeOk(net, net.edges[i])
    ensures cost[i] >= dist(net.nodes[net.edges[i].from].pt, net.nodes[net.edges[i].to].pt) / scale
  {
    hide Metric;
    assert EdgeOk(net, net.edges[i]);
    var to := net.edges[i].to;
    assert Consistent(GraphOf(net, adj), cost, Heuristic(dist, net, to, scale));
    assert IsEdge(GraphOf(net, adj), i);
    Triangle(dist, net.nodes[to].pt, net.nodes[to].pt, net.nodes[to].pt);
  }

  // The heuristic is consistent for every goal exactly when every edge is priced fairly.
  lemma ConsistentIff(dist: Distance, net: Net, adj: seq<seq<int>>, cost: seq<real>, scale: real)
    requires Metric(dist) && Good(net) && |cost| == |net.edges| && scale > 0.0
    ensures AlwaysConsistent(dist, net, adj, cost, scale) <==> Fair(dist, net, cost, scale)
  {
    hide Metric, Good, Consistent;
    if Fair(dist, net, cost, scale) {
      forall to | 0 <= to < |net.nodes|
        ensures Consistent(GraphOf(net, adj), cost, Heuristic(dist, net, to, scale))
      {
        FairIsConsistent(dist, net, adj, cost, scale, to);
      }
    }
    if AlwaysConsistent(dist, net, adj, cost, scale) {
      forall i | 0 <= i < |net.edges|
        ensures EdgeOk(net, net.edges[i])
        ensures cost[i] >= dist(net.nodes[net.edges[i].from].pt, net.nodes[net.edges[i].to].pt) / scale
      {
        ConsistentIsFair(dist, net, adj, cost, scale, i);
      }
    }
  }

  // The estimate is never more than what any walk to the goal costs.
  ghost predicate AlwaysAdmissible(dist: Distance, net: Net, adj: seq<seq<int>>, cost: seq<real>, scale: real)
    requires |cost| == |net.edges| && scale > 0.0
  {
    forall s, p, to :: 0 <= s < |net.nodes| && 0 <= to < |net.nodes| && Walk(GraphOf(net, adj), s, p, to) ==>
      Heuristic(dist, net, to, scale)[s] <= Length(GraphOf(net, adj), cost, p)
  }

  // A consistent estimate drops along a walk by no more than the walk costs.
  lemma {:induction false} DropsAlong(g: Graph, cost: seq<real>, h: seq<real>, s: int, p: seq<int>, t: int)
    requires Consistent(g, cost, h) && IsNode(g, s) && Walk(g, s, p, t)
    requires forall e :: IsEdge(g, e) ==> IsNode(g, g.edges[e].from) && IsNode(g, g.edges[e].to)
    ensures IsNode(g, t) && h[s] <= Length(g, cost, p) + h[t]
    decreases |p|
  {
    if p != [] {
      var e := p[|p| - 1];
      DropsAlong(g, cost, h, s, p[..|p| - 1], g.edges[e].from);
    }
  }

  lemma FairIsAdmissible(dist: Distance, net: Net, adj: seq<seq<int>>, cost: seq<real>, scale: real, s: int,
                         p: seq<int>, to: int)
    requires Metric(dist) && Good(net) && |cost| == |net.edges| && scale > 0.0 && Fair(dist, net, cost, scale)
    requires 0 <= s < |net.nodes| && 0 <= to < |net.nodes| && Walk(GraphOf(net, adj), s, p, to)
    ensures Heuristic(dist, net, to, scale)[s] <= Length(GraphOf(net, adj), cost, p)
  {
    hide Metric, Good, Fair, Consistent, Walk, Length;
    FairIsConsistent(dist, net, adj, cost, scale, to);
    HeuristicAtGoal(dist, net, to, scale);
    EdgesStayInside(net, adj);
    DropsAlong(GraphOf(net, adj), cost, Heuristic(dist, net, to, scale), s, p, to);
  }

  lemma HeuristicAtGoal(dist: Distance, net: Net, to: int, scale: real)
    requires Metric(dist) && 0 <= to < |net.nodes| && scale > 0.0
    ensures Heuristic(dist, net, to, scale)[to] == 0.0
  {
  }

  lemma EdgesStayInside(net: Net, adj: seq<seq<int>>)
    requires Good(net)
    ensures
      var g := GraphOf(net, adj);
      forall e :: IsEdge(g, e) ==> IsNode(g, g.edges[e].from) && IsNode(g, g.edges[e].to)
  {
    assert forall i :: 0 <= i < |net.edges| ==> EdgeOk(net, net.edges[i]);
  }

  // Neither is the estimate admissible for every goal unless every edge is priced fairly.
  lemma AdmissibleIff(dist: Distance, net: Net, adj: seq<seq<int>>, cost: seq<real>, scale: real)
    requires Metric(dist) && Good(net) && |cost| == |net.edges| && scale > 0.0
    ensures AlwaysAdmissible(dist, net, adj, cost, scale) <==> Fair(dist, net, cost, scale)
  {
    if Fair(dist, net, cost, scale) {
      hide Metric, Good, Fair;
      forall s, p, to | 0 <= s < |net.nodes| && 0 <= to < |net.nodes| && Walk(GraphOf(net, adj), s, p, to)
        ensures Heuristic(dist, net, to, scale)[s] <= Length(GraphOf(net, adj), cost, p)
      {
        FairIsAdmissible(dist, net, adj, cost, scale, s, p, to);
      }
    }
    if AlwaysAdmissible(dist, net, adj, cost, scale) {
      hide Metric;
      forall i | 0 <= i < |net.edges|
        ensures EdgeOk(net, net.edges[i])
        ensures cost[i] >= dist(net.nodes[net.edges[i].from].pt, net.nodes[net.edges[i].to].pt) / scale
      {
        assert EdgeOk(net, net.edges[i]);
        OneEdge(GraphOf(net, adj), cost, i);
        assert Walk(GraphOf(net, adj), net.edges[i].from, [i], net.edges[i].to);
      }
    }
  }

  lemma OneEdge(g: Graph, cost: seq<real>, e: int)
    requires IsEdge(g, e) && |cost| == |g.edges|
    ensures Walk(g, g.edges[e].from, [e], g.edges[e].to) && Length(g, cost, [e]) == cost[e]
  {
    assert [e][..0] == [];
  }

  // By distance: exactly when no edge is shorter than the distance between its nodes.
  lemma DistanceConsistentIff(dist: Distance, net: Net, adj: seq<seq<int>>)
    requires Metric(dist) && Good(net)
    ensures AlwaysConsistent(dist, net, adj, DistanceCost(net.edges), 1.0) <==> Covers(dist, net)
  {
    hide Metric, AlwaysConsistent;
    ConsistentIff(dist, net, adj, DistanceCost(net.edges), 1.0);
    if Covers(dist, net) {
      forall i | 0 <= i < |net.edges|
        ensures EdgeOk(net, net.edges[i])
        ensures net.edges[i].lengthM >= dist(net.nodes[net.edges[i].from].pt, net.nodes[net.edges[i].to].pt)
      {
      }
    }
  }

  // By time: an edge priced by length and speed is always fair, one with a fixed duration exactly
  // when the duration is enough to cover the straight line at the highest speed.
  lemma TimeFairIff(dist: Distance, net: Net, i: int)
    requires Good(net) && Covers(dist, net) && 0 <= i < |net.edges|
    ensures
      var e := net.edges[i];
      EdgeOk(net, e) &&
      (TravelSeconds(e) >= dist(net.nodes[e.from].pt, net.nodes[e.to].pt) / net.maxSpeedMS <==>
       (e.durationS > 0.0 ==> e.durationS >= dist(net.nodes[e.from].pt, net.nodes[e.to].pt) / net.maxSpeedMS))
  {
    var e := net.edges[i];
    assert EdgeOk(net, e);
    var d := dist(net.nodes[e.from].pt, net.nodes[e.to].pt);
    if e.durationS <= 0.0 {
      Monotone(d, e.lengthM, net.maxSpeedMS);
      SlowerTakesLonger(e.lengthM, e.speedMS, net.maxSpeedMS);
    }
  }

  lemma SlowerTakesLonger(length: real, speed: real, top: real)
    requires length >= 0.0 && 0.0 < speed <= top
    ensures length / speed >= length / top
  {
    var t := length / top;
    assert t >= 0.0;
    assert length == t * top;
    assert t * speed <= t * top;
    Monotone(t * speed, length, speed);
    assert t * speed / speed == t;
  }

  // No fixed duration undercuts travelling the edge's length at the highest speed.
  ghost predicate DurationsHonest(net: Net) {
    forall i :: 0 <= i < |net.edges| && net.edges[i].durationS > 0.0 && net.maxSpeedMS > 0.0 ==>
      net.edges[i].durationS >= net.edges[i].lengthM / net.maxSpeedMS
  }

  lemma CostsNonNegative(net: Net, adj: seq<seq<int>>)
    requires Good(net)
    ensures forall i :: 0 <= i < |net.edges| ==> net.edges[i].speedMS > 0.0
    ensures NonNegative(GraphOf(net, adj), TimeCost(net)) && NonNegative(GraphOf(net, adj), DistanceCost(net.edges))
  {
    forall i | 0 <= i < |net.edges|
      ensures net.edges[i].speedMS > 0.0 && net.edges[i].lengthM >= 0.0
      ensures net.edges[i].lengthM / net.edges[i].speedMS >= 0.0
    {
      assert EdgeOk(net, net.edges[i]);
    }
  }

  lemma HonestIsFair(dist: Distance, net: Net)
    requires Metric(dist) && Good(net) && Covers(dist, net) && DurationsHonest(net) && net.maxSpeedMS > 0.0
    requires forall i :: 0 <= i < |net.edges| ==> net.edges[i].speedMS > 0.0
    ensures Fair(dist, net, TimeCost(net), net.maxSpeedMS)
  {
    hide Metric;
    forall i | 0 <= i < |net.edges|
      ensures EdgeOk(net, net.edges[i])
      ensures TravelSeconds(net.edges[i]) >=
              dist(net.nodes[net.edges[i].from].pt, net.nodes[net.edges[i].to].pt) / net.maxSpeedMS
    {
      TimeFairIff(dist, net, i);
      var e := net.edges[i];
      Monotone(dist(net.nodes[e.from].pt, net.nodes[e.to].pt), e.lengthM, net.maxSpeedMS);
    }
  }

  // A network whose points are separate and whose durations are honest gives A* a consistent
  // heuristic, by time and by distance, for every goal.
  lemma HonestNetworkIsConsistent(dist: Distance, points: set<Point>, net: Net, adj: seq<seq<int>>)
    requires Metric(dist) && Exact(dist, points, net) && DurationsHonest(net) && |net.edges| > 0
    ensures net.maxSpeedMS > 0.0 && forall i :: 0 <= i < |net.edges| ==> net.edges[i].speedMS > 0.0
    ensures AlwaysConsistent(dist, net, adj, TimeCost(net), net.maxSpeedMS)
    ensures AlwaysConsistent(dist, net, adj, DistanceCost(net.edges), 1.0)
  {
    hide Metric, AlwaysConsistent, Fair;
    CostsNonNegative(net, adj);
    assert EdgeOk(net, net.edges[0]);
    DistanceConsistentIff(dist, net, adj);
    HonestIsFair(dist, net);
    ConsistentIff(dist, net, adj, TimeCost(net), net.maxSpeedMS);
  }

  // ----- where the heuristic fails

  // A metric to compute with.
  function Manhattan(p: Point, q: Point): real {
    Abs(p.x - q.x) + Abs(p.y - q.y)
  }

  lemma ManhattanIsMetric()
    ensures Metric(Manhattan)
  {
  }

  // One connector with a fixed duration that beats its length at the highest speed: the estimate
  // at its start exceeds the true cost, so the heuristic is not even admissible.
  lemma ShortDurationFails(adj: seq<seq<int>>)
    ensures
      var net := AddConnector(Manhattan, EMPTY, [Point(0.0, 0.0), Point(1.0, 0.0)], 0, 1, 1.0, 0.5, true);
      && |net.nodes| == 2 && |net.edges| == 1 && net.maxSpeedMS == 1.0 && net.edges[0].speedMS == 1.0
      && Walk(GraphOf(net, adj), 0, [0], 1)
      && Length(GraphOf(net, adj), TimeCost(net), [0]) == 0.5
      && Heuristic(Manhattan, net, 1, net.maxSpeedMS)[0] == 1.0
      && !Consistent(GraphOf(net, adj), TimeCost(net), Heuristic(Manhattan, net, 1, net.maxSpeedMS))
  {
    var ln := [Point(0.0, 0.0), Point(1.0, 0.0)];
    assert LineLength(Manhattan, ln, 1) == LineLength(Manhattan, ln, 0) + 1.0;
    var net := AddConnector(Manhattan, EMPTY, ln, 0, 1, 1.0, 0.5, true);
    assert net.nodes == [Node(ln[0], 0), Node(ln[1], 1)];
    assert net.edges == [Edge(0, 1, 1.0, 1.0, 0.5)];
    var g := GraphOf(net, adj);
    assert [0][..0] == [];
    assert IsEdge(g, 0);
    assert Heuristic(Manhattan, net, 1, 1.0)[1] == 0.0;
  }

  // A segment keeps the lengths right exactly when it is no shorter than the distance between
  // the nodes its ends snapped to.
  lemma AddSegmentCoversIff(dist: Distance, net: Net, p1: Point, p2: Point, level: int, speedMS: real, durationS: real,
                            oneway: bool)
    requires Metric(dist) && Good(net) && Covers(dist, net)
    ensures
      var (net1, n1) := NodeAt(net, p1, level);
      var (net2, n2) := NodeAt(net1, p2, level);
      && 0 <= n1 < |net2.nodes| && 0 <= n2 < |net2.nodes|
      && (Covers(dist, AddSegment(dist, net, p1, p2, level, speedMS, durationS, oneway)) <==>
          n1 == n2 || dist(p1, p2) >= dist(net2.nodes[n1].pt, net2.nodes[n2].pt))
  {
    hide NodeAt, Good, Covers, AddEdge;
    NodeAtKeepsCovers(dist, net, p1, level);
    var (net1, n1) := NodeAt(net, p1, level);
    NodeAtKeepsCovers(dist, net1, p2, level);
    var (net2, n2) := NodeAt(net1, p2, level);
    var there := Edge(n1, n2, dist(p1, p2), speedMS, durationS);
    AddEdgeCoversIff(dist, net2, there);
    if !oneway {
      AddEdgeCoversIff(dist, AddEdge(net2, there), Edge(n2, n1, dist(p1, p2), speedMS, durationS));
    }
    assert dist(net2.nodes[n1].pt, net2.nodes[n2].pt) == dist(net2.nodes[n2].pt, net2.nodes[n1].pt);
  }

  lemma NodeAtKeepsCovers(dist: Distance, net: Net, p: Point, level: int)
    requires Good(net) && Covers(dist, net)
    ensures
      var (net', id) := NodeAt(net, p, level);
      Good(net') && Covers(dist, net') && 0 <= id < |net'.nodes| && |net.nodes| <= |net'.nodes|
  {
    NodeAtIsGood(net, p, level);
    assert forall i :: 0 <= i < |net.edges| ==> EdgeOk(net, net.edges[i]);
  }

  lemma AddEdgeCoversIff(dist: Distance, net: Net, e: Edge)
    requires 0 <= e.from < |net.nodes| && 0 <= e.to < |net.nodes|
    ensures AddEdge(net, e).nodes == net.nodes
    ensures Covers(dist, AddEdge(net, e)) <==>
            Covers(dist, net) && e.lengthM >= dist(net.nodes[e.from].pt, net.nodes[e.to].pt)
  {
    var net' := AddEdge(net, e);
    assert net'.edges[|net.edges|] == e;
    assert forall i :: 0 <= i < |net.edges| ==> net'.edges[i] == net.edges[i];
  }

  lemma SnappedKeys()
    ensures KeyOf(Point(0.0, 0.0), 0) == Key(0, 0, 0) == KeyOf(Point(0.0000004, 0.0), 0)
    ensures KeyOf(Point(1.0, 0.0), 0) == Key(1000000, 0, 0)
  {
  }

  lemma SnappedNet()
    ensures
      var p, r, t := Point(0.0, 0.0), Point(0.0000004, 0.0), Point(1.0, 0.0);
      var net := AddSegment(Manhattan, AddSegment(Manhattan, EMPTY, p, p, 0, 1.0, 0.0, true), r, t, 0, 1.0, 0.0, true);
      net.nodes == [Node(p, 0), Node(t, 0)] && net.edges == [Edge(0, 1, Manhattan(r, t), 1.0, 0.0)]
  {
    hide KeyOf, Manhattan;
    SnappedKeys();
    var p, r, t := Point(0.0, 0.0), Point(0.0000004, 0.0), Point(1.0, 0.0);
    var net1 := AddSegment(Manhattan, EMPTY, p, p, 0, 1.0, 0.0, true);
    assert net1 == Net([Node(p, 0)], [], map[Key(0, 0, 0) := 0], 0.0);
  }

  lemma EmptyIsGood()
    ensures Good(EMPTY)
  {
  }

  // That can happen: two points snap together although they differ, the segment leaves from the
  // node of the first but is measured from the second.
  lemma SnappedPointsFail(adj: seq<seq<int>>)
    ensures
      var net1 := AddSegment(Manhattan, EMPTY, Point(0.0, 0.0), Point(0.0, 0.0), 0, 1.0, 0.0, true);
      var net := AddSegment(Manhattan, net1, Point(0.0000004, 0.0), Point(1.0, 0.0), 0, 1.0, 0.0, true);
      Good(net) && !AlwaysConsistent(Manhattan, net, adj, DistanceCost(net.edges), 1.0)
  {
    hide KeyOf, Metric, AlwaysConsistent, Good, AddSegment;
    var p, r, t := Point(0.0, 0.0), Point(0.0000004, 0.0), Point(1.0, 0.0);
    ManhattanIsMetric();
    EmptyIsGood();
    AddSegmentIsGood(Manhattan, EMPTY, p, p, 0, 1.0, 0.0, true);
    var net1 := AddSegment(Manhattan, EMPTY, p, p, 0, 1.0, 0.0, true);
    AddSegmentIsGood(Manhattan, net1, r, t, 0, 1.0, 0.0, true);
    var net := AddSegment(Manhattan, net1, r, t, 0, 1.0, 0.0, true);
    SnappedNet();
    assert net.edges[0].lengthM < Manhattan(net.nodes[0].pt, net.nodes[1].pt);
    DistanceConsistentIff(Manhattan, net, adj);
  }

  // ----- features

  // What Build makes of a feature's properties: a street on one level, or a connector between
  // two. Features of other kinds are passed over.
  datatype Feature =
    | Other
    | Street(lines: seq<seq<Point>>, level: int, speedMS: real, oneway: bool)
    | Connector(lines: seq<seq<Point>>, from: int, to: int, speedMS: real, durationS: real, oneway: bool)

  // The first n segments of a line.
  function AddSegments(dist: Distance, net: Net, ln: seq<Point>, n: nat, level: int, speedMS: real, oneway: bool): Net
    requires n < |ln| || n == 0
  {
    if n == 0 then net
    else AddSegment(dist, AddSegments(dist, net, ln, n - 1, level, speedMS, oneway),
                    ln[n - 1], ln[n], level, speedMS, 0.0, oneway)
  }

  function AddLine(dist: Distance, net: Net, f: Feature, ln: seq<Point>): Net
    requires !f.Other?
  {
    if f.Connector? then
      if |ln| < 2 then net else AddConnector(dist, net, ln, f.from, f.to, f.speedMS, f.durationS, f.oneway)
    else
      AddSegments(dist, net, ln, if |ln| == 0 then 0 else |ln| - 1, f.level, f.speedMS, f.oneway)
  }

  function AddLines(dist: Distance, net: Net, f: Feature, n: nat): Net
    requires !f.Other? && n <= |f.lines|
  {
    if n == 0 then net else AddLine(dist, AddLines(dist, net, f, n - 1), f, f.lines[n - 1])
  }

  function AddFeature(dist: Distance, net: Net, f: Feature): Net {
    if f.Other? then net else AddLines(dist, net, f, |f.lines|)
  }

  function AddFeatures(dist: Distance, feats: seq<Feature>, n: nat): Net
    requires n <= |feats|
  {
    if n == 0 then EMPTY else AddFeature(dist, AddFeatures(dist, feats, n - 1), feats[n - 1])
  }

  // Speeds come from a positive default or a positive property; all points are among `points`.
  ghost predicate FeatureOk(points: set<Point>, f: Feature) {
    !f.Other? ==>
      && f.speedMS > 0.0
      && (forall i, j :: 0 <= i < |f.lines| && 0 <= j < |f.lines[i]| ==> f.lines[i][j] in points)
  }

  lemma {:induction false} AddSegmentsIsExact(dist: Distance, points: set<Point>, net: Net, ln: seq<Point>, n: nat,
                                              level: int, speedMS: real, oneway: bool)
    requires Metric(dist) && Separate(points) && Exact(dist, points, net) && speedMS > 0.0
    requires (n < |ln| || n == 0) && forall i :: 0 <= i < |ln| ==> ln[i] in points
    ensures Exact(dist, points, AddSegments(dist, net, ln, n, level, speedMS, oneway))
  {
    hide Metric, Separate, Exact;
    if n > 0 {
      AddSegmentsIsExact(dist, points, net, ln, n - 1, level, speedMS, oneway);
      AddSegmentIsExact(dist, points, AddSegments(dist, net, ln, n - 1, level, speedMS, oneway), ln[n - 1], ln[n],
                        level, speedMS, 0.0, oneway);
    }
  }

  lemma {:induction false} AddLinesIsExact(dist: Distance, points: set<Point>, net: Net, f: Feature, n: nat)
    requires Metric(dist) && Separate(points) && Exact(dist, points, net)
    requires !f.Other? && FeatureOk(points, f) && n <= |f.lines|
    ensures Exact(dist, points, AddLines(dist, net, f, n))
  {
    hide Metric, Separate, Exact;
    if n > 0 {
      AddLinesIsExact(dist, points, net, f, n - 1);
      var sofar, ln := AddLines(dist, net, f, n - 1), f.lines[n - 1];
      if f.Street? {
        AddSegmentsIsExact(dist, points, sofar, ln, if |ln| == 0 then 0 else |ln| - 1, f.level, f.speedMS, f.oneway);
      } else if |ln| >= 2 {
        AddConnectorIsExact(dist, points, sofar, ln, f.from, f.to, f.speedMS, f.durationS, f.oneway);
      }
    }
  }

  lemma {:induction false} AddSegmentsIsGood(dist: Distance, net: Net, ln: seq<Point>, n: nat, level: int,
                                             speedMS: real, oneway: bool)
    requires Metric(dist) && Good(net) && speedMS > 0.0 && (n < |ln| || n == 0)
    ensures Good(AddSegments(dist, net, ln, n, level, speedMS, oneway))
  {
    hide Metric, Good;
    if n > 0 {
      AddSegmentsIsGood(dist, net, ln, n - 1, level, speedMS, oneway);
      AddSegmentIsGood(dist, AddSegments(dist, net, ln, n - 1, level, speedMS, oneway),
                       ln[n - 1], ln[n], level, speedMS, 0.0, oneway);
    }
  }

  lemma {:induction false} AddLinesIsGood(dist: Distance, net: Net, f: Feature, n: nat)
    requires Metric(dist) && Good(net) && !f.Other? && f.speedMS > 0.0 && n <= |f.lines|
    ensures Good(AddLines(dist, net, f, n))
  {
    hide Metric, Good;
    if n > 0 {
      AddLinesIsGood(dist, net, f, n - 1);
      var sofar, ln := AddLines(dist, net, f, n - 1), f.lines[n - 1];
      if f.Street? {
        AddSegmentsIsGood(dist, sofar, ln, if |ln| == 0 then 0 else |ln| - 1, f.level, f.speedMS, f.oneway);
      } else if |ln| >= 2 {
        AddConnectorIsGood(dist, sofar, ln, f.from, f.to, f.speedMS, f.durationS, f.oneway);
      }
    }
  }

  // Whatever the features are: nodes are indexed, edges join different nodes, and the greatest
  // speed is that of an edge.
  lemma {:induction false} AddFeaturesIsGood(dist: Distance, feats: seq<Feature>, n: nat)
    requires Metric(dist) && n <= |feats| && forall i :: 0 <= i < |feats| && !feats[i].Other? ==> feats[i].speedMS > 0.0
    ensures Good(AddFeatures(dist, feats, n))
  {
    if n > 0 {
      AddFeaturesIsGood(dist, feats, n - 1);
      if !feats[n - 1].Other? {
        AddLinesIsGood(dist, AddFeatures(dist, feats, n - 1), feats[n - 1], |feats[n - 1].lines|);
      }
    }
  }

  // Whatever separate points the features use, no edge of the network is shorter than the
  // distance between its nodes.
  lemma {:induction false} AddFeaturesIsExact(dist: Distance, points: set<Point>, feats: seq<Feature>, n: nat)
    requires Metric(dist) && Separate(points) && n <= |feats|
    requires forall i :: 0 <= i < |feats| ==> FeatureOk(points, feats[i])
    ensures Exact(dist, points, AddFeatures(dist, feats, n))
  {
    if n > 0 {
      AddFeaturesIsExact(dist, points, feats, n - 1);
      if !feats[n - 1].Other? {
        AddLinesIsExact(dist, points, AddFeatures(dist, feats, n - 1), feats[n - 1], |feats[n - 1].lines|);
      }
    }
  }

  // ----- the edges of the features

  // What a feature asks for: an edge between the nodes of two snapped points.
  datatype Link = Link(a: Key, b: Key, lengthM: real, speedMS: real, durationS: real) {
    function Reversed(): Link {
      Link(b, a, lengthM, speedMS, durationS)
    }
  }

  // One way or both; none between points that snap together.
  function Ways(k: Link, oneway: bool): seq<Link> {
    if k.a == k.b then [] else if oneway then [k] else [k, k.Reversed()]
  }

  // The way along a line, added up from its start.
  function WayLength(dist: Distance, ln: seq<Point>): real {
    if |ln| < 2 then 0.0 else dist(ln[0], ln[1]) + WayLength(dist, ln[1..])
  }

  function StreetLink(dist: Distance, f: Feature, p: Point, q: Point): Link
    requires f.Street?
  {
    Link(KeyOf(p, f.level), KeyOf(q, f.level), dist(p, q), f.speedMS, 0.0)
  }

  // A connector takes the time it is given; one without length or time takes half a minute.
  function ConnectorLink(dist: Distance, f: Feature, ln: seq<Point>): Link
    requires f.Connector? && |ln| >= 2
  {
    var length := WayLength(dist, ln);
    Link(KeyOf(ln[0], f.from), KeyOf(ln[|ln| - 1], f.to), length, f.speedMS,
         if f.durationS != 0.0 || length != 0.0 then f.durationS else 30.0)
  }

  function StreetLinks(dist: Distance, f: Feature, ln: seq<Point>, n: nat): seq<Link>
    requires f.Street? && (n < |ln| || n == 0)
  {
    if n == 0 then []
    else StreetLinks(dist, f, ln, n - 1) + Ways(StreetLink(dist, f, ln[n - 1], ln[n]), f.oneway)
  }

  function LineLinks(dist: Distance, f: Feature, ln: seq<Point>): seq<Link>
    requires !f.Other?
  {
    if f.Street? then StreetLinks(dist, f, ln, if |ln| == 0 then 0 else |ln| - 1)
    else if |ln| < 2 then []
    else Ways(ConnectorLink(dist, f, ln), f.oneway)
  }

  function LinesLinks(dist: Distance, f: Feature, n: nat): seq<Link>
    requires !f.Other? && n <= |f.lines|
  {
    if n == 0 then [] else LinesLinks(dist, f, n - 1) + LineLinks(dist, f, f.lines[n - 1])
  }

  function Links(dist: Distance, feats: seq<Feature>, n: nat): seq<Link>
    requires n <= |feats|
  {
    if n == 0 then []
    else Links(dist, feats, n - 1) +
         if feats[n - 1].Other? then [] else LinesLinks(dist, feats[n - 1], |feats[n - 1].lines|)
  }

  // The edge is what the link asks for.
  predicate Serves(net: Net, e: Edge, k: Link) {
    && 0 <= e.from < |net.nodes| && 0 <= e.to < |net.nodes|
    && KeyOf(net.nodes[e.from].pt, net.nodes[e.from].level) == k.a
    && KeyOf(net.nodes[e.to].pt, net.nodes[e.to].level) == k.b
    && e.lengthM == k.lengthM && e.speedMS == k.speedMS && e.durationS == k.durationS
  }

  // The edges serve the links, one each and in order.
  predicate ServesAll(net: Net, links: seq<Link>) {
    |net.edges| == |links| && forall i :: 0 <= i < |links| ==> Serves(net, net.edges[i], links[i])
  }

  lemma NodeAtServes(net: Net, p: Point, level: int, links: seq<Link>)
    requires Good(net) && ServesAll(net, links)
    ensures ServesAll(NodeAt(net, p, level).0, links)
  {
    hide KeyOf, IndexOk;
    NodeAtIsGood(net, p, level);
    var net' := NodeAt(net, p, level).0;
    forall i | 0 <= i < |links|
      ensures Serves(net', net'.edges[i], links[i])
    {
      assert Serves(net, net.edges[i], links[i]);
    }
  }

  lemma AddEdgeServes(net: Net, links: seq<Link>, e: Edge, k: Link)
    requires ServesAll(net, links) && Serves(net, e, k)
    ensures ServesAll(AddEdge(net, e), links + [k])
  {
    hide KeyOf;
    var net' := AddEdge(net, e);
    forall i | 0 <= i < |links| + 1
      ensures Serves(net', net'.edges[i], (links + [k])[i])
    {
      if i < |links| {
        assert Serves(net, net.edges[i], links[i]);
      }
    }
  }

  lemma AddBothServes(net: Net, links: seq<Link>, n1: int, n2: int, k: Link, oneway: bool)
    requires ServesAll(net, links) && k.a != k.b
    requires Serves(net, Edge(n1, n2, k.lengthM, k.speedMS, k.durationS), k)
    ensures ServesAll(AddBoth(net, n1, n2, k.lengthM, k.speedMS, k.durationS, oneway), links + Ways(k, oneway))
  {
    hide KeyOf, ServesAll;
    var there, back := Edge(n1, n2, k.lengthM, k.speedMS, k.durationS), Edge(n2, n1, k.lengthM, k.speedMS, k.durationS);
    AddEdgeServes(net, links, there, k);
    if !oneway {
      AddEdgeServes(AddEdge(net, there), links + [k], back, k.Reversed());
      assert links + [k] + [k.Reversed()] == links + Ways(k, oneway);
    }
  }

  // Between the nodes of two points.
  lemma AddBetweenServes(net: Net, links: seq<Link>, p: Point, lp: int, q: Point, lq: int, k: Link, oneway: bool)
    requires Good(net) && ServesAll(net, links) && k.a == KeyOf(p, lp) && k.b == KeyOf(q, lq)
    ensures
      var (net1, n1) := NodeAt(net, p, lp);
      var (net2, n2) := NodeAt(net1, q, lq);
      && (n1 == n2 <==> k.a == k.b)
      && ServesAll(if n1 == n2 then net2 else AddBoth(net2, n1, n2, k.lengthM, k.speedMS, k.durationS, oneway),
                   links + Ways(k, oneway))
  {
    hide KeyOf, ServesAll, Good, NodeAt, AddBoth;
    SharedNodeIff(net, p, lp, q, lq);
    NodeAtIsGood(net, p, lp);
    NodeAtServes(net, p, lp, links);
    var (net1, n1) := NodeAt(net, p, lp);
    NodeAtIsGood(net1, q, lq);
    NodeAtServes(net1, q, lq, links);
    var (net2, n2) := NodeAt(net1, q, lq);
    if n1 != n2 {
      assert net2.nodes[n1] == net1.nodes[n1];
      AddBothServes(net2, links, n1, n2, k, oneway);
    } else {
      assert links + [] == links;
    }
  }

  lemma {:induction false} LengthOfWay(dist: Distance, ln: seq<Point>, n: nat)
    requires n < |ln|
    ensures LineLength(dist, ln, n) == WayLength(dist, ln[..n + 1])
  {
    if n > 0 {
      LengthOfWay(dist, ln, n - 1);
      WayEndsWith(dist, ln[..n], ln[n]);
      assert ln[..n] + [ln[n]] == ln[..n + 1];
    }
  }

  lemma {:induction false} WayEndsWith(dist: Distance, ln: seq<Point>, p: Point)
    requires ln != []
    ensures WayLength(dist, ln + [p]) == WayLength(dist, ln) + dist(ln[|ln| - 1], p)
  {
    if |ln| > 1 {
      WayEndsWith(dist, ln[1..], p);
      assert (ln + [p])[1..] == ln[1..] + [p];
    } else {
      assert (ln + [p])[1..] == [p];
    }
  }

  lemma {:induction false} AddSegmentsServes(dist: Distance, net: Net, links: seq<Link>, f: Feature, ln: seq<Point>,
                                             n: nat)
    requires Metric(dist) && Good(net) && ServesAll(net, links) && f.Street? && f.speedMS > 0.0 && (n < |ln| || n == 0)
    ensures ServesAll(AddSegments(dist, net, ln, n, f.level, f.speedMS, f.oneway), links + StreetLinks(dist, f, ln, n))
  {
    hide Metric, Good, ServesAll, KeyOf, Ways, NodeAt, AddBoth;
    if n == 0 {
      assert links + [] == links;
    } else {
      var front := StreetLinks(dist, f, ln, n - 1);
      AddSegmentsServes(dist, net, links, f, ln, n - 1);
      AddSegmentsIsGood(dist, net, ln, n - 1, f.level, f.speedMS, f.oneway);
      var k := StreetLink(dist, f, ln[n - 1], ln[n]);
      AddBetweenServes(AddSegments(dist, net, ln, n - 1, f.level, f.speedMS, f.oneway), links + front,
                       ln[n - 1], f.level, ln[n], f.level, k, f.oneway);
      assert links + front + Ways(k, f.oneway) == links + (front + Ways(k, f.oneway));
    }
  }

  lemma AddLineServes(dist: Distance, net: Net, links: seq<Link>, f: Feature, ln: seq<Point>)
    requires Metric(dist) && Good(net) && ServesAll(net, links) && !f.Other? && f.speedMS > 0.0
    ensures ServesAll(AddLine(dist, net, f, ln), links + LineLinks(dist, f, ln))
  {
    hide Metric, Good, ServesAll, KeyOf, Ways, NodeAt, AddBoth, AddSegments, StreetLinks;
    if f.Street? {
      AddSegmentsServes(dist, net, links, f, ln, if |ln| == 0 then 0 else |ln| - 1);
    } else if |ln| < 2 {
      assert links + [] == links;
    } else {
      LengthOfWay(dist, ln, |ln| - 1);
      assert ln[..|ln|] == ln;
      AddBetweenServes(net, links, ln[0], f.from, ln[|ln| - 1], f.to, ConnectorLink(dist, f, ln), f.oneway);
    }
  }

  lemma {:induction false} AddLinesServes(dist: Distance, net: Net, links: seq<Link>, f: Feature, n: nat)
    requires Metric(dist) && Good(net) && ServesAll(net, links) && !f.Other? && f.speedMS > 0.0 && n <= |f.lines|
    ensures ServesAll(AddLines(dist, net, f, n), links + LinesLinks(dist, f, n))
  {
    hide Metric, Good, ServesAll, AddLine, LineLinks;
    if n == 0 {
      assert links + [] == links;
    } else {
      var front, last := LinesLinks(dist, f, n - 1), LineLinks(dist, f, f.lines[n - 1]);
      AddLinesServes(dist, net, links, f, n - 1);
      AddLinesIsGood(dist, net, f, n - 1);
      AddLineServes(dist, AddLines(dist, net, f, n - 1), links + front, f, f.lines[n - 1]);
      assert links + front + last == links + (front + last);
    }
  }

  // The network has exactly the edges that its features ask for, in their order.
  lemma {:induction false} AddFeaturesServes(dist: Distance, feats: seq<Feature>, n: nat)
    requires Metric(dist) && n <= |feats| && forall i :: 0 <= i < |feats| && !feats[i].Other? ==> feats[i].speedMS > 0.0
    ensures ServesAll(AddFeatures(dist, feats, n), Links(dist, feats, n))
  {
    hide Metric, Good, ServesAll, AddLines, LinesLinks;
    if n == 0 {
      NothingServes();
    } else {
      AddFeaturesServes(dist, feats, n - 1);
      AddFeaturesIsGood(dist, feats, n - 1);
      var net, links, f := AddFeatures(dist, feats, n - 1), Links(dist, feats, n - 1), feats[n - 1];
      if f.Other? {
        assert links + [] == links;
      } else {
        AddLinesServes(dist, net, links, f, |f.lines|);
      }
    }
  }

  lemma NothingServes()
    ensures ServesAll(EMPTY, [])
  {
  }

  // ----- what that says of every feature

  // Some edge serves the link.
  ghost predicate Served(net: Net, k: Link) {
    exists e :: 0 <= e < |net.edges| && Serves(net, net.edges[e], k)
  }

  // From each point of a street to the next, and back unless it is one-way; from the first point of a
  // connector to the last, and back unless it is one-way.
  ghost predicate LineIsThere(dist: Distance, net: Net, f: Feature, ln: seq<Point>)
    requires !f.Other?
  {
    match f
    case Street(_, level, speedMS, oneway) =>
      forall i :: 0 < i < |ln| ==> StretchIsThere(dist, net, ln[i - 1], ln[i], level, speedMS, oneway)
    case Connector(_, from, to, speedMS, durationS, oneway) =>
      |ln| >= 2 && KeyOf(ln[0], from) != KeyOf(ln[|ln| - 1], to) ==>
        var length := WayLength(dist, ln);
        var duration := if durationS == 0.0 && length == 0.0 then 30.0 else durationS;
        && Served(net, Link(KeyOf(ln[0], from), KeyOf(ln[|ln| - 1], to), length, speedMS, duration))
        && (oneway || Served(net, Link(KeyOf(ln[|ln| - 1], to), KeyOf(ln[0], from), length, speedMS, duration)))
  }

  ghost predicate StretchIsThere(dist: Distance, net: Net, p: Point, q: Point, level: int, speedMS: real,
                                 oneway: bool) {
    KeyOf(p, level) != KeyOf(q, level) ==>
      && Served(net, Link(KeyOf(p, level), KeyOf(q, level), dist(p, q), speedMS, 0.0))
      && (oneway || Served(net, Link(KeyOf(q, level), KeyOf(p, level), dist(p, q), speedMS, 0.0)))
  }

  ghost predicate AllIsThere(dist: Distance, feats: seq<Feature>, net: Net) {
    forall i, j :: 0 <= i < |feats| && !feats[i].Other? && 0 <= j < |feats[i].lines| ==>
      LineIsThere(dist, net, feats[i], feats[i].lines[j])
  }

  // The link is one of the line's: along one of its stretches, or between the ends of a connector, and
  // backwards only if the feature is not one-way.
  ghost predicate AsksFor(dist: Distance, f: Feature, ln: seq<Point>, k: Link)
    requires !f.Other?
  {
    k.a != k.b &&
    match f
    case Street(_, level, speedMS, oneway) =>
      k.speedMS == speedMS && k.durationS == 0.0 &&
      exists i :: 0 < i < |ln| && StretchAsksFor(dist, ln[i - 1], ln[i], level, oneway, k)
    case Connector(_, from, to, speedMS, durationS, oneway) =>
      && |ln| >= 2 && k.speedMS == speedMS && k.lengthM == WayLength(dist, ln)
      && k.durationS == (if durationS == 0.0 && WayLength(dist, ln) == 0.0 then 30.0 else durationS)
      && ((k.a == KeyOf(ln[0], from) && k.b == KeyOf(ln[|ln| - 1], to)) ||
          (!oneway && k.a == KeyOf(ln[|ln| - 1], to) && k.b == KeyOf(ln[0], from)))
  }

  ghost predicate StretchAsksFor(dist: Distance, p: Point, q: Point, level: int, oneway: bool, k: Link) {
    var a, b := KeyOf(p, level), KeyOf(q, level);
    k.lengthM == dist(p, q) && ((k.a == a && k.b == b) || (!oneway && k.a == b && k.b == a))
  }

  // Some line of some feature asks for the link.
  ghost predicate AskedFor(dist: Distance, feats: seq<Feature>, k: Link) {
    exists i, j :: 0 <= i < |feats| && !feats[i].Other? && 0 <= j < |feats[i].lines| &&
                   AsksFor(dist, feats[i], feats[i].lines[j], k)
  }

  // Every edge is asked for by a line of a feature.
  ghost predicate NothingElse(dist: Distance, feats: seq<Feature>, net: Net) {
    forall e :: 0 <= e < |net.edges| ==>
      exists k :: AskedFor(dist, feats, k) && Serves(net, net.edges[e], k)
  }

  lemma {:induction false} StreetLinksAre(dist: Distance, f: Feature, ln: seq<Point>, n: nat, k: Link)
    requires f.Street? && (n < |ln| || n == 0)
    ensures k in StreetLinks(dist, f, ln, n) <==>
            exists i :: 0 < i <= n && k in Ways(StreetLink(dist, f, ln[i - 1], ln[i]), f.oneway)
  {
    hide StreetLink, Ways;
    if n > 0 {
      StreetLinksAre(dist, f, ln, n - 1, k);
    }
  }

  lemma {:induction false} LinesLinksAre(dist: Distance, f: Feature, n: nat, k: Link)
    requires !f.Other? && n <= |f.lines|
    ensures k in LinesLinks(dist, f, n) <==> exists j :: 0 <= j < n && k in LineLinks(dist, f, f.lines[j])
  {
    hide LineLinks;
    if n > 0 {
      LinesLinksAre(dist, f, n - 1, k);
    }
  }

  ghost predicate LinkOf(dist: Distance, feats: seq<Feature>, i: int, k: Link) {
    0 <= i < |feats| && !feats[i].Other? && k in LinesLinks(dist, feats[i], |feats[i].lines|)
  }

  lemma {:induction false} LinksAre(dist: Distance, feats: seq<Feature>, n: nat, k: Link)
    requires n <= |feats|
    ensures k in Links(dist, feats, n) <==> exists i :: 0 <= i < n && LinkOf(dist, feats, i, k)
  {
    hide LinesLinks;
    if n > 0 {
      LinksAre(dist, feats, n - 1, k);
      assert k in Links(dist, feats, n) <==> k in Links(dist, feats, n - 1) || LinkOf(dist, feats, n - 1, k);
    }
  }

  lemma LineAsks(dist: Distance, f: Feature, ln: seq<Point>, k: Link)
    requires !f.Other? && k in LineLinks(dist, f, ln)
    ensures AsksFor(dist, f, ln, k)
  {
    hide KeyOf, WayLength, StretchAsksFor;
    if f.Street? {
      hide StreetLink, Ways;
      var n := if |ln| == 0 then 0 else |ln| - 1;
      StreetLinksAre(dist, f, ln, n, k);
      var i :| 0 < i <= n && k in Ways(StreetLink(dist, f, ln[i - 1], ln[i]), f.oneway);
      StretchAsks(dist, f, ln[i - 1], ln[i], k);
    }
  }

  lemma StretchAsks(dist: Distance, f: Feature, p: Point, q: Point, k: Link)
    requires f.Street? && k in Ways(StreetLink(dist, f, p, q), f.oneway)
    ensures StretchAsksFor(dist, p, q, f.level, f.oneway, k)
    ensures k.a != k.b && k.speedMS == f.speedMS && k.durationS == 0.0
  {
    hide KeyOf;
  }

  lemma LinkIsServed(net: Net, links: seq<Link>, k: Link)
    requires ServesAll(net, links) && k in links
    ensures Served(net, k)
  {
    hide Serves;
    var i :| 0 <= i < |links| && links[i] == k;
    assert Serves(net, net.edges[i], k);
  }

  lemma LineIsServed(dist: Distance, net: Net, links: seq<Link>, f: Feature, ln: seq<Point>)
    requires ServesAll(net, links) && !f.Other? && forall k :: k in LineLinks(dist, f, ln) ==> k in links
    ensures LineIsThere(dist, net, f, ln)
  {
    hide KeyOf, WayLength, Serves, ServesAll, Served;
    if f.Street? {
      forall i | 0 < i < |ln|
        ensures StretchIsThere(dist, net, ln[i - 1], ln[i], f.level, f.speedMS, f.oneway)
      {
        var k := StreetLink(dist, f, ln[i - 1], ln[i]);
        StreetLinksAre(dist, f, ln, |ln| - 1, k);
        StreetLinksAre(dist, f, ln, |ln| - 1, k.Reversed());
        if k.a != k.b {
          WaysHold(k, f.oneway);
          LinkIsServed(net, links, k);
          if !f.oneway {
            LinkIsServed(net, links, k.Reversed());
          }
        }
      }
    } else if |ln| >= 2 {
      var k := ConnectorLink(dist, f, ln);
      if k.a != k.b {
        WaysHold(k, f.oneway);
        LinkIsServed(net, links, k);
        if !f.oneway {
          LinkIsServed(net, links, k.Reversed());
        }
      }
    }
  }

  lemma WaysHold(k: Link, oneway: bool)
    requires k.a != k.b
    ensures k in Ways(k, oneway) && (!oneway ==> k.Reversed() in Ways(k, oneway))
  {
  }

  lemma AllAreServed(dist: Distance, feats: seq<Feature>, net: Net)
    requires ServesAll(net, Links(dist, feats, |feats|))
    ensures AllIsThere(dist, feats, net)
  {
    hide LineIsThere, ServesAll, LineLinks, LinesLinks, Links;
    var links := Links(dist, feats, |feats|);
    forall i, j | 0 <= i < |feats| && !feats[i].Other? && 0 <= j < |feats[i].lines|
      ensures LineIsThere(dist, net, feats[i], feats[i].lines[j])
    {
      forall k | k in LineLinks(dist, feats[i], feats[i].lines[j])
        ensures k in links
      {
        LinesLinksAre(dist, feats[i], |feats[i].lines|, k);
        LinksAre(dist, feats, |feats|, k);
        assert LinkOf(dist, feats, i, k);
      }
      LineIsServed(dist, net, links, feats[i], feats[i].lines[j]);
    }
  }

  lemma OnlyLinksAreServed(dist: Distance, feats: seq<Feature>, net: Net)
    requires ServesAll(net, Links(dist, feats, |feats|))
    ensures NothingElse(dist, feats, net)
  {
    hide AskedFor, Serves, Links;
    var links := Links(dist, feats, |feats|);
    forall e | 0 <= e < |net.edges|
      ensures exists k :: AskedFor(dist, feats, k) && Serves(net, net.edges[e], k)
    {
      var k := links[e];
      assert k in links;
      LinkIsAskedFor(dist, feats, k);
      assert Serves(net, net.edges[e], k);
    }
  }

  lemma ServedMeans(dist: Distance, feats: seq<Feature>, net: Net)
    requires ServesAll(net, Links(dist, feats, |feats|))
    ensures AllIsThere(dist, feats, net) && NothingElse(dist, feats, net)
  {
    hide AllIsThere, NothingElse, ServesAll, Links;
    AllAreServed(dist, feats, net);
    OnlyLinksAreServed(dist, feats, net);
  }

  lemma LinkIsAskedFor(dist: Distance, feats: seq<Feature>, k: Link)
    requires k in Links(dist, feats, |feats|)
    ensures AskedFor(dist, feats, k)
  {
    hide AsksFor, LineLinks, LinesLinks, Links;
    LinksAre(dist, feats, |feats|, k);
    var i :| 0 <= i < |feats| && LinkOf(dist, feats, i, k);
    LinesLinksAre(dist, feats[i], |feats[i].lines|, k);
    var j :| 0 <= j < |feats[i].lines| && k in LineLinks(dist, feats[i], feats[i].lines[j]);
    LineAsks(dist, feats[i], feats[i].lines[j], k);
  }

  // So there is an edge for a link exactly when some line of some feature asks for it.
  lemma ServedIff(dist: Distance, feats: seq<Feature>, net: Net, k: Link)
    requires AllIsThere(dist, feats, net) && NothingElse(dist, feats, net)
    ensures Served(net, k) <==> AskedFor(dist, feats, k)
  {
    hide KeyOf, WayLength;
    if Served(net, k) {
      var e :| 0 <= e < |net.edges| && Serves(net, net.edges[e], k);
      var k' :| AskedFor(dist, feats, k') && Serves(net, net.edges[e], k');
      assert k == k';
    }
    if AskedFor(dist, feats, k) {
      AskedIsServed(dist, feats, net, k);
    }
  }

  lemma AskedIsServed(dist: Distance, feats: seq<Feature>, net: Net, k: Link)
    requires AllIsThere(dist, feats, net) && AskedFor(dist, feats, k)
    ensures Served(net, k)
  {
    hide LineIsThere, AsksFor, Served;
    var i, j :| 0 <= i < |feats| && !feats[i].Other? && 0 <= j < |feats[i].lines| &&
                AsksFor(dist, feats[i], feats[i].lines[j], k);
    LineServes(dist, net, feats[i], feats[i].lines[j], k);
  }

  lemma LineServes(dist: Distance, net: Net, f: Feature, ln: seq<Point>, k: Link)
    requires !f.Other? && LineIsThere(dist, net, f, ln) && AsksFor(dist, f, ln, k)
    ensures Served(net, k)
  {
    hide KeyOf, WayLength, Served, StretchIsThere, StretchAsksFor;
    if f.Street? {
      var n :| 0 < n < |ln| && StretchAsksFor(dist, ln[n - 1], ln[n], f.level, f.oneway, k);
      StretchServes(dist, net, ln[n - 1], ln[n], f.level, f.speedMS, f.oneway, k);
    }
  }

  lemma StretchServes(dist: Distance, net: Net, p: Point, q: Point, level: int, speedMS: real, oneway: bool, k: Link)
    requires StretchIsThere(dist, net, p, q, level, speedMS, oneway) && StretchAsksFor(dist, p, q, level, oneway, k)
    requires k.a != k.b && k.speedMS == speedMS && k.durationS == 0.0
    ensures Served(net, k)
  {
    hide KeyOf, Served;
  }

  // ----- the builder

  class Builder {
    var nodes: seq<Node>
    var edges: seq<Edge>
    var index: map<Key, int>
    var maxSpeedMS: real

    function View(): Net
      reads this
    {
      Net(nodes, edges, index, maxSpeedMS)
    }

    constructor ()
      ensures View() == EMPTY
    {
      nodes, edges, index, maxSpeedMS := [], [], map[], 0.0;
    }

    method NodeId(p: Point, level: int) returns (id: int)
      modifies this
      ensures (View(), id) == NodeAt(old(View()), p, level)
    {
      var key := KeyOf(p, level);
      if key in index {
        return index[key];
      }
      id := |nodes|;
      nodes := nodes + [Node(p, level)];
      index := index[key := id];
    }

    method Append(e: Edge)
      modifies this
      ensures View() == AddEdge(old(View()), e)
    {
      edges := edges + [e];
      if e.speedMS > maxSpeedMS {
        maxSpeedMS := e.speedMS;
      }
    }

    method Segment(dist: Distance, p1: Point, p2: Point, level: int, speedMS: real, durationS: real, oneway: bool)
      modifies this
      ensures View() == AddSegment(dist, old(View()), p1, p2, level, speedMS, durationS, oneway)
    {
      var n1 := NodeId(p1, level);
      var n2 := NodeId(p2, level);
      if n1 == n2 {
        return;
      }
      var length := dist(p1, p2);
      Append(Edge(n1, n2, length, speedMS, durationS));
      if !oneway {
        Append(Edge(n2, n1, length, speedMS, durationS));
      }
    }

    method Bridge(dist: Distance, ln: seq<Point>, from: int, to: int, speedMS: real, durationS: real, oneway: bool)
      requires |ln| >= 2
      modifies this
      ensures View() == AddConnector(dist, old(View()), ln, from, to, speedMS, durationS, oneway)
    {
      var n1 := NodeId(ln[0], from);
      var n2 := NodeId(ln[|ln| - 1], to);
      if n1 == n2 {
        return;
      }
      var length := 0.0;
      for i := 0 to |ln| - 1
        invariant length == LineLength(dist, ln, i)
      {
        length := length + dist(ln[i], ln[i + 1]);
      }
      var duration := durationS;
      if length == 0.0 && durationS == 0.0 {
        duration := 30.0;
      }
      Append(Edge(n1, n2, length, speedMS, duration));
      if !oneway {
        Append(Edge(n2, n1, length, speedMS, duration));
      }
    }

    method Line(dist: Distance, f: Feature, ln: seq<Point>)
      requires !f.Other?
      modifies this
      ensures View() == AddLine(dist, old(View()), f, ln)
    {
      if f.Connector? {
        if |ln| >= 2 {
          Bridge(dist, ln, f.from, f.to, f.speedMS, f.durationS, f.oneway);
        }
        return;
      }
      var i := 0;
      while i + 1 < |ln|
        invariant 0 <= i && (i < |ln| || i == 0)
        invariant View() == AddSegments(dist, old(View()), ln, i, f.level, f.speedMS, f.oneway)
      {
        Segment(dist, ln[i], ln[i + 1], f.level, f.speedMS, 0.0, f.oneway);
        i := i + 1;
      }
    }
  }

  // Edge e is one of the first n edges and leaves u.
  predicate Leaves(net: Net, n: int, u: int, e: int) {
    0 <= e < n && e < |net.edges| && net.edges[e].from == u
  }

  // buildIndexes: every edge is listed, once, under the node it leaves.
  method BuildIndexes(net: Net) returns (adj: seq<seq<int>>)
    requires Good(net)
    ensures Indexed(GraphOf(net, adj))
  {
    adj := seq(|net.nodes|, _ => []);
    for i := 0 to |net.edges|
      invariant |adj| == |net.nodes|
      invariant forall u, e :: 0 <= u < |adj| ==> (e in adj[u] <==> Leaves(net, i, u, e))
      invariant forall u, a, b :: 0 <= u < |adj| && 0 <= a < b < |adj[u]| ==> adj[u][a] != adj[u][b]
    {
      var from := net.edges[i].from;
      assert EdgeOk(net, net.edges[i]);
      assert i !in adj[from];
      adj := adj[from := adj[from] + [i]];
    }
    ghost var g := GraphOf(net, adj);
    forall e | IsEdge(g, e)
      ensures IsNode(g, g.edges[e].from) && IsNode(g, g.edges[e].to)
    {
      assert EdgeOk(net, net.edges[e]);
    }
    forall u, e | IsNode(g, u)
      ensures e in g.adj[u] <==> IsEdge(g, e) && g.edges[e].from == u
    {
      assert e in adj[u] <==> Leaves(net, |net.edges|, u, e);
    }
  }

  datatype Built = Cancelled | NoEdges | Built(net: Net, g: Graph)

  // Build: the network has the edges that the features ask for and no others, each once and in their
  // order, and its graph is indexed; when its points are separate no edge is shorter than the distance
  // between its nodes. It fails only when the context is cancelled or no feature asks for an edge.
  method Build(dist: Distance, feats: seq<Feature>, ctxErr: nat -> bool) returns (r: Built)
    requires Metric(dist) && forall i :: 0 <= i < |feats| && !feats[i].Other? ==> feats[i].speedMS > 0.0
    ensures r.Cancelled? ==> exists k :: ctxErr(k)
    ensures r.NoEdges? ==> AddFeatures(dist, feats, |feats|).edges == [] && forall k :: !AskedFor(dist, feats, k)
    ensures r.Built? ==>
      && r.net == AddFeatures(dist, feats, |feats|) && r.net.edges != [] && Good(r.net)
      && r.g.n == |r.net.nodes| && r.g.edges == r.net.edges && Indexed(r.g)
    ensures r.Built? ==>
      forall points :: Separate(points) && (forall i :: 0 <= i < |feats| ==> FeatureOk(points, feats[i])) ==>
              Exact(dist, points, r.net)
    ensures r.Built? ==> ServesAll(r.net, Links(dist, feats, |feats|))
    ensures r.Built? ==> AllIsThere(dist, feats, r.net) && NothingElse(dist, feats, r.net)
  {
    hide Metric, Separate, Exact, Good, FeatureOk, ServesAll, AllIsThere, NothingElse, AskedFor, Links;
    var b := new Builder();
    for i := 0 to |feats|
      invariant b.View() == AddFeatures(dist, feats, i)
    {
      if i % CANCEL_CHECK_INTERVAL == 0 && ctxErr(i / CANCEL_CHECK_INTERVAL) {
        return Cancelled;
      }
      var f := feats[i];
      if f.Other? {
        continue;
      }
      for j := 0 to |f.lines|
        invariant b.View() == AddLines(dist, AddFeatures(dist, feats, i), f, j)
      {
        b.Line(dist, f, f.lines[j]);
      }
    }
    AddFeaturesIsGood(dist, feats, |feats|);
    AddFeaturesServes(dist, feats, |feats|);
    var net := b.View();
    ServedMeans(dist, feats, net);
    if |net.edges| == 0 {
      forall k
        ensures !AskedFor(dist, feats, k)
      {
        ServedIff(dist, feats, net, k);
      }
      return NoEdges;
    }
    forall points | Separate(points) && forall i :: 0 <= i < |feats| ==> FeatureOk(points, feats[i])
      ensures Exact(dist, points, net)
    {
      AddFeaturesIsExact(dist, points, feats, |feats|);
    }
    var adj := BuildIndexes(net);
    return Built(net, GraphOf(net, adj));
  }
}
