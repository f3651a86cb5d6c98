/** Dijkstra, A* and path reconstruction: internal/algo/network/search.go. */
module Search {
  import opened Numbers
  import opened Paths

  // ----- the priority queue

  datatype Item = Item(node: int, prio: real)

  ghost predicate IsMin(q: multiset<Item>, it: Item) {
    it in q && forall other :: other in q ==> it.prio <= other.prio
  }

  lemma MinExists(q: multiset<Item>) returns (it: Item)
    requires |q| > 0
    ensures IsMin(q, it)
  {
    var some :| some in q;
    if q == multiset{some} {
      it := some;
    } else {
      var rest := q - multiset{some};
      assert q == rest + multiset{some};
      it := MinExists(rest);
      if some.prio < it.prio {
        it := some;
      }
      forall other | other in q
        ensures it.prio <= other.prio
      {
        assert other == some || other in rest;
      }
    }
  }

  // heap.Pop: removes an item of least priority; which one among equals is not specified.
  method PopMin(q: multiset<Item>) returns (it: Item, rest: multiset<Item>)
    requires |q| > 0
    ensures IsMin(q, it) && rest == q - multiset{it} && |rest| == |q| - 1
  {
    ghost var least := MinExists(q);
    it :| it in q && forall other :: other in q ==> it.prio <= other.prio;
    rest := q - multiset{it};
  }

  // ----- labels

  // The labels of a search: costs, incoming edges (-1 for none), and, for the proof only, the
  // moment of each node's last change.
  datatype Labels = Labels(cost: seq<Cost>, prev: seq<int>, stamp: seq<int>)

  predicate Sized(g: Graph, l: Labels) {
    |l.cost| == |l.prev| == |l.stamp| == g.n
  }

  predicate Less(c: real, x: Cost) {
    x.Inf? || c < x.v
  }

  // The label of v is no less than the label at the other end of its incoming edge plus the
  // cost of the edge, and where the two are equal v was labelled later.
  ghost predicate BackLinked(g: Graph, cost: seq<real>, l: Labels, v: int)
    requires Sized(g, l) && |cost| == |g.edges| && IsNode(g, v)
  {
    l.prev[v] >= 0 ==>
      && IsEdge(g, l.prev[v])
      && g.edges[l.prev[v]].to == v
      && var u := g.edges[l.prev[v]].from;
         && IsNode(g, u) && l.cost[v].Fin? && l.cost[u].Fin?
         && l.cost[v].v >= l.cost[u].v + cost[l.prev[v]]
         && (l.cost[v].v > l.cost[u].v || l.stamp[v] > l.stamp[u])
  }

  ghost predicate Rooted(g: Graph, seeds: seq<Seed>, cutoff: real, l: Labels, v: int)
    requires Sized(g, l) && IsNode(g, v)
  {
    && (l.cost[v].Fin? && l.prev[v] < 0 ==> exists k :: 0 <= k < |seeds| && seeds[k] == Seed(v, l.cost[v].v))
    && (l.cost[v].Fin? && l.prev[v] >= 0 ==> Within(cutoff, l.cost[v].v))
  }

  // What holds of the labels at every moment of every search, for any heuristic.
  ghost predicate LabelsOk(g: Graph, cost: seq<real>, seeds: seq<Seed>, cutoff: real, l: Labels, clock: int) {
    && |cost| == |g.edges|
    && Sized(g, l)
    && (forall v :: IsNode(g, v) ==> Sound(g, cost, seeds, v, l.cost[v]))
    && (forall v :: IsNode(g, v) ==> BackLinked(g, cost, l, v))
    && (forall v :: IsNode(g, v) ==> Rooted(g, seeds, cutoff, l, v))
    && (forall v :: IsNode(g, v) ==> l.stamp[v] < clock)
  }

  function Relabel(l: Labels, v: int, c: real, e: int, clock: int): Labels
    requires 0 <= v < |l.cost| == |l.prev| == |l.stamp|
  {
    Labels(l.cost[v := Fin(c)], l.prev[v := e], l.stamp[v := clock])
  }

  lemma SoundOn(g: Graph, cost: seq<real>, seeds: seq<Seed>, e: int, x: Cost)
    requires IsEdge(g, e) && Sound(g, cost, seeds, g.edges[e].from, x) && x.Fin? && |cost| == |g.edges|
    ensures Sound(g, cost, seeds, g.edges[e].to, Fin(x.v + cost[e]))
  {
    var k, p :| SeedWalk(g, cost, seeds, k, p, g.edges[e].from, x.v);
    WalkOn(g, cost, seeds, k, p, e, x.v);
  }

  // An improvement along edge e.
  ghost predicate Improves(g: Graph, cost: seq<real>, cutoff: real, l: Labels, e: int, c: real)
    requires Sized(g, l) && |cost| == |g.edges|
  {
    && IsEdge(g, e) && IsNode(g, g.edges[e].from) && IsNode(g, g.edges[e].to)
    && l.cost[g.edges[e].from].Fin?
    && c == l.cost[g.edges[e].from].v + cost[e]
    && Within(cutoff, c)
    && Less(c, l.cost[g.edges[e].to])
  }

  lemma ImproveLabels(g: Graph, cost: seq<real>, seeds: seq<Seed>, cutoff: real, l: Labels, clock: int, e: int, c: real)
    requires LabelsOk(g, cost, seeds, cutoff, l, clock) && NonNegative(g, cost)
    requires Improves(g, cost, cutoff, l, e, c)
    ensures LabelsOk(g, cost, seeds, cutoff, Relabel(l, g.edges[e].to, c, e, clock), clock + 1)
  {
    var v, u := g.edges[e].to, g.edges[e].from;
    var l' := Relabel(l, v, c, e, clock);
    SoundOn(g, cost, seeds, e, l.cost[u]);
    forall w | IsNode(g, w)
      ensures BackLinked(g, cost, l', w) && Rooted(g, seeds, cutoff, l', w)
    {
      assert BackLinked(g, cost, l, w) && Rooted(g, seeds, cutoff, l, w);
    }
  }

  // ----- the frontier

  // The heuristic never drops along an edge by more than the edge costs.
  ghost predicate Consistent(g: Graph, cost: seq<real>, h: seq<real>) {
    && |h| == g.n && |cost| == |g.edges|
    && (forall e :: IsEdge(g, e) && IsNode(g, g.edges[e].from) && IsNode(g, g.edges[e].to) ==>
          h[g.edges[e].from] <= cost[e] + h[g.edges[e].to])
  }

  // The label at the far end of e is no worse than going along e.
  ghost predicate Relaxed(g: Graph, cost: seq<real>, cutoff: real, c: seq<Cost>, e: int)
    requires |cost| == |g.edges| && |c| == g.n
  {
    && IsEdge(g, e) && IsNode(g, g.edges[e].from) && IsNode(g, g.edges[e].to)
    && c[g.edges[e].from].Fin?
    && (Within(cutoff, c[g.edges[e].from].v + cost[e]) ==>
          AtMost(c[g.edges[e].to], c[g.edges[e].from].v + cost[e]))
  }

  // The proof's view of a search: the settled nodes, the edges relaxed so far, and the node that
  // is being expanded (-1 for none).
  datatype Progress = Progress(settled: set<int>, relaxed: set<int>, current: int)

  ghost predicate QueueOk(g: Graph, h: seq<real>, c: seq<Cost>, q: multiset<Item>, s: set<int>)
    requires |h| == g.n && |c| == g.n
  {
    && (forall it :: it in q ==> IsNode(g, it.node) && AtMost(c[it.node], it.prio - h[it.node]))
    && (forall v :: IsNode(g, v) && c[v].Fin? && v !in s ==> Item(v, c[v].v + h[v]) in q)
  }

  ghost predicate SettledOk(g: Graph, h: seq<real>, c: seq<Cost>, q: multiset<Item>, s: set<int>)
    requires |h| == g.n && |c| == g.n
  {
    && (forall u :: u in s ==> IsNode(g, u) && c[u].Fin?)
    && (forall u, it :: u in s && it in q ==> c[u].v + h[u] <= it.prio)
  }

  ghost predicate RelaxedOk(g: Graph, cost: seq<real>, cutoff: real, c: seq<Cost>, pr: Progress)
    requires |cost| == |g.edges| && |c| == g.n
  {
    && (forall e :: e in pr.relaxed ==> Relaxed(g, cost, cutoff, c, e) && g.edges[e].from in pr.settled)
    && (forall e :: IsEdge(g, e) && g.edges[e].from in pr.settled && g.edges[e].from != pr.current ==> e in pr.relaxed)
  }

  ghost predicate SeedsOk(g: Graph, seeds: seq<Seed>, c: seq<Cost>)
    requires |c| == g.n
  {
    forall k :: 0 <= k < |seeds| ==> IsNode(g, seeds[k].node) && AtMost(c[seeds[k].node], seeds[k].cost)
  }

  // What holds of queue and labels while the heuristic is consistent.
  ghost predicate Frontier(g: Graph, cost: seq<real>, h: seq<real>, seeds: seq<Seed>, cutoff: real,
                           c: seq<Cost>, q: multiset<Item>, pr: Progress) {
    && |cost| == |g.edges| && |h| == g.n && |c| == g.n
    && SeedsOk(g, seeds, c)
    && QueueOk(g, h, c, q, pr.settled)
    && SettledOk(g, h, c, q, pr.settled)
    && RelaxedOk(g, cost, cutoff, c, pr)
  }

  // The current node is settled, as late as any settled node and no later than any queued item.
  ghost predicate Foremost(g: Graph, h: seq<real>, c: seq<Cost>, q: multiset<Item>, pr: Progress)
    requires |h| == g.n && |c| == g.n
  {
    && IsNode(g, pr.current) && c[pr.current].Fin? && pr.current in pr.settled
    && (forall it :: it in q ==> c[pr.current].v + h[pr.current] <= it.prio)
    && (forall u :: u in pr.settled && IsNode(g, u) && c[u].Fin? ==> c[u].v + h[u] <= c[pr.current].v + h[pr.current])
  }

  ghost predicate Pending(q: multiset<Item>, bound: real) {
    exists it :: it in q && it.prio <= bound
  }

  // Between expansions, every walk within the bound either is beaten by the label of its end or
  // has an item in the queue that is due no later.
  lemma {:induction false} WalkCrossesFrontier(g: Graph, cost: seq<real>, h: seq<real>, seeds: seq<Seed>, cutoff: real,
      c: seq<Cost>, q: multiset<Item>, pr: Progress, k: int, p: seq<int>, t: int, total: real)
    requires Indexed(g) && NonNegative(g, cost) && Consistent(g, cost, h)
    requires Frontier(g, cost, h, seeds, cutoff, c, q, pr) && pr.current == -1
    requires SeedWalk(g, cost, seeds, k, p, t, total) && Within(cutoff, total)
    ensures IsNode(g, t) && (AtMost(c[t], total) || Pending(q, total + h[t]))
    decreases |p|
  {
    if |p| > 0 {
      var e := p[|p| - 1];
      var u := g.edges[e].from;
      WalkCrossesFrontier(g, cost, h, seeds, cutoff, c, q, pr, k, p[..|p| - 1], u, total - cost[e]);
      if AtMost(c[u], total - cost[e]) {
        if u in pr.settled {
          assert Relaxed(g, cost, cutoff, c, e);
        } else {
          assert Item(u, c[u].v + h[u]) in q;
        }
      } else {
        var it :| it in q && it.prio <= total - cost[e] + h[u];
      }
    }
  }

  // When the least item of the queue belongs to t and carries its label, that label is final.
  lemma PoppedIsLeast(g: Graph, cost: seq<real>, h: seq<real>, seeds: seq<Seed>, cutoff: real,
                      c: seq<Cost>, q: multiset<Item>, pr: Progress, it: Item)
    requires Indexed(g) && NonNegative(g, cost) && Consistent(g, cost, h)
    requires Frontier(g, cost, h, seeds, cutoff, c, q, pr) && pr.current == -1 && IsMin(q, it)
    ensures Least(g, cost, seeds, cutoff, it.node, c[it.node])
  {
    forall k, p, total | SeedWalk(g, cost, seeds, k, p, it.node, total) && Within(cutoff, total)
      ensures AtMost(c[it.node], total)
    {
      WalkCrossesFrontier(g, cost, h, seeds, cutoff, c, q, pr, k, p, it.node, total);
    }
  }

  // When the queue is empty every label is final.
  lemma EmptyIsLeast(g: Graph, cost: seq<real>, h: seq<real>, seeds: seq<Seed>, cutoff: real,
                     c: seq<Cost>, pr: Progress, t: int)
    requires Indexed(g) && NonNegative(g, cost) && Consistent(g, cost, h) && IsNode(g, t)
    requires Frontier(g, cost, h, seeds, cutoff, c, multiset{}, pr) && pr.current == -1
    ensures Least(g, cost, seeds, cutoff, t, c[t])
  {
    forall k, p, total | SeedWalk(g, cost, seeds, k, p, t, total) && Within(cutoff, total)
      ensures AtMost(c[t], total)
    {
      WalkCrossesFrontier(g, cost, h, seeds, cutoff, c, multiset{}, pr, k, p, t, total);
    }
  }

  // An item that carries an outdated label, or a settled node, can be dropped.
  lemma DropItem(g: Graph, cost: seq<real>, h: seq<real>, seeds: seq<Seed>, cutoff: real,
                 c: seq<Cost>, q: multiset<Item>, pr: Progress, it: Item)
    requires Frontier(g, cost, h, seeds, cutoff, c, q, pr) && it in q
    requires it.node in pr.settled || (c[it.node].Fin? ==> it.prio != c[it.node].v + h[it.node])
    ensures Frontier(g, cost, h, seeds, cutoff, c, q - multiset{it}, pr)
  {
  }

  // Settling the node of the least item.
  lemma SettleNode(g: Graph, cost: seq<real>, h: seq<real>, seeds: seq<Seed>, cutoff: real,
                   c: seq<Cost>, q: multiset<Item>, pr: Progress, it: Item)
    requires Frontier(g, cost, h, seeds, cutoff, c, q, pr) && pr.current == -1 && IsMin(q, it)
    requires it.node !in pr.settled || it.prio <= c[it.node].v + h[it.node]
    ensures
      var pr' := Progress(pr.settled + {it.node}, pr.relaxed, it.node);
      && Frontier(g, cost, h, seeds, cutoff, c, q - multiset{it}, pr')
      && Foremost(g, h, c, q - multiset{it}, pr')
  {
    var u := it.node;
    assert u !in pr.settled ==> Item(u, c[u].v + h[u]) in q;
    assert c[u].v + h[u] == it.prio;
  }

  // An edge out of the current node that does not improve its far end counts as relaxed.
  lemma SkipEdge(g: Graph, cost: seq<real>, h: seq<real>, seeds: seq<Seed>, cutoff: real,
                 c: seq<Cost>, q: multiset<Item>, pr: Progress, e: int)
    requires Indexed(g) && Frontier(g, cost, h, seeds, cutoff, c, q, pr)
    requires IsEdge(g, e) && g.edges[e].from == pr.current && pr.current in pr.settled
    requires
      var sum := c[pr.current].v + cost[e];
      !(Within(cutoff, sum) && Less(sum, c[g.edges[e].to]))
    ensures Frontier(g, cost, h, seeds, cutoff, c, q, pr.(relaxed := pr.relaxed + {e}))
  {
  }

  // An edge that improves its far end leads to an unsettled node and was not relaxed before.
  lemma ImprovesUnsettled(g: Graph, cost: seq<real>, h: seq<real>, seeds: seq<Seed>, cutoff: real,
                          c: seq<Cost>, q: multiset<Item>, pr: Progress, e: int, sum: real)
    requires Consistent(g, cost, h) && Frontier(g, cost, h, seeds, cutoff, c, q, pr) && Foremost(g, h, c, q, pr)
    requires IsEdge(g, e) && g.edges[e].from == pr.current && IsNode(g, g.edges[e].to)
    requires sum == c[pr.current].v + cost[e] && Within(cutoff, sum) && Less(sum, c[g.edges[e].to])
    ensures g.edges[e].to !in pr.settled && e !in pr.relaxed
  {
  }

  lemma ImproveQueue(g: Graph, h: seq<real>, c: seq<Cost>, q: multiset<Item>, s: set<int>, v: int, sum: real)
    requires |h| == g.n && |c| == g.n && QueueOk(g, h, c, q, s) && IsNode(g, v) && Less(sum, c[v])
    ensures QueueOk(g, h, c[v := Fin(sum)], q + multiset{Item(v, sum + h[v])}, s)
  {
  }

  lemma ImproveRelaxed(g: Graph, cost: seq<real>, cutoff: real, c: seq<Cost>, pr: Progress, e: int, sum: real)
    requires NonNegative(g, cost) && |c| == g.n && RelaxedOk(g, cost, cutoff, c, pr)
    requires IsEdge(g, e) && g.edges[e].from == pr.current && IsNode(g, pr.current) && c[pr.current].Fin?
    requires pr.current in pr.settled && g.edges[e].to !in pr.settled && IsNode(g, g.edges[e].to)
    requires sum == c[pr.current].v + cost[e] && Less(sum, c[g.edges[e].to])
    ensures RelaxedOk(g, cost, cutoff, c[g.edges[e].to := Fin(sum)], pr.(relaxed := pr.relaxed + {e}))
  {
    var c' := c[g.edges[e].to := Fin(sum)];
    forall f | f in pr.relaxed
      ensures Relaxed(g, cost, cutoff, c', f)
    {
      assert Relaxed(g, cost, cutoff, c, f);
    }
    assert Relaxed(g, cost, cutoff, c', e);
  }

  lemma ImproveSettled(g: Graph, h: seq<real>, c: seq<Cost>, q: multiset<Item>, pr: Progress, v: int, sum: real, e: int)
    requires |h| == g.n && |c| == g.n && SettledOk(g, h, c, q, pr.settled) && Foremost(g, h, c, q, pr)
    requires IsNode(g, v) && v !in pr.settled && sum + h[v] >= c[pr.current].v + h[pr.current]
    ensures
      var c', q' := c[v := Fin(sum)], q + multiset{Item(v, sum + h[v])};
      SettledOk(g, h, c', q', pr.settled) && Foremost(g, h, c', q', pr.(relaxed := pr.relaxed + {e}))
  {
  }

  lemma ImproveSeeds(g: Graph, seeds: seq<Seed>, c: seq<Cost>, v: int, sum: real)
    requires |c| == g.n && SeedsOk(g, seeds, c) && IsNode(g, v) && Less(sum, c[v])
    ensures SeedsOk(g, seeds, c[v := Fin(sum)])
  {
  }

  lemma ConsistentAlong(g: Graph, cost: seq<real>, h: seq<real>, e: int)
    requires Consistent(g, cost, h) && IsEdge(g, e) && IsNode(g, g.edges[e].from) && IsNode(g, g.edges[e].to)
    ensures |h| == g.n && |cost| == |g.edges| && h[g.edges[e].from] <= cost[e] + h[g.edges[e].to]
  {
  }

  lemma ImproveFrontier(g: Graph, cost: seq<real>, h: seq<real>, seeds: seq<Seed>, cutoff: real,
                        c: seq<Cost>, q: multiset<Item>, pr: Progress, e: int, sum: real)
    requires NonNegative(g, cost) && Consistent(g, cost, h)
    requires Frontier(g, cost, h, seeds, cutoff, c, q, pr) && Foremost(g, h, c, q, pr)
    requires IsEdge(g, e) && g.edges[e].from == pr.current && IsNode(g, g.edges[e].to)
    requires sum == c[pr.current].v + cost[e] && Within(cutoff, sum) && Less(sum, c[g.edges[e].to])
    ensures
      var v := g.edges[e].to;
      var c', q', pr' := c[v := Fin(sum)], q + multiset{Item(v, sum + h[v])}, pr.(relaxed := pr.relaxed + {e});
      Frontier(g, cost, h, seeds, cutoff, c', q', pr') && Foremost(g, h, c', q', pr')
  {
    hide Consistent, NonNegative, SeedsOk, QueueOk, SettledOk, RelaxedOk;
    var v := g.edges[e].to;
    ImprovesUnsettled(g, cost, h, seeds, cutoff, c, q, pr, e, sum);
    ConsistentAlong(g, cost, h, e);
    ImproveSeeds(g, seeds, c, v, sum);
    ImproveQueue(g, h, c, q, pr.settled, v, sum);
    ImproveSettled(g, h, c, q, pr, v, sum, e);
    ImproveRelaxed(g, cost, cutoff, c, pr, e, sum);
  }

  // ----- the state of a search

  datatype Snapshot = Snapshot(l: Labels, q: multiset<Item>, pr: Progress, clock: int, pushes: nat)

  // What holds between two queue operations in any case.
  ghost predicate Labelled(g: Graph, cost: seq<real>, h: seq<real>, seeds: seq<Seed>, cutoff: real, x: Snapshot) {
    && |h| == g.n
    && LabelsOk(g, cost, seeds, cutoff, x.l, x.clock)
    && (forall it :: it in x.q ==> IsNode(g, it.node) && x.l.cost[it.node].Fin?)
  }

  // What holds besides while the heuristic is consistent: the queue is a frontier, and incoming
  // edges are relaxed edges.
  ghost predicate Guided(g: Graph, cost: seq<real>, h: seq<real>, seeds: seq<Seed>, cutoff: real, x: Snapshot) {
    && Frontier(g, cost, h, seeds, cutoff, x.l.cost, x.q, x.pr)
    && LinksRelaxed(x)
  }

  // No edge has caused two pushes.
  predicate Counted(seeds: seq<Seed>, x: Snapshot) {
    x.pushes <= |seeds| + |x.pr.relaxed|
  }

  ghost predicate LinksRelaxed(x: Snapshot) {
    forall v :: 0 <= v < |x.l.prev| && x.l.prev[v] >= 0 ==> x.l.prev[v] in x.pr.relaxed
  }

  // What holds besides while the i-th edge out of the current node is looked at.
  ghost predicate GuidedAt(g: Graph, h: seq<real>, u: int, i: int, x: Snapshot) {
    && |h| == g.n && |x.l.cost| == g.n && IsNode(g, u) && |g.adj| == g.n && 0 <= i <= |g.adj[u]|
    && x.pr.current == u
    && Foremost(g, h, x.l.cost, x.q, x.pr)
    && (forall j :: 0 <= j < i ==> g.adj[u][j] in x.pr.relaxed)
  }

  function Improved(g: Graph, h: seq<real>, x: Snapshot, e: int, c: real): Snapshot
    requires IsEdge(g, e) && IsNode(g, g.edges[e].to) && |h| == g.n && Sized(g, x.l)
  {
    var v := g.edges[e].to;
    Snapshot(Relabel(x.l, v, c, e, x.clock), x.q + multiset{Item(v, c + h[v])},
             x.pr.(relaxed := x.pr.relaxed + {e}), x.clock + 1, x.pushes + 1)
  }

  function Skipped(x: Snapshot, e: int): Snapshot {
    x.(pr := x.pr.(relaxed := x.pr.relaxed + {e}))
  }

  lemma ImproveLabelled(g: Graph, cost: seq<real>, h: seq<real>, seeds: seq<Seed>, cutoff: real, x: Snapshot, e: int,
                        c: real)
    requires NonNegative(g, cost) && Labelled(g, cost, h, seeds, cutoff, x)
    requires Improves(g, cost, cutoff, x.l, e, c)
    ensures Labelled(g, cost, h, seeds, cutoff, Improved(g, h, x, e, c))
  {
    ImproveLabels(g, cost, seeds, cutoff, x.l, x.clock, e, c);
  }

  // From x to y the queue and the number of pushes grew by no more than there are newly relaxed
  // edges.
  predicate Paced(x: Snapshot, y: Snapshot) {
    && x.pr.relaxed <= y.pr.relaxed
    && |y.q| + |x.pr.relaxed| <= |x.q| + |y.pr.relaxed|
    && y.pushes + |x.pr.relaxed| <= x.pushes + |y.pr.relaxed|
  }

  lemma ImprovePaced(g: Graph, h: seq<real>, x: Snapshot, e: int, c: real)
    requires IsEdge(g, e) && IsNode(g, g.edges[e].to) && |h| == g.n && Sized(g, x.l)
    requires e !in x.pr.relaxed
    ensures Paced(x, Improved(g, h, x, e, c))
  {
  }

  lemma SkipPaced(x: Snapshot, e: int)
    ensures Paced(x, Skipped(x, e))
  {
    if e in x.pr.relaxed {
      assert x.pr.relaxed + {e} == x.pr.relaxed;
    }
  }

  lemma ImproveLinks(g: Graph, h: seq<real>, x: Snapshot, e: int, c: real)
    requires IsEdge(g, e) && IsNode(g, g.edges[e].to) && |h| == g.n && Sized(g, x.l) && LinksRelaxed(x)
    ensures LinksRelaxed(Improved(g, h, x, e, c))
  {
  }

  lemma ImproveGuided(g: Graph, cost: seq<real>, h: seq<real>, seeds: seq<Seed>, cutoff: real, x: Snapshot, e: int,
                      c: real)
    requires NonNegative(g, cost) && Consistent(g, cost, h) && Sized(g, x.l) && |h| == g.n
    requires Guided(g, cost, h, seeds, cutoff, x) && Foremost(g, h, x.l.cost, x.q, x.pr)
    requires Improves(g, cost, cutoff, x.l, e, c) && g.edges[e].from == x.pr.current
    ensures
      var x' := Improved(g, h, x, e, c);
      && Guided(g, cost, h, seeds, cutoff, x')
      && Foremost(g, h, x'.l.cost, x'.q, x'.pr)
  {
    hide Frontier, Foremost, LinksRelaxed, Consistent, NonNegative;
    ImproveFrontier(g, cost, h, seeds, cutoff, x.l.cost, x.q, x.pr, e, c);
    ImproveLinks(g, h, x, e, c);
  }

  lemma SkipGuided(g: Graph, cost: seq<real>, h: seq<real>, seeds: seq<Seed>, cutoff: real, u: int, i: int, x: Snapshot,
                   e: int)
    requires Indexed(g) && |cost| == |g.edges| && Sized(g, x.l)
    requires Guided(g, cost, h, seeds, cutoff, x) && GuidedAt(g, h, u, i, x) && i < |g.adj[u]| && e == g.adj[u][i]
    requires IsEdge(g, e) && g.edges[e].from == u && IsNode(g, g.edges[e].to)
    requires !Improves(g, cost, cutoff, x.l, e, x.l.cost[u].v + cost[e])
    ensures Guided(g, cost, h, seeds, cutoff, Skipped(x, e))
    ensures GuidedAt(g, h, u, i + 1, Skipped(x, e))
  {
    SkipEdge(g, cost, h, seeds, cutoff, x.l.cost, x.q, x.pr, e);
  }

  // Either step, whether or not the heuristic is consistent.
  lemma StepImprove(g: Graph, cost: seq<real>, h: seq<real>, seeds: seq<Seed>, cutoff: real, u: int, i: int,
                    x: Snapshot, e: int, c: real)
    requires NonNegative(g, cost) && Labelled(g, cost, h, seeds, cutoff, x)
    requires Consistent(g, cost, h) ==> Guided(g, cost, h, seeds, cutoff, x) && GuidedAt(g, h, u, i, x)
    requires IsNode(g, u) && |g.adj| == g.n && 0 <= i < |g.adj[u]| && e == g.adj[u][i]
    requires Improves(g, cost, cutoff, x.l, e, c) && g.edges[e].from == u
    ensures
      var x' := Improved(g, h, x, e, c);
      && Labelled(g, cost, h, seeds, cutoff, x') && x'.l.cost[u].Fin?
      && (Consistent(g, cost, h) ==>
           Guided(g, cost, h, seeds, cutoff, x') && GuidedAt(g, h, u, i + 1, x') && Paced(x, x'))
  {
    hide Labelled, Frontier, Foremost, LinksRelaxed, Consistent, NonNegative;
    Sizes(g, cost, h, seeds, cutoff, x);
    ImproveLabelled(g, cost, h, seeds, cutoff, x, e, c);
    if Consistent(g, cost, h) {
      ImproveGuided(g, cost, h, seeds, cutoff, x, e, c);
      ImprovesUnsettled(g, cost, h, seeds, cutoff, x.l.cost, x.q, x.pr, e, c);
      ImprovePaced(g, h, x, e, c);
    }
  }

  lemma StepSkip(g: Graph, cost: seq<real>, h: seq<real>, seeds: seq<Seed>, cutoff: real, u: int, i: int, x: Snapshot,
                 e: int)
    requires Indexed(g) && Labelled(g, cost, h, seeds, cutoff, x)
    requires Consistent(g, cost, h) ==> Guided(g, cost, h, seeds, cutoff, x) && GuidedAt(g, h, u, i, x)
    requires IsNode(g, u) && 0 <= i < |g.adj[u]| && e == g.adj[u][i]
    requires IsEdge(g, e) && g.edges[e].from == u && IsNode(g, g.edges[e].to)
    requires x.l.cost[u].Fin? && !Improves(g, cost, cutoff, x.l, e, x.l.cost[u].v + cost[e])
    ensures
      var x' := Skipped(x, e);
      && Labelled(g, cost, h, seeds, cutoff, x')
      && (Consistent(g, cost, h) ==>
           Guided(g, cost, h, seeds, cutoff, x') && GuidedAt(g, h, u, i + 1, x') && Paced(x, x'))
  {
    SkipPaced(x, e);
    if Consistent(g, cost, h) {
      SkipGuided(g, cost, h, seeds, cutoff, u, i, x, e);
    }
  }

  lemma Sizes(g: Graph, cost: seq<real>, h: seq<real>, seeds: seq<Seed>, cutoff: real, x: Snapshot)
    requires Labelled(g, cost, h, seeds, cutoff, x)
    ensures |cost| == |g.edges| && |h| == g.n && Sized(g, x.l)
  {
  }

  function Rested(x: Snapshot): Snapshot {
    x.(pr := x.pr.(current := -1))
  }

  lemma ExpandedAll(g: Graph, cost: seq<real>, h: seq<real>, seeds: seq<Seed>, cutoff: real, u: int, x: Snapshot)
    requires Indexed(g) && IsNode(g, u)
    requires Labelled(g, cost, h, seeds, cutoff, x)
    requires Consistent(g, cost, h) ==> Guided(g, cost, h, seeds, cutoff, x) && GuidedAt(g, h, u, |g.adj[u]|, x)
    ensures Labelled(g, cost, h, seeds, cutoff, Rested(x))
    ensures Consistent(g, cost, h) ==> Guided(g, cost, h, seeds, cutoff, Rested(x))
  {
    forall e | IsEdge(g, e) && g.edges[e].from == u && Consistent(g, cost, h)
      ensures e in x.pr.relaxed
    {
      assert e in g.adj[u];
    }
  }

  // ----- seeding

  // Only seeds have been labelled and queued.
  ghost predicate Seeded(g: Graph, cost: seq<real>, h: seq<real>, seeds: seq<Seed>, cutoff: real, x: Snapshot) {
    && Labelled(g, cost, h, seeds, cutoff, x)
    && Guided(g, cost, h, seeds, cutoff, x)
    && x.pr == Progress({}, {}, -1)
    && (forall v :: IsNode(g, v) ==> x.l.prev[v] < 0)
  }

  ghost function Unreached(n: nat): Snapshot {
    Snapshot(Labels(seq(n, _ => Inf), seq(n, _ => -1), seq(n, _ => 0)), multiset{}, Progress({}, {}, -1), 1, 0)
  }

  lemma SeedBegin(g: Graph, cost: seq<real>, h: seq<real>, cutoff: real)
    requires |cost| == |g.edges| && |h| == g.n
    ensures Seeded(g, cost, h, [], cutoff, Unreached(g.n))
  {
  }

  function SeedLabel(h: seq<real>, x: Snapshot, s: Seed): Snapshot
    requires 0 <= s.node < |h| == |x.l.cost| == |x.l.prev| == |x.l.stamp|
  {
    Snapshot(Labels(x.l.cost[s.node := Fin(s.cost)], x.l.prev, x.l.stamp[s.node := x.clock]),
             x.q + multiset{Item(s.node, s.cost + h[s.node])}, x.pr, x.clock + 1, x.pushes + 1)
  }

  // The state after seeding.
  ghost function SeededWith(g: Graph, h: seq<real>, seeds: seq<Seed>): (x: Snapshot)
    requires SeedsInGraph(g, seeds) && |h| == g.n
    ensures Sized(g, x.l)
    decreases |seeds|
  {
    if seeds == [] then Unreached(g.n)
    else
      var y, s := SeededWith(g, h, seeds[..|seeds| - 1]), seeds[|seeds| - 1];
      if Less(s.cost, y.l.cost[s.node]) then SeedLabel(h, y, s) else y
  }

  lemma SeededFirst(g: Graph, h: seq<real>, seeds: seq<Seed>)
    requires SeedsInGraph(g, seeds) && |h| == g.n
    ensures SeededWith(g, h, seeds[..0]) == Unreached(g.n)
  {
  }

  lemma SeededNext(g: Graph, h: seq<real>, seeds: seq<Seed>, k: nat)
    requires SeedsInGraph(g, seeds) && |h| == g.n && k < |seeds|
    ensures
      var x, s := SeededWith(g, h, seeds[..k]), seeds[k];
      SeededWith(g, h, seeds[..k + 1]) == if Less(s.cost, x.l.cost[s.node]) then SeedLabel(h, x, s) else x
  {
    assert seeds[..k + 1][..k] == seeds[..k];
  }

  lemma MoreSeeds(g: Graph, cost: seq<real>, seeds: seq<Seed>, s: Seed, t: int, x: Cost)
    requires Sound(g, cost, seeds, t, x)
    ensures Sound(g, cost, seeds + [s], t, x)
  {
    if x.Fin? {
      var k, p :| SeedWalk(g, cost, seeds, k, p, t, x.v);
      assert SeedWalk(g, cost, seeds + [s], k, p, t, x.v);
    }
  }

  lemma SeedIsSound(g: Graph, cost: seq<real>, seeds: seq<Seed>, s: Seed)
    requires |cost| == |g.edges|
    ensures Sound(g, cost, seeds + [s], s.node, Fin(s.cost))
  {
    assert SeedWalk(g, cost, seeds + [s], |seeds|, [], s.node, s.cost);
  }

  lemma LabelledMore(g: Graph, cost: seq<real>, h: seq<real>, seeds: seq<Seed>, cutoff: real, x: Snapshot, s: Seed)
    requires Labelled(g, cost, h, seeds, cutoff, x)
    ensures Labelled(g, cost, h, seeds + [s], cutoff, x)
  {
    forall v | IsNode(g, v)
      ensures Sound(g, cost, seeds + [s], v, x.l.cost[v])
    {
      MoreSeeds(g, cost, seeds, s, v, x.l.cost[v]);
    }
    forall v | IsNode(g, v)
      ensures Rooted(g, seeds + [s], cutoff, x.l, v)
    {
      assert Rooted(g, seeds, cutoff, x.l, v);
      assert forall k :: 0 <= k < |seeds| ==> (seeds + [s])[k] == seeds[k];
    }
  }

  lemma LabelledSeed(g: Graph, cost: seq<real>, h: seq<real>, seeds: seq<Seed>, cutoff: real, x: Snapshot, k: int)
    requires Labelled(g, cost, h, seeds, cutoff, x) && 0 <= k < |seeds| && IsNode(g, seeds[k].node)
    requires forall v :: IsNode(g, v) ==> x.l.prev[v] < 0
    requires Sound(g, cost, seeds, seeds[k].node, Fin(seeds[k].cost))
    ensures Labelled(g, cost, h, seeds, cutoff, SeedLabel(h, x, seeds[k]))
  {
    var x' := SeedLabel(h, x, seeds[k]);
    forall v | IsNode(g, v)
      ensures Rooted(g, seeds, cutoff, x'.l, v) && BackLinked(g, cost, x'.l, v)
    {
      assert Rooted(g, seeds, cutoff, x.l, v);
    }
  }

  lemma GuidedSeed(g: Graph, cost: seq<real>, h: seq<real>, seeds: seq<Seed>, cutoff: real, x: Snapshot, s: Seed)
    requires Sized(g, x.l) && Guided(g, cost, h, seeds, cutoff, x) && x.pr == Progress({}, {}, -1)
    requires IsNode(g, s.node) && Less(s.cost, x.l.cost[s.node])
    ensures Guided(g, cost, h, seeds + [s], cutoff, SeedLabel(h, x, s))
  {
    ImproveQueue(g, h, x.l.cost, x.q, {}, s.node, s.cost);
    ImproveSeeds(g, seeds, x.l.cost, s.node, s.cost);
  }

  lemma GuidedMore(g: Graph, cost: seq<real>, h: seq<real>, seeds: seq<Seed>, cutoff: real, x: Snapshot, s: Seed)
    requires Guided(g, cost, h, seeds, cutoff, x) && IsNode(g, s.node) && AtMost(x.l.cost[s.node], s.cost)
    ensures Guided(g, cost, h, seeds + [s], cutoff, x)
  {
  }

  lemma SeedStep(g: Graph, cost: seq<real>, h: seq<real>, seeds: seq<Seed>, cutoff: real, x: Snapshot, s: Seed)
    requires Seeded(g, cost, h, seeds, cutoff, x) && IsNode(g, s.node)
    ensures Seeded(g, cost, h, seeds + [s], cutoff, if Less(s.cost, x.l.cost[s.node]) then SeedLabel(h, x, s) else x)
  {
    LabelledMore(g, cost, h, seeds, cutoff, x, s);
    if Less(s.cost, x.l.cost[s.node]) {
      SeedIsSound(g, cost, seeds, s);
      assert (seeds + [s])[|seeds|] == s;
      LabelledSeed(g, cost, h, seeds + [s], cutoff, x, |seeds|);
      GuidedSeed(g, cost, h, seeds, cutoff, x, s);
    } else {
      GuidedMore(g, cost, h, seeds, cutoff, x, s);
    }
  }

  // ----- what a search reaches, whatever the heuristic

  ghost predicate Queued(q: multiset<Item>, v: int) {
    exists it :: it in q && it.node == v
  }

  // The edge leaves a settled node; of the node u under expansion only the first i edges count.
  ghost predicate SeenTo(g: Graph, u: int, i: int, settled: set<int>, e: int) {
    && IsEdge(g, e) && IsNode(g, g.edges[e].from) && IsNode(g, g.edges[e].to) && g.edges[e].from in settled
    && (g.edges[e].from == u ==> |g.adj| == g.n && 0 <= i <= |g.adj[u]| && e in g.adj[u][..i])
  }

  // Without a cutoff: the start is reached, a reached node is settled or queued, and an edge that
  // has been seen to leads to a reached node.
  ghost predicate Spread(g: Graph, s: int, u: int, i: int, x: Snapshot) {
    && Sized(g, x.l) && |g.adj| == g.n && IsNode(g, s) && x.l.cost[s].Fin?
    && (forall v :: IsNode(g, v) && x.l.cost[v].Fin? ==> v in x.pr.settled || Queued(x.q, v))
    && (forall e :: SeenTo(g, u, i, x.pr.settled, e) ==> x.l.cost[g.edges[e].to].Fin?)
  }

  lemma SpreadPop(g: Graph, s: int, x: Snapshot, it: Item)
    requires Spread(g, s, -1, 0, x) && it in x.q && it.node in x.pr.settled
    ensures Spread(g, s, -1, 0, Popped(x, it))
  {
    forall v | Queued(x.q, v) && v != it.node
      ensures Queued(x.q - multiset{it}, v)
    {
      var other :| other in x.q && other.node == v;
      assert other in x.q - multiset{it};
    }
  }

  lemma SpreadSettle(g: Graph, s: int, x: Snapshot, it: Item)
    requires Spread(g, s, -1, 0, x) && it in x.q && IsNode(g, it.node) && it.node !in x.pr.settled
    ensures Spread(g, s, it.node, 0, Settling(x, it))
  {
    forall v | Queued(x.q, v) && v != it.node
      ensures Queued(x.q - multiset{it}, v)
    {
      var other :| other in x.q && other.node == v;
      assert other in x.q - multiset{it};
    }
  }

  lemma SpreadImprove(g: Graph, h: seq<real>, s: int, u: int, i: int, x: Snapshot, e: int, c: real)
    requires Spread(g, s, u, i, x) && IsNode(g, u) && 0 <= i < |g.adj[u]| && e == g.adj[u][i]
    requires IsEdge(g, e) && IsNode(g, g.edges[e].to) && |h| == g.n
    ensures Spread(g, s, u, i + 1, Improved(g, h, x, e, c))
  {
    var y := Improved(g, h, x, e, c);
    assert g.adj[u][..i + 1] == g.adj[u][..i] + [e];
    assert Item(g.edges[e].to, c + h[g.edges[e].to]) in y.q;
    forall v | Queued(x.q, v)
      ensures Queued(y.q, v)
    {
      var other :| other in x.q && other.node == v;
      assert other in y.q;
    }
  }

  lemma SpreadSkip(g: Graph, s: int, u: int, i: int, x: Snapshot, e: int)
    requires Spread(g, s, u, i, x) && IsNode(g, u) && 0 <= i < |g.adj[u]| && e == g.adj[u][i]
    requires IsEdge(g, e) && IsNode(g, g.edges[e].to) && x.l.cost[g.edges[e].to].Fin?
    ensures Spread(g, s, u, i + 1, Skipped(x, e))
  {
    assert g.adj[u][..i + 1] == g.adj[u][..i] + [e];
  }

  lemma SpreadAll(g: Graph, s: int, u: int, x: Snapshot)
    requires Indexed(g) && IsNode(g, u) && Spread(g, s, u, |g.adj[u]|, x)
    ensures Spread(g, s, -1, 0, Rested(x))
  {
    assert g.adj[u][..|g.adj[u]|] == g.adj[u];
  }

  lemma SpreadStart(g: Graph, cost: seq<real>, h: seq<real>, s: int, x: Snapshot)
    requires Seeded(g, cost, h, [Seed(s, 0.0)], 0.0, x) && |g.adj| == g.n
    ensures Spread(g, s, -1, 0, x)
  {
    assert [Seed(s, 0.0)][0].node == s;
  }

  lemma {:induction false} SpreadAlong(g: Graph, x: Snapshot, s: int, p: seq<int>, t: int)
    requires Indexed(g) && Spread(g, s, -1, 0, x) && x.q == multiset{} && Walk(g, s, p, t)
    ensures IsNode(g, t) && x.l.cost[t].Fin?
    decreases |p|
  {
    if p != [] {
      var e := p[|p| - 1];
      SpreadAlong(g, x, s, p[..|p| - 1], g.edges[e].from);
      assert !Queued(x.q, g.edges[e].from);
      assert SeenTo(g, -1, 0, x.pr.settled, e);
    }
  }

  // A node is labelled exactly when some walk leads to it.
  ghost predicate Reaches(g: Graph, s: int, t: int, x: Cost) {
    x.Fin? <==> exists p :: Walk(g, s, p, t)
  }

  lemma SoundReaches(g: Graph, cost: seq<real>, s: int, t: int, x: Cost)
    requires Sound(g, cost, [Seed(s, 0.0)], t, x) && x.Fin?
    ensures Reaches(g, s, t, x)
  {
    var k, p :| SeedWalk(g, cost, [Seed(s, 0.0)], k, p, t, x.v);
    assert Walk(g, s, p, t);
  }

  // When the queue is empty every node that a walk leads to is labelled.
  lemma SpreadReaches(g: Graph, cost: seq<real>, s: int, t: int, x: Snapshot)
    requires Indexed(g) && Spread(g, s, -1, 0, x) && x.q == multiset{} && IsNode(g, t)
    requires Sound(g, cost, [Seed(s, 0.0)], t, x.l.cost[t])
    ensures Reaches(g, s, t, x.l.cost[t])
  {
    if x.l.cost[t].Fin? {
      SoundReaches(g, cost, s, t, x.l.cost[t]);
    } else {
      forall p
        ensures !Walk(g, s, p, t)
      {
        if Walk(g, s, p, t) {
          SpreadAlong(g, x, s, p, t);
        }
      }
    }
  }

  // ----- the searches

  class SearchResult {
    const Cost: array<Cost>
    const PrevEdge: array<int>

    // newSearchResult: no node is reached.
    constructor (n: nat)
      ensures fresh(Cost) && fresh(PrevEdge) && Cost.Length == PrevEdge.Length == n
      ensures forall v :: 0 <= v < n ==> Cost[v] == Inf && PrevEdge[v] == -1
    {
      Cost := new Cost[n](_ => Inf);
      PrevEdge := new int[n](_ => -1);
    }
  }

  ghost predicate Shows(res: SearchResult, q: multiset<Item>, x: Snapshot)
    reads res.Cost, res.PrevEdge
  {
    x.l.cost == res.Cost[..] && x.l.prev == res.PrevEdge[..] && x.q == q
  }

  // What the loop body makes of the state for an edge out of u.
  ghost function EdgeStep(g: Graph, cost: seq<real>, h: seq<real>, cutoff: real, u: int, e: int, x: Snapshot)
      : (y: Snapshot)
    requires Sized(g, x.l) && |h| == g.n && |cost| == |g.edges| && IsNode(g, u) && x.l.cost[u].Fin?
    requires IsEdge(g, e) && IsNode(g, g.edges[e].to)
    ensures Sized(g, y.l) && y.l.cost[u].Fin?
  {
    var c := x.l.cost[u].v + cost[e];
    if !(cutoff > 0.0 && c > cutoff) && Less(c, x.l.cost[g.edges[e].to]) then Improved(g, h, x, e, c) else Skipped(x, e)
  }

  // The state after the first i edges out of u.
  ghost function ExpandedTo(g: Graph, cost: seq<real>, h: seq<real>, cutoff: real, u: int, i: nat, x: Snapshot)
      : (y: Snapshot)
    requires Sized(g, x.l) && |g.adj| == |h| == g.n && |cost| == |g.edges| && IsNode(g, u) && x.l.cost[u].Fin?
    requires Indexed(g) && i <= |g.adj[u]|
    ensures Sized(g, y.l) && y.l.cost[u].Fin?
    decreases i
  {
    if i == 0 then x
    else
      OutEdge(g, u, i - 1);
      EdgeStep(g, cost, h, cutoff, u, g.adj[u][i - 1], ExpandedTo(g, cost, h, cutoff, u, i - 1, x))
  }

  ghost predicate Expanding(g: Graph, cost: seq<real>, h: seq<real>, cutoff: real, u: int, i: int, x: Snapshot,
                            y: Snapshot) {
    && Indexed(g) && Sized(g, x.l) && |g.adj| == |h| == g.n && |cost| == |g.edges| && IsNode(g, u) && x.l.cost[u].Fin?
    && 0 <= i <= |g.adj[u]| && y == ExpandedTo(g, cost, h, cutoff, u, i, x)
  }

  // What expanding u makes of the state.
  ghost predicate Expanded(g: Graph, cost: seq<real>, h: seq<real>, cutoff: real, u: int, x: Snapshot, y: Snapshot) {
    && Indexed(g) && Sized(g, x.l) && |g.adj| == |h| == g.n && |cost| == |g.edges| && IsNode(g, u) && x.l.cost[u].Fin?
    && y == Rested(ExpandedTo(g, cost, h, cutoff, u, |g.adj[u]|, x))
  }

  lemma ExpandingStarts(g: Graph, cost: seq<real>, h: seq<real>, cutoff: real, u: int, x: Snapshot)
    requires Indexed(g) && Sized(g, x.l) && |g.adj| == |h| == g.n && |cost| == |g.edges| && IsNode(g, u)
    requires x.l.cost[u].Fin?
    ensures Expanding(g, cost, h, cutoff, u, 0, x, x)
  {
  }

  lemma ExpandingNext(g: Graph, cost: seq<real>, h: seq<real>, cutoff: real, u: int, i: int, x: Snapshot, y: Snapshot,
                      z: Snapshot)
    requires Expanding(g, cost, h, cutoff, u, i, x, y) && i < |g.adj[u]|
    requires Sized(g, y.l) && y.l.cost[u].Fin? && IsEdge(g, g.adj[u][i]) && IsNode(g, g.edges[g.adj[u][i]].to)
    requires z == EdgeStep(g, cost, h, cutoff, u, g.adj[u][i], y)
    ensures Expanding(g, cost, h, cutoff, u, i + 1, x, z)
  {
    hide Indexed, EdgeStep;
  }

  lemma ExpandingEnds(g: Graph, cost: seq<real>, h: seq<real>, cutoff: real, u: int, x: Snapshot, y: Snapshot)
    requires IsNode(g, u) && |g.adj| == g.n && Expanding(g, cost, h, cutoff, u, |g.adj[u]|, x, y)
    ensures Expanded(g, cost, h, cutoff, u, x, Rested(y))
  {
    hide ExpandedTo;
  }

  // The state x after the first i edges out of u, from x0 on.
  ghost predicate Advancing(g: Graph, cost: seq<real>, h: seq<real>, seeds: seq<Seed>, cutoff: real, from: int,
                            u: int, i: int, x0: Snapshot, x: Snapshot) {
    && Labelled(g, cost, h, seeds, cutoff, x) && Sized(g, x.l) && IsNode(g, u) && x.l.cost[u].Fin?
    && (Consistent(g, cost, h) ==>
          Guided(g, cost, h, seeds, cutoff, x) && GuidedAt(g, h, u, i, x) && Paced(x0, x))
    && x.pr.settled == x0.pr.settled
    && Expanding(g, cost, h, cutoff, u, i, x0, x)
    && (cutoff <= 0.0 && Spread(g, from, u, 0, x0) ==> Spread(g, from, u, i, x))
  }

  lemma AdvancingStarts(g: Graph, cost: seq<real>, h: seq<real>, seeds: seq<Seed>, cutoff: real, from: int, u: int,
                        x: Snapshot)
    requires Indexed(g) && NonNegative(g, cost) && IsNode(g, u)
    requires Labelled(g, cost, h, seeds, cutoff, x) && |g.adj| == |h| == g.n && Sized(g, x.l) && x.l.cost[u].Fin?
    requires Consistent(g, cost, h) ==> Guided(g, cost, h, seeds, cutoff, x) && GuidedAt(g, h, u, 0, x)
    ensures Advancing(g, cost, h, seeds, cutoff, from, u, 0, x, x)
  {
    hide Labelled, Guided, GuidedAt, Consistent, Spread, Indexed, Expanding;
    GraphSizes(g, cost);
    ExpandingStarts(g, cost, h, cutoff, u, x);
  }

  lemma AdvancingNext(g: Graph, cost: seq<real>, h: seq<real>, seeds: seq<Seed>, cutoff: real, from: int,
                      u: int, i: int, x0: Snapshot, x: Snapshot, e: int, y: Snapshot)
    requires Indexed(g) && NonNegative(g, cost) && |g.adj| == |h| == g.n && |cost| == |g.edges|
    requires Advancing(g, cost, h, seeds, cutoff, from, u, i, x0, x) && IsNode(g, u) && 0 <= i < |g.adj[u]|
    requires Sized(g, x.l) && x.l.cost[u].Fin?
    requires e == g.adj[u][i] && IsEdge(g, e) && g.edges[e].from == u && IsNode(g, g.edges[e].to)
    requires y == EdgeStep(g, cost, h, cutoff, u, e, x)
    ensures Advancing(g, cost, h, seeds, cutoff, from, u, i + 1, x0, y)
  {
    hide Labelled, Guided, GuidedAt, Consistent, Spread, Indexed, NonNegative, Expanding;
    ExpandingNext(g, cost, h, cutoff, u, i, x0, x, y);
    var c := x.l.cost[u].v + cost[e];
    if !(cutoff > 0.0 && c > cutoff) && Less(c, x.l.cost[g.edges[e].to]) {
      StepImprove(g, cost, h, seeds, cutoff, u, i, x, e, c);
      if Spread(g, from, u, i, x) {
        SpreadImprove(g, h, from, u, i, x, e, c);
      }
    } else {
      StepSkip(g, cost, h, seeds, cutoff, u, i, x, e);
      if cutoff <= 0.0 && Spread(g, from, u, i, x) {
        SpreadSkip(g, from, u, i, x, e);
      }
    }
  }

  lemma AdvancingEnds(g: Graph, cost: seq<real>, h: seq<real>, seeds: seq<Seed>, cutoff: real, from: int, u: int,
                      x0: Snapshot, x: Snapshot)
    requires Indexed(g) && NonNegative(g, cost) && |g.adj| == g.n && IsNode(g, u)
    requires Advancing(g, cost, h, seeds, cutoff, from, u, |g.adj[u]|, x0, x)
    ensures Labelled(g, cost, h, seeds, cutoff, Rested(x)) && Rested(x).pr.settled == x0.pr.settled
    ensures Consistent(g, cost, h) ==> Guided(g, cost, h, seeds, cutoff, Rested(x)) && Paced(x0, Rested(x))
    ensures Expanded(g, cost, h, cutoff, u, x0, Rested(x))
    ensures cutoff <= 0.0 && Spread(g, from, u, 0, x0) ==> Spread(g, from, -1, 0, Rested(x))
  {
    hide Labelled, Guided, GuidedAt, Consistent, Spread, Indexed, NonNegative, Expanding, Expanded;
    ExpandedAll(g, cost, h, seeds, cutoff, u, x);
    ExpandingEnds(g, cost, h, cutoff, u, x0, x);
    if Spread(g, from, u, |g.adj[u]|, x) {
      SpreadAll(g, from, u, x);
    }
  }

  // The loop over the outgoing edges of u: every improvement is written to the labels and pushed.
  method Expand(g: Graph, cost: seq<real>, h: seq<real>, ghost seeds: seq<Seed>, cutoff: real, u: int,
                ghost from: int, res: SearchResult, q0: multiset<Item>, ghost x0: Snapshot)
      returns (q: multiset<Item>, ghost x: Snapshot)
    requires Indexed(g) && NonNegative(g, cost) && IsNode(g, u) && Shows(res, q0, x0)
    requires Labelled(g, cost, h, seeds, cutoff, x0) && |g.adj| == |h| == g.n && Sized(g, x0.l) && x0.l.cost[u].Fin?
    requires Consistent(g, cost, h) ==> Guided(g, cost, h, seeds, cutoff, x0) && GuidedAt(g, h, u, 0, x0)
    modifies res.Cost, res.PrevEdge
    ensures Shows(res, q, x) && Labelled(g, cost, h, seeds, cutoff, x)
    ensures Consistent(g, cost, h) ==> Guided(g, cost, h, seeds, cutoff, x) && Paced(x0, x)
    ensures x.pr.current == -1 && x.pr.settled == x0.pr.settled
    ensures Expanded(g, cost, h, cutoff, u, x0, x)
    ensures cutoff <= 0.0 && Spread(g, from, u, 0, x0) ==> Spread(g, from, -1, 0, x)
  {
    hide Labelled, Guided, GuidedAt, Consistent, Indexed, NonNegative, Spread, Advancing, Expanded, Paced;
    q, x := q0, x0;
    GraphSizes(g, cost);
    AdvancingStarts(g, cost, h, seeds, cutoff, from, u, x);
    for i := 0 to |g.adj[u]|
      invariant Shows(res, q, x) && Sized(g, x.l) && x.l.cost[u].Fin?
      invariant Advancing(g, cost, h, seeds, cutoff, from, u, i, x0, x)
    {
      OutEdge(g, u, i);
      var e := g.adj[u][i];
      var to := g.edges[e].to;
      var c := res.Cost[u].v + cost[e];
      ghost var y := EdgeStep(g, cost, h, cutoff, u, e, x);
      AdvancingNext(g, cost, h, seeds, cutoff, from, u, i, x0, x, e, y);
      if !(cutoff > 0.0 && c > cutoff) && Less(c, res.Cost[to]) {
        res.Cost[to] := Fin(c);
        res.PrevEdge[to] := e;
        q := q + multiset{Item(to, c + h[to])};
      }
      x := y;
    }
    AdvancingEnds(g, cost, h, seeds, cutoff, from, u, x0, x);
    x := Rested(x);
  }

  // ----- one round of the main loop

  ghost function Popped(x: Snapshot, it: Item): Snapshot {
    x.(q := x.q - multiset{it})
  }

  ghost function Settling(x: Snapshot, it: Item): Snapshot {
    x.(q := x.q - multiset{it}, pr := Progress(x.pr.settled + {it.node}, x.pr.relaxed, it.node))
  }

  lemma PopLabelled(g: Graph, cost: seq<real>, h: seq<real>, seeds: seq<Seed>, cutoff: real, x: Snapshot, it: Item)
    requires Labelled(g, cost, h, seeds, cutoff, x) && it in x.q
    ensures Labelled(g, cost, h, seeds, cutoff, Popped(x, it)) && Labelled(g, cost, h, seeds, cutoff, Settling(x, it))
    ensures Sized(g, x.l) && IsNode(g, it.node) && x.l.cost[it.node].Fin?
  {
  }

  lemma DropGuided(g: Graph, cost: seq<real>, h: seq<real>, seeds: seq<Seed>, cutoff: real, x: Snapshot, it: Item)
    requires Guided(g, cost, h, seeds, cutoff, x) && it in x.q
    requires it.node in x.pr.settled || (x.l.cost[it.node].Fin? ==> it.prio != x.l.cost[it.node].v + h[it.node])
    ensures Guided(g, cost, h, seeds, cutoff, Popped(x, it))
  {
    DropItem(g, cost, h, seeds, cutoff, x.l.cost, x.q, x.pr, it);
  }

  lemma SettleGuided(g: Graph, cost: seq<real>, h: seq<real>, seeds: seq<Seed>, cutoff: real, x: Snapshot, it: Item)
    requires Indexed(g) && Guided(g, cost, h, seeds, cutoff, x) && x.pr.current == -1 && IsMin(x.q, it)
    requires it.node !in x.pr.settled || it.prio <= x.l.cost[it.node].v + h[it.node]
    ensures Guided(g, cost, h, seeds, cutoff, Settling(x, it)) && GuidedAt(g, h, it.node, 0, Settling(x, it))
  {
    SettleNode(g, cost, h, seeds, cutoff, x.l.cost, x.q, x.pr, it);
  }

  // Each incoming edge accounts exactly for its node's label.
  ghost predicate Tight(g: Graph, cost: seq<real>, l: Labels)
    requires Sized(g, l) && |cost| == |g.edges|
  {
    forall v :: IsNode(g, v) && l.prev[v] >= 0 ==>
      && IsEdge(g, l.prev[v]) && IsNode(g, g.edges[l.prev[v]].from)
      && l.cost[v].Fin? && l.cost[g.edges[l.prev[v]].from].Fin?
      && l.cost[v].v == l.cost[g.edges[l.prev[v]].from].v + cost[l.prev[v]]
  }

  lemma GuidedIsTight(g: Graph, cost: seq<real>, h: seq<real>, seeds: seq<Seed>, cutoff: real, x: Snapshot)
    requires Labelled(g, cost, h, seeds, cutoff, x) && Guided(g, cost, h, seeds, cutoff, x)
    ensures Tight(g, cost, x.l)
  {
    forall v | IsNode(g, v) && x.l.prev[v] >= 0
      ensures
        var e := x.l.prev[v];
        && IsEdge(g, e) && IsNode(g, g.edges[e].from)
        && x.l.cost[v].Fin? && x.l.cost[g.edges[e].from].Fin?
        && x.l.cost[v].v == x.l.cost[g.edges[e].from].v + cost[e]
    {
      assert BackLinked(g, cost, x.l, v) && Rooted(g, seeds, cutoff, x.l, v);
      assert Relaxed(g, cost, cutoff, x.l.cost, x.l.prev[v]);
    }
  }

  lemma {:induction false} SubsetCount<T>(a: set<T>, b: set<T>)
    requires a <= b
    ensures |a| <= |b|
  {
    if a != {} {
      var e :| e in a;
      SubsetCount(a - {e}, b - {e});
    }
  }

  // No edge is pushed along twice.
  lemma PushBound(g: Graph, cost: seq<real>, h: seq<real>, seeds: seq<Seed>, cutoff: real, x: Snapshot)
    requires Guided(g, cost, h, seeds, cutoff, x) && Counted(seeds, x)
    ensures x.pr.relaxed <= Below(|g.edges|) && x.pushes <= |seeds| + |g.edges|
  {
    assert forall e :: e in x.pr.relaxed ==> Relaxed(g, cost, cutoff, x.l.cost, e);
    SubsetCount(x.pr.relaxed, Below(|g.edges|));
  }

  // ----- the searches

  // The prices without a heuristic.
  function Zeros(n: nat): (h: seq<real>)
    ensures |h| == n && forall v :: 0 <= v < n ==> h[v] == 0.0
  {
    seq(n, _ => 0.0)
  }

  lemma ZerosConsistent(g: Graph, cost: seq<real>)
    requires NonNegative(g, cost)
    ensures Consistent(g, cost, Zeros(g.n))
  {
  }

  ghost predicate SeedsInGraph(g: Graph, seeds: seq<Seed>) {
    forall k :: 0 <= k < |seeds| ==> IsNode(g, seeds[k].node)
  }

  // The loop over the seeds.
  method StartAt(g: Graph, cost: seq<real>, h: seq<real>, seeds: seq<Seed>, cutoff: real, res: SearchResult)
      returns (q: multiset<Item>, ghost x: Snapshot)
    requires |cost| == |g.edges| && |h| == g.n && SeedsInGraph(g, seeds)
    requires res.Cost.Length == res.PrevEdge.Length == g.n
    requires forall v :: IsNode(g, v) ==> res.Cost[v] == Inf && res.PrevEdge[v] == -1
    modifies res.Cost
    ensures Shows(res, q, x) && Seeded(g, cost, h, seeds, cutoff, x) && Counted(seeds, x)
    ensures x == SeededWith(g, h, seeds)
  {
    hide Seeded, Labelled, Guided, LinksRelaxed, Frontier, LabelsOk, SeededWith;
    q, x := multiset{}, Unreached(g.n);
    SeededFirst(g, h, seeds);
    SeedBegin(g, cost, h, cutoff);
    for k := 0 to |seeds|
      invariant Shows(res, q, x) && Sized(g, x.l)
      invariant Seeded(g, cost, h, seeds[..k], cutoff, x)
      invariant x.pushes <= k && x == SeededWith(g, h, seeds[..k])
    {
      var s := seeds[k];
      assert seeds[..k + 1] == seeds[..k] + [s];
      SeededNext(g, h, seeds, k);
      SeedStep(g, cost, h, seeds[..k], cutoff, x, s);
      if Less(s.cost, res.Cost[s.node]) {
        x := SeedLabel(h, x, s);
        res.Cost[s.node] := Fin(s.cost);
        q := q + multiset{Item(s.node, s.cost + h[s.node])};
      }
    }
    assert seeds[..|seeds|] == seeds;
  }

  lemma SeededIsReady(g: Graph, cost: seq<real>, h: seq<real>, seeds: seq<Seed>, cutoff: real, x: Snapshot)
    requires Seeded(g, cost, h, seeds, cutoff, x)
    ensures Labelled(g, cost, h, seeds, cutoff, x) && Guided(g, cost, h, seeds, cutoff, x)
    ensures x.pr == Progress({}, {}, -1) && Sized(g, x.l)
  {
  }

  // What a search that was not cancelled leaves behind.
  ghost predicate Final(g: Graph, cost: seq<real>, seeds: seq<Seed>, cutoff: real, res: SearchResult, x: Snapshot)
    reads res.Cost, res.PrevEdge
  {
    && x.l.cost == res.Cost[..] && x.l.prev == res.PrevEdge[..]
    && LabelsOk(g, cost, seeds, cutoff, x.l, x.clock)
  }

  lemma FinalOf(g: Graph, cost: seq<real>, h: seq<real>, seeds: seq<Seed>, cutoff: real, q: multiset<Item>,
                res: SearchResult, x: Snapshot)
    requires Shows(res, q, x) && Labelled(g, cost, h, seeds, cutoff, x)
    ensures Final(g, cost, seeds, cutoff, res, x)
    ensures Guided(g, cost, h, seeds, cutoff, x) ==> Tight(g, cost, x.l) && SeedsOk(g, seeds, x.l.cost)
  {
    if Guided(g, cost, h, seeds, cutoff, x) {
      GuidedIsTight(g, cost, h, seeds, cutoff, x);
    }
  }

  lemma LeastAtPop(g: Graph, cost: seq<real>, h: seq<real>, seeds: seq<Seed>, cutoff: real, x: Snapshot, it: Item)
    requires Indexed(g) && NonNegative(g, cost) && Consistent(g, cost, h) && Sized(g, x.l)
    requires Guided(g, cost, h, seeds, cutoff, x) && x.pr.current == -1 && IsMin(x.q, it) && IsNode(g, it.node)
    ensures Least(g, cost, seeds, cutoff, it.node, x.l.cost[it.node])
  {
    PoppedIsLeast(g, cost, h, seeds, cutoff, x.l.cost, x.q, x.pr, it);
  }

  lemma LeastAtEnd(g: Graph, cost: seq<real>, h: seq<real>, seeds: seq<Seed>, cutoff: real, x: Snapshot)
    requires Indexed(g) && NonNegative(g, cost) && Consistent(g, cost, h) && Sized(g, x.l)
    requires Guided(g, cost, h, seeds, cutoff, x) && x.pr.current == -1 && x.q == multiset{}
    ensures forall v :: IsNode(g, v) ==> Least(g, cost, seeds, cutoff, v, x.l.cost[v])
  {
    forall v | IsNode(g, v)
      ensures Least(g, cost, seeds, cutoff, v, x.l.cost[v])
    {
      EmptyIsLeast(g, cost, h, seeds, cutoff, x.l.cost, x.pr, v);
    }
  }

  // DijkstraSeeded. ctxErr(k) says whether the k-th look at the context finds it cancelled; then
  // the search gives up (null). A target outside the graph, such as -1, means none.
  method DijkstraSeeded(g: Graph, seeds: seq<Seed>, cost: seq<real>, cutoff: real, target: int, ctxErr: nat -> bool)
      returns (res: SearchResult?, ghost x: Snapshot)
    requires Indexed(g) && NonNegative(g, cost) && SeedsInGraph(g, seeds)
    ensures res == null ==> exists k :: ctxErr(k)
    ensures res != null ==>
      && fresh(res) && fresh(res.Cost) && fresh(res.PrevEdge)
      && Final(g, cost, seeds, cutoff, res, x) && Tight(g, cost, x.l) && SeedsOk(g, seeds, x.l.cost)
      && x.pushes <= |seeds| + |g.edges|
      && (forall v :: IsNode(g, v) && (v == target || !IsNode(g, target)) ==>
           Least(g, cost, seeds, cutoff, v, x.l.cost[v]))
  {
    hide Labelled, Guided, Seeded, SeededWith, LabelsOk, Final, Tight, SeedsOk, Least, Consistent, Indexed, NonNegative,
      Expanded, Spread, GuidedAt;
    var h := Zeros(g.n);
    ZerosConsistent(g, cost);
    var r := new SearchResult(g.n);
    var q;
    q, x := StartAt(g, cost, h, seeds, cutoff, r);
    SeededIsReady(g, cost, h, seeds, cutoff, x);
    var pops := 0;
    while |q| > 0
      invariant Shows(r, q, x) && Labelled(g, cost, h, seeds, cutoff, x) && Sized(g, x.l)
      invariant Guided(g, cost, h, seeds, cutoff, x) && Counted(seeds, x) && x.pr.current == -1
      decreases Below(|g.edges|) - x.pr.relaxed, |q|
    {
      if pops % CANCEL_CHECK_INTERVAL == 0 && ctxErr(pops / CANCEL_CHECK_INTERVAL) {
        return null, x;
      }
      pops := pops + 1;
      var it, rest := PopMin(q);
      var u := it.node;
      PushBound(g, cost, h, seeds, cutoff, x);
      PopLabelled(g, cost, h, seeds, cutoff, x, it);
      if it.prio > r.Cost[u].v {
        DropGuided(g, cost, h, seeds, cutoff, x, it);
        q, x := rest, Popped(x, it);
        continue;
      }
      if u == target {
        LeastAtPop(g, cost, h, seeds, cutoff, x, it);
        FinalOf(g, cost, h, seeds, cutoff, q, r, x);
        return r, x;
      }
      SettleGuided(g, cost, h, seeds, cutoff, x, it);
      ghost var y := Settling(x, it);
      q, x := Expand(g, cost, h, seeds, cutoff, u, -1, r, rest, y);
      Sizes(g, cost, h, seeds, cutoff, x);
      PushBound(g, cost, h, seeds, cutoff, x);
      assert y.pr.relaxed == x.pr.relaxed || Below(|g.edges|) - x.pr.relaxed < Below(|g.edges|) - y.pr.relaxed;
    }
    LeastAtEnd(g, cost, h, seeds, cutoff, x);
    FinalOf(g, cost, h, seeds, cutoff, q, r, x);
    PushBound(g, cost, h, seeds, cutoff, x);
    res := r;
  }

  lemma GraphSizes(g: Graph, cost: seq<real>)
    requires Indexed(g) && NonNegative(g, cost)
    ensures |g.adj| == g.n && |cost| == |g.edges|
  {
  }

  // What holds of A* between two rounds, with or without a consistent heuristic.
  ghost predicate Steady(g: Graph, cost: seq<real>, h: seq<real>, seeds: seq<Seed>, x: Snapshot) {
    && Labelled(g, cost, h, seeds, 0.0, x) && x.pr.current == -1
    && (Consistent(g, cost, h) ==> Guided(g, cost, h, seeds, 0.0, x))
  }

  lemma SteadyDrop(g: Graph, cost: seq<real>, h: seq<real>, seeds: seq<Seed>, x: Snapshot, it: Item)
    requires Steady(g, cost, h, seeds, x) && it in x.q && it.node in x.pr.settled
    ensures Steady(g, cost, h, seeds, Popped(x, it))
  {
    PopLabelled(g, cost, h, seeds, 0.0, x, it);
    if Consistent(g, cost, h) {
      DropGuided(g, cost, h, seeds, 0.0, x, it);
    }
  }

  lemma SteadySettle(g: Graph, cost: seq<real>, h: seq<real>, seeds: seq<Seed>, x: Snapshot, it: Item)
    requires Indexed(g) && Steady(g, cost, h, seeds, x) && IsMin(x.q, it) && it.node !in x.pr.settled
    ensures
      var y := Settling(x, it);
      && Labelled(g, cost, h, seeds, 0.0, y) && IsNode(g, it.node) && Sized(g, y.l) && y.l.cost[it.node].Fin?
      && (Consistent(g, cost, h) ==> Guided(g, cost, h, seeds, 0.0, y) && GuidedAt(g, h, it.node, 0, y))
      && (it.node in Below(g.n) && Below(g.n) - y.pr.settled < Below(g.n) - x.pr.settled)
  {
    PopLabelled(g, cost, h, seeds, 0.0, x, it);
    if Consistent(g, cost, h) {
      SettleGuided(g, cost, h, seeds, 0.0, x, it);
    }
  }

  // What A* promises about its goal.
  ghost predicate Found(g: Graph, cost: seq<real>, h: seq<real>, seeds: seq<Seed>, to: int, x: Snapshot)
    requires Sized(g, x.l) && IsNode(g, to) && |cost| == |g.edges|
  {
    Consistent(g, cost, h) ==> Tight(g, cost, x.l) && Least(g, cost, seeds, 0.0, to, x.l.cost[to])
  }

  lemma SteadyFound(g: Graph, cost: seq<real>, h: seq<real>, seeds: seq<Seed>, to: int, x: Snapshot, it: Item)
    requires Indexed(g) && NonNegative(g, cost) && Steady(g, cost, h, seeds, x) && IsNode(g, to)
    requires x.q == multiset{} || (IsMin(x.q, it) && it.node == to)
    ensures Sized(g, x.l) && Found(g, cost, h, seeds, to, x)
  {
    if Consistent(g, cost, h) {
      GuidedIsTight(g, cost, h, seeds, 0.0, x);
      if x.q == multiset{} {
        LeastAtEnd(g, cost, h, seeds, 0.0, x);
      } else {
        LeastAtPop(g, cost, h, seeds, 0.0, x, it);
      }
    }
  }

  lemma SteadyFinal(g: Graph, cost: seq<real>, h: seq<real>, seeds: seq<Seed>, q: multiset<Item>, res: SearchResult,
                    x: Snapshot)
    requires Shows(res, q, x) && Steady(g, cost, h, seeds, x)
    ensures Final(g, cost, seeds, 0.0, res, x) && Sized(g, x.l) && |cost| == |g.edges| && |h| == g.n
    ensures res.Cost.Length == res.PrevEdge.Length == g.n
    ensures forall it :: it in x.q ==> IsNode(g, it.node)
  {
  }

  ghost predicate Agrees(settled: seq<bool>, s: set<int>) {
    forall v :: 0 <= v < |settled| ==> (v in s <==> settled[v])
  }

  lemma NoneAgrees(settled: seq<bool>)
    requires forall v :: 0 <= v < |settled| ==> !settled[v]
    ensures Agrees(settled, {})
  {
  }

  lemma AgreesSet(settled: seq<bool>, s: set<int>, u: int)
    requires Agrees(settled, s) && 0 <= u < |settled|
    ensures u in s <==> settled[u]
    ensures Agrees(settled[u := true], s + {u})
  {
  }

  lemma SeededIsSteady(g: Graph, cost: seq<real>, h: seq<real>, seeds: seq<Seed>, x: Snapshot)
    requires Seeded(g, cost, h, seeds, 0.0, x)
    ensures Steady(g, cost, h, seeds, x) && x.pr.settled == {}
  {
  }

  lemma ExpandedIsSteady(g: Graph, cost: seq<real>, h: seq<real>, seeds: seq<Seed>, x: Snapshot)
    requires Labelled(g, cost, h, seeds, 0.0, x) && x.pr.current == -1
    requires Consistent(g, cost, h) ==> Guided(g, cost, h, seeds, 0.0, x)
    ensures Steady(g, cost, h, seeds, x)
  {
  }

  // Between two rounds of A*.
  ghost predicate Running(g: Graph, cost: seq<real>, h: seq<real>, s: int, x: Snapshot) {
    Steady(g, cost, h, [Seed(s, 0.0)], x) && Spread(g, s, -1, 0, x)
  }

  // One round of A* on its way to a goal: an item of least priority is dropped if its node has been
  // settled, and otherwise settled and expanded.
  ghost predicate AStarRound(g: Graph, cost: seq<real>, h: seq<real>, to: int, x: Snapshot, it: Item, y: Snapshot) {
    && IsMin(x.q, it)
    && if it.node in x.pr.settled then y == Popped(x, it)
       else it.node != to && Expanded(g, cost, h, 0.0, it.node, Settling(x, it), y)
  }

  // A state that A* can be in after n rounds.
  ghost predicate AfterRounds(g: Graph, cost: seq<real>, h: seq<real>, from: int, to: int, n: nat, x: Snapshot) {
    if n == 0 then IsNode(g, from) && |h| == g.n && x == SeededWith(g, h, [Seed(from, 0.0)])
    else exists y, it :: AfterRounds(g, cost, h, from, to, n - 1, y) && AStarRound(g, cost, h, to, y, it, x)
  }

  // A state in which A* can end: its queue is empty, or its goal is due.
  ghost predicate AStarEnd(g: Graph, cost: seq<real>, h: seq<real>, from: int, to: int, x: Snapshot) {
    && (exists n :: AfterRounds(g, cost, h, from, to, n, x))
    && (x.q == multiset{} || exists it :: IsMin(x.q, it) && it.node == to && to !in x.pr.settled)
  }

  lemma RunningStarts(g: Graph, cost: seq<real>, h: seq<real>, s: int, x: Snapshot)
    requires Seeded(g, cost, h, [Seed(s, 0.0)], 0.0, x) && |g.adj| == g.n
    ensures Running(g, cost, h, s, x) && x.pr.settled == {}
  {
    hide Spread, Steady;
    SeededIsSteady(g, cost, h, [Seed(s, 0.0)], x);
    SpreadStart(g, cost, h, s, x);
  }

  lemma RunningDrop(g: Graph, cost: seq<real>, h: seq<real>, s: int, x: Snapshot, it: Item)
    requires Running(g, cost, h, s, x) && it in x.q && it.node in x.pr.settled
    ensures Running(g, cost, h, s, Popped(x, it))
  {
    hide Spread, Steady;
    SteadyDrop(g, cost, h, [Seed(s, 0.0)], x, it);
    SpreadPop(g, s, x, it);
  }

  lemma RunningSettle(g: Graph, cost: seq<real>, h: seq<real>, s: int, x: Snapshot, it: Item)
    requires Indexed(g) && Running(g, cost, h, s, x) && IsMin(x.q, it) && it.node !in x.pr.settled
    ensures
      var y := Settling(x, it);
      && Labelled(g, cost, h, [Seed(s, 0.0)], 0.0, y) && IsNode(g, it.node) && Sized(g, y.l) && y.l.cost[it.node].Fin?
      && (Consistent(g, cost, h) ==> Guided(g, cost, h, [Seed(s, 0.0)], 0.0, y) && GuidedAt(g, h, it.node, 0, y))
      && (it.node in Below(g.n) && Below(g.n) - y.pr.settled < Below(g.n) - x.pr.settled)
      && Spread(g, s, it.node, 0, y)
  {
    hide Spread, Steady;
    SteadySettle(g, cost, h, [Seed(s, 0.0)], x, it);
    SpreadSettle(g, s, x, it);
  }

  lemma RunningAgain(g: Graph, cost: seq<real>, h: seq<real>, s: int, x: Snapshot)
    requires Labelled(g, cost, h, [Seed(s, 0.0)], 0.0, x) && x.pr.current == -1 && Spread(g, s, -1, 0, x)
    requires Consistent(g, cost, h) ==> Guided(g, cost, h, [Seed(s, 0.0)], 0.0, x)
    ensures Running(g, cost, h, s, x)
  {
    hide Spread;
    ExpandedIsSteady(g, cost, h, [Seed(s, 0.0)], x);
  }

  // A* is done when its queue is empty or its goal is due.
  lemma RunningEnds(g: Graph, cost: seq<real>, h: seq<real>, s: int, to: int, res: SearchResult, x: Snapshot, it: Item)
    requires Indexed(g) && NonNegative(g, cost) && Running(g, cost, h, s, x) && IsNode(g, to)
    requires Shows(res, x.q, x)
    requires x.q == multiset{} || (IsMin(x.q, it) && it.node == to)
    ensures Final(g, cost, [Seed(s, 0.0)], 0.0, res, x) && Sized(g, x.l)
    ensures Found(g, cost, h, [Seed(s, 0.0)], to, x) && Reaches(g, s, to, x.l.cost[to])
  {
    SteadyFinal(g, cost, h, [Seed(s, 0.0)], x.q, res, x);
    SteadyFound(g, cost, h, [Seed(s, 0.0)], to, x, it);
    assert Sound(g, cost, [Seed(s, 0.0)], to, x.l.cost[to]);
    hide Spread, Sound, Reaches, Found, Final;
    if x.q == multiset{} {
      SpreadReaches(g, cost, s, to, x);
    } else {
      SoundReaches(g, cost, s, to, x.l.cost[to]);
    }
  }

  // A* after any number of rounds.
  ghost predicate Searching(g: Graph, cost: seq<real>, h: seq<real>, from: int, to: int, x: Snapshot) {
    Running(g, cost, h, from, x) && exists n :: AfterRounds(g, cost, h, from, to, n, x)
  }

  lemma SearchingStarts(g: Graph, cost: seq<real>, h: seq<real>, from: int, to: int, x: Snapshot)
    requires Seeded(g, cost, h, [Seed(from, 0.0)], 0.0, x) && |g.adj| == g.n
    requires IsNode(g, from) && |h| == g.n && x == SeededWith(g, h, [Seed(from, 0.0)])
    ensures Searching(g, cost, h, from, to, x) && x.pr.settled == {}
  {
    hide Running, Seeded, SeededWith;
    RunningStarts(g, cost, h, from, x);
    assert AfterRounds(g, cost, h, from, to, 0, x);
  }

  lemma SearchingDrop(g: Graph, cost: seq<real>, h: seq<real>, from: int, to: int, x: Snapshot, it: Item)
    requires Searching(g, cost, h, from, to, x) && IsMin(x.q, it) && it.node in x.pr.settled
    ensures Searching(g, cost, h, from, to, Popped(x, it))
  {
    hide Running, AfterRounds;
    RunningDrop(g, cost, h, from, x, it);
    NextRound(g, cost, h, from, to, x, it, Popped(x, it));
  }

  lemma SearchingAgain(g: Graph, cost: seq<real>, h: seq<real>, from: int, to: int, x: Snapshot, it: Item, y: Snapshot)
    requires Searching(g, cost, h, from, to, x) && IsMin(x.q, it) && it.node !in x.pr.settled && it.node != to
    requires Expanded(g, cost, h, 0.0, it.node, Settling(x, it), y)
    requires Labelled(g, cost, h, [Seed(from, 0.0)], 0.0, y) && y.pr.current == -1 && Spread(g, from, -1, 0, y)
    requires Consistent(g, cost, h) ==> Guided(g, cost, h, [Seed(from, 0.0)], 0.0, y)
    ensures Searching(g, cost, h, from, to, y)
  {
    hide Running, AfterRounds, Expanded, Labelled, Spread, Guided, Consistent;
    RunningAgain(g, cost, h, from, y);
    NextRound(g, cost, h, from, to, x, it, y);
  }

  lemma NextRound(g: Graph, cost: seq<real>, h: seq<real>, from: int, to: int, x: Snapshot, it: Item, y: Snapshot)
    requires (exists n :: AfterRounds(g, cost, h, from, to, n, x)) && AStarRound(g, cost, h, to, x, it, y)
    ensures exists n :: AfterRounds(g, cost, h, from, to, n, y)
  {
    hide AStarRound;
    var n: nat :| AfterRounds(g, cost, h, from, to, n, x);
    assert AfterRounds(g, cost, h, from, to, n + 1, y);
  }

  lemma SearchingEnds(g: Graph, cost: seq<real>, h: seq<real>, from: int, to: int, res: SearchResult, x: Snapshot,
                      it: Item)
    requires Indexed(g) && NonNegative(g, cost) && Searching(g, cost, h, from, to, x) && IsNode(g, to)
    requires Shows(res, x.q, x)
    requires x.q == multiset{} || (IsMin(x.q, it) && it.node == to && to !in x.pr.settled)
    ensures Final(g, cost, [Seed(from, 0.0)], 0.0, res, x) && Sized(g, x.l)
    ensures Found(g, cost, h, [Seed(from, 0.0)], to, x) && Reaches(g, from, to, x.l.cost[to])
    ensures AStarEnd(g, cost, h, from, to, x)
  {
    hide Running, AfterRounds, Final, Found, Reaches;
    RunningEnds(g, cost, h, from, to, res, x, it);
  }

  // The round of a node that has not been settled.
  method SettleAndExpand(g: Graph, ghost from: int, ghost to: int, cost: seq<real>, h: seq<real>,
                         it: Item, res: SearchResult, q0: multiset<Item>, ghost x0: Snapshot)
      returns (q: multiset<Item>, ghost x: Snapshot)
    requires Indexed(g) && NonNegative(g, cost) && |h| == g.n && Searching(g, cost, h, from, to, x0)
    requires Shows(res, x0.q, x0) && IsMin(x0.q, it) && q0 == x0.q - multiset{it}
    requires it.node !in x0.pr.settled && it.node != to
    modifies res.Cost, res.PrevEdge
    ensures Shows(res, q, x) && Searching(g, cost, h, from, to, x)
    ensures x.pr.settled == x0.pr.settled + {it.node}
    ensures it.node in Below(g.n)
  {
    hide Searching, Expanded, Labelled, Guided, GuidedAt, Consistent, Indexed, NonNegative, Spread;
    GraphSizes(g, cost);
    SearchingSettle(g, cost, h, from, to, x0, it);
    q, x := Expand(g, cost, h, [Seed(from, 0.0)], 0.0, it.node, from, res, q0, Settling(x0, it));
    SearchingAgain(g, cost, h, from, to, x0, it, x);
  }

  // AStar towards `to`, with the heuristic as the list of its values. It settles every node at
  // most once and labels `to` exactly when a walk leads there, whatever the heuristic; when the
  // heuristic is consistent the label of `to` is the cost of a cheapest walk.
  method AStar(g: Graph, from: int, to: int, cost: seq<real>, h: seq<real>, ctxErr: nat -> bool)
      returns (res: SearchResult?, ghost x: Snapshot)
    requires Indexed(g) && NonNegative(g, cost) && |h| == g.n && IsNode(g, from) && IsNode(g, to)
    ensures res == null ==> exists k :: ctxErr(k)
    ensures res != null ==>
      && fresh(res) && fresh(res.Cost) && fresh(res.PrevEdge)
      && Final(g, cost, [Seed(from, 0.0)], 0.0, res, x) && Sized(g, x.l)
      && Found(g, cost, h, [Seed(from, 0.0)], to, x) && Reaches(g, from, to, x.l.cost[to])
      && AStarEnd(g, cost, h, from, to, x)
  {
    hide Searching, SeededWith, Seeded, Final, Found, Indexed, NonNegative, Agrees, Reaches, AStarEnd, Counted, Shows;
    GraphSizes(g, cost);
    var r := new SearchResult(g.n);
    var q;
    q, x := StartAt(g, cost, h, [Seed(from, 0.0)], 0.0, r);
    SearchingStarts(g, cost, h, from, to, x);
    var settled := new bool[g.n](_ => false);
    NoneAgrees(settled[..]);
    var pops := 0;
    while |q| > 0
      invariant fresh(settled) && settled.Length == g.n
      invariant Shows(r, q, x) && Searching(g, cost, h, from, to, x)
      invariant Agrees(settled[..], x.pr.settled)
      decreases Below(g.n) - x.pr.settled, |q|
    {
      if pops % CANCEL_CHECK_INTERVAL == 0 && ctxErr(pops / CANCEL_CHECK_INTERVAL) {
        return null, x;
      }
      pops := pops + 1;
      SearchingSizes(g, cost, h, from, to, r, q, x);
      var it, rest := PopMin(q);
      var u := it.node;
      AgreesSet(settled[..], x.pr.settled, u);
      if settled[u] {
        SearchingDrop(g, cost, h, from, to, x, it);
        ShowsPop(r, x, it);
        q, x := rest, Popped(x, it);
        continue;
      }
      settled[u] := true;
      if u == to {
        SearchingEnds(g, cost, h, from, to, r, x, it);
        return r, x;
      }
      q, x := SettleAndExpand(g, from, to, cost, h, it, r, rest, x);
    }
    SearchingSizes(g, cost, h, from, to, r, q, x);
    SearchingEnds(g, cost, h, from, to, r, x, Item(to, 0.0));
    res := r;
  }

  lemma SearchingSettle(g: Graph, cost: seq<real>, h: seq<real>, from: int, to: int, x: Snapshot, it: Item)
    requires Indexed(g) && Searching(g, cost, h, from, to, x) && IsMin(x.q, it) && it.node !in x.pr.settled
    ensures
      var y := Settling(x, it);
      && Labelled(g, cost, h, [Seed(from, 0.0)], 0.0, y)
      && IsNode(g, it.node) && Sized(g, y.l) && y.l.cost[it.node].Fin?
      && (Consistent(g, cost, h) ==> Guided(g, cost, h, [Seed(from, 0.0)], 0.0, y) && GuidedAt(g, h, it.node, 0, y))
      && (it.node in Below(g.n) && Below(g.n) - y.pr.settled < Below(g.n) - x.pr.settled)
      && Spread(g, from, it.node, 0, y)
  {
    hide Running, AfterRounds;
    RunningSettle(g, cost, h, from, x, it);
  }

  lemma SearchingSizes(g: Graph, cost: seq<real>, h: seq<real>, s: int, to: int, res: SearchResult, q: multiset<Item>,
                       x: Snapshot)
    requires Shows(res, q, x) && Searching(g, cost, h, s, to, x)
    ensures Sized(g, x.l) && res.Cost.Length == res.PrevEdge.Length == g.n && x.q == q
    ensures forall it :: it in q ==> IsNode(g, it.node)
  {
  }

  lemma ShowsPop(res: SearchResult, x: Snapshot, it: Item)
    requires Shows(res, x.q, x)
    ensures Shows(res, x.q - multiset{it}, Popped(x, it))
  {
  }

  // ----- paths

  // The labelled nodes that come before v, by cost and, at equal cost, by time.
  ghost function Earlier(g: Graph, l: Labels, v: int): set<int>
    requires Sized(g, l) && IsNode(g, v)
  {
    if l.cost[v].Inf? then {} else
      set w | 0 <= w < g.n && l.cost[w].Fin? &&
              (l.cost[w].v < l.cost[v].v || (l.cost[w].v == l.cost[v].v && l.stamp[w] < l.stamp[v]))
  }

  // Following an incoming edge backwards leads to an earlier node: there are no cycles, not even
  // over edges that cost nothing.
  lemma EarlierShrinks(g: Graph, cost: seq<real>, seeds: seq<Seed>, cutoff: real, l: Labels, clock: int, v: int)
    requires LabelsOk(g, cost, seeds, cutoff, l, clock) && NonNegative(g, cost)
    requires IsNode(g, v) && l.prev[v] >= 0
    ensures IsEdge(g, l.prev[v]) && IsNode(g, g.edges[l.prev[v]].from)
    ensures Earlier(g, l, g.edges[l.prev[v]].from) < Earlier(g, l, v)
  {
    assert BackLinked(g, cost, l, v);
    var u := g.edges[l.prev[v]].from;
    assert u in Earlier(g, l, v) && u !in Earlier(g, l, u);
  }

  lemma {:induction false} WalkFrom(g: Graph, cost: seq<real>, e: int, p: seq<int>, t: int)
    requires IsEdge(g, e) && Walk(g, g.edges[e].to, p, t) && |cost| == |g.edges|
    ensures Walk(g, g.edges[e].from, [e] + p, t)
    ensures Length(g, cost, [e] + p) == cost[e] + Length(g, cost, p)
    decreases |p|
  {
    var q := [e] + p;
    if p == [] {
      assert q[..0] == [];
    } else {
      assert q[..|q| - 1] == [e] + p[..|p| - 1];
      WalkFrom(g, cost, e, p[..|p| - 1], g.edges[p[|p| - 1]].from);
    }
  }

  ghost function Reversed(s: seq<int>): (r: seq<int>)
    ensures |r| == |s| && forall i :: 0 <= i < |s| ==> r[i] == s[|s| - 1 - i]
  {
    seq(|s|, i requires 0 <= i < |s| => s[|s| - 1 - i])
  }

  // The swapping loop at the end of PathTo.
  method ReverseSlice(s: seq<int>) returns (r: seq<int>)
    ensures r == Reversed(s)
  {
    r := s;
    var i, j := 0, |s| - 1;
    while i < j
      invariant 0 <= i && j == |s| - 1 - i && i <= j + 1 && |r| == |s|
      invariant forall k :: 0 <= k < i || j < k < |s| ==> r[k] == s[|s| - 1 - k]
      invariant forall k :: i <= k <= j ==> r[k] == s[k]
    {
      r := r[i := r[j]][j := r[i]];
      i, j := i + 1, j - 1;
    }
    assert forall k :: 0 <= k < |s| ==> r[k] == s[|s| - 1 - k];
  }

  // The result of PathTo: a chain of edges from a node without an incoming edge to t, which costs
  // no more than the labels say, and exactly as much when the labels are tight.
  ghost predicate LabelPath(g: Graph, cost: seq<real>, l: Labels, root: int, path: seq<int>, t: int)
    requires Sized(g, l) && IsNode(g, t) && |cost| == |g.edges|
  {
    && IsNode(g, root) && l.prev[root] < 0 && l.cost[root].Fin? && l.cost[t].Fin?
    && Walk(g, root, path, t)
    && l.cost[root].v + Length(g, cost, path) <= l.cost[t].v
    && (Tight(g, cost, l) ==> l.cost[root].v + Length(g, cost, path) == l.cost[t].v)
  }

  // The edges gathered so far, read backwards, lead from `at` to t.
  ghost predicate PartialPath(g: Graph, cost: seq<real>, l: Labels, at: int, rev: seq<int>, t: int)
    requires Sized(g, l) && IsNode(g, t) && |cost| == |g.edges|
  {
    && IsNode(g, at) && l.cost[at].Fin? && l.cost[t].Fin?
    && Walk(g, at, Reversed(rev), t)
    && l.cost[at].v + Length(g, cost, Reversed(rev)) <= l.cost[t].v
    && (Tight(g, cost, l) ==> l.cost[at].v + Length(g, cost, Reversed(rev)) == l.cost[t].v)
  }

  lemma StepBack(g: Graph, cost: seq<real>, l: Labels, at: int, rev: seq<int>, t: int)
    requires Sized(g, l) && IsNode(g, t) && |cost| == |g.edges|
    requires PartialPath(g, cost, l, at, rev, t) && l.prev[at] >= 0 && BackLinked(g, cost, l, at)
    ensures PartialPath(g, cost, l, g.edges[l.prev[at]].from, rev + [l.prev[at]], t)
  {
    var e := l.prev[at];
    assert Reversed(rev + [e]) == [e] + Reversed(rev);
    WalkFrom(g, cost, e, Reversed(rev), t);
  }

  method PathTo(g: Graph, ghost cost: seq<real>, ghost seeds: seq<Seed>, ghost cutoff: real, res: SearchResult,
                ghost x: Snapshot, t: int)
      returns (path: seq<int>, ghost root: int)
    requires NonNegative(g, cost) && IsNode(g, t) && Final(g, cost, seeds, cutoff, res, x)
    ensures x.l.cost[t].Inf? ==> path == []
    ensures x.l.cost[t].Fin? ==> LabelPath(g, cost, x.l, root, path, t)
    ensures x.l.cost[t].Fin? ==> exists k :: 0 <= k < |seeds| && seeds[k] == Seed(root, x.l.cost[root].v)
  {
    ghost var l := x.l;
    root := t;
    if res.Cost[t].Inf? {
      return [], root;
    }
    var rev: seq<int> := [];
    var at := t;
    while res.PrevEdge[at] >= 0
      invariant PartialPath(g, cost, l, at, rev, t)
      decreases Earlier(g, l, at)
    {
      EarlierShrinks(g, cost, seeds, cutoff, l, x.clock, at);
      StepBack(g, cost, l, at, rev, t);
      var ei := res.PrevEdge[at];
      rev := rev + [ei];
      at := g.edges[ei].from;
    }
    path := ReverseSlice(rev);
    root := at;
    assert Rooted(g, seeds, cutoff, l, at);
  }
}
