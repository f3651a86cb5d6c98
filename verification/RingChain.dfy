/** Chaining contour segments into rings: chain in internal/algo/routing/marching.go. */
module RingChain {
  import opened MarchingSquares

  // What chain relies on: no segment is a loop or a double of another, every midpoint lies on
  // exactly two segments, and segments that meet have different colours.
  ghost predicate ClosedField(segs: seq<Seg>, colour: seq<bool>) {
    && |colour| == |segs|
    && (forall i :: 0 <= i < |segs| ==> segs[i].a != segs[i].b)
    && (forall i, j :: 0 <= i < |segs| && 0 <= j < |segs| && i != j ==> !Joins(segs[i], segs[j].a, segs[j].b))
    && (forall i, v :: 0 <= i < |segs| && Ends(segs[i], v) ==> exists j :: OnlyOther(segs, i, v, j))
    && (forall i, j, v :: 0 <= i < |segs| && 0 <= j < |segs| && i != j && Ends(segs[i], v) && Ends(segs[j], v) ==>
          colour[i] != colour[j])
  }

  // ----- adjacency lists

  predicate Listed(adj: map<VKey, seq<VKey>>, v: VKey, w: VKey) {
    v in adj && w in adj[v]
  }

  function Link(adj: map<VKey, seq<VKey>>, v: VKey, w: VKey): (r: map<VKey, seq<VKey>>)
    ensures forall p, q :: Listed(r, p, q) <==> Listed(adj, p, q) || (p == v && q == w)
  {
    adj[v := (if v in adj then adj[v] else []) + [w]]
  }

  ghost predicate Adjacency(segs: seq<Seg>, n: int, adj: map<VKey, seq<VKey>>)
    requires 0 <= n <= |segs|
  {
    forall v, w :: Listed(adj, v, w) <==> exists i :: 0 <= i < n && Joins(segs[i], v, w)
  }

  method BuildAdjacency(segs: seq<Seg>) returns (adj: map<VKey, seq<VKey>>)
    ensures Adjacency(segs, |segs|, adj)
  {
    adj := map[];
    for n := 0 to |segs|
      invariant Adjacency(segs, n, adj)
    {
      ghost var before := adj;
      var s := segs[n];
      adj := Link(Link(adj, s.a, s.b), s.b, s.a);
      forall v, w
        ensures Listed(adj, v, w) <==> exists i :: 0 <= i < n + 1 && Joins(segs[i], v, w)
      {
        assert Listed(adj, v, w) <==> Listed(before, v, w) || Joins(s, v, w);
      }
    }
  }

  // ----- used edges

  type Pairs = set<(VKey, VKey)>

  predicate EdgeUsed(used: Pairs, v: VKey, w: VKey) {
    (v, w) in used || (w, v) in used
  }

  ghost predicate Taken(segs: seq<Seg>, used: Pairs, i: int) {
    0 <= i < |segs| && EdgeUsed(used, segs[i].a, segs[i].b)
  }

  lemma MarkOne(segs: seq<Seg>, colour: seq<bool>, used: Pairs, j: int, v: VKey, w: VKey)
    requires ClosedField(segs, colour) && 0 <= j < |segs| && Joins(segs[j], v, w)
    ensures forall i :: Taken(segs, used + {(v, w)}, i) <==> Taken(segs, used, i) || i == j
  {
    forall i | 0 <= i < |segs|
      ensures Taken(segs, used + {(v, w)}, i) <==> Taken(segs, used, i) || i == j
    {
      if i != j {
        assert !Joins(segs[i], segs[j].a, segs[j].b);
      }
    }
  }

  // The segments at v are all taken or all free.
  ghost predicate Balanced(segs: seq<Seg>, used: Pairs, v: VKey) {
    forall i, j :: 0 <= i < |segs| && 0 <= j < |segs| && Ends(segs[i], v) && Ends(segs[j], v) ==>
      (Taken(segs, used, i) <==> Taken(segs, used, j))
  }

  ghost predicate AllBalanced(segs: seq<Seg>, used: Pairs) {
    forall v :: Balanced(segs, used, v)
  }

  // Segment i is the one taken segment at v.
  ghost predicate HalfTaken(segs: seq<Seg>, used: Pairs, v: VKey, i: int) {
    && 0 <= i < |segs| && Ends(segs[i], v) && Taken(segs, used, i)
    && (forall k :: 0 <= k < |segs| && Ends(segs[k], v) && k != i ==> !Taken(segs, used, k))
  }

  // The state of an unfinished ring: only its two loose ends have one segment taken and one free.
  ghost predicate Walking(segs: seq<Seg>, used: Pairs, first: int, last: int, start: VKey, cur: VKey) {
    && start != cur
    && HalfTaken(segs, used, start, first)
    && HalfTaken(segs, used, cur, last)
    && (forall v :: v != start && v != cur ==> Balanced(segs, used, v))
  }

  ghost predicate Touched(segs: seq<Seg>, used: Pairs, v: VKey) {
    exists i :: 0 <= i < |segs| && Ends(segs[i], v) && Taken(segs, used, i)
  }

  lemma StartWalk(segs: seq<Seg>, colour: seq<bool>, used: Pairs, n: int)
    requires ClosedField(segs, colour) && AllBalanced(segs, used) && 0 <= n < |segs| && !Taken(segs, used, n)
    ensures Walking(segs, used + {(segs[n].a, segs[n].b)}, n, n, segs[n].a, segs[n].b)
    ensures !Touched(segs, used, segs[n].a) && !Touched(segs, used, segs[n].b)
  {
    var s := segs[n];
    MarkOne(segs, colour, used, n, s.a, s.b);
    assert Balanced(segs, used, s.a) && Balanced(segs, used, s.b);
    forall v | v != s.a && v != s.b
      ensures Balanced(segs, used + {(s.a, s.b)}, v)
    {
      assert Balanced(segs, used, v);
    }
  }

  // From a loose end there is always a free segment on, and it does not lead straight back.
  lemma WayOn(segs: seq<Seg>, colour: seq<bool>, used: Pairs, first: int, last: int, start: VKey, prev: VKey, cur: VKey)
      returns (j: int, next: VKey)
    requires ClosedField(segs, colour) && Walking(segs, used, first, last, start, cur) && Joins(segs[last], prev, cur)
    ensures OnlyOther(segs, last, cur, j) && !Taken(segs, used, j) && Joins(segs[j], cur, next)
    ensures next != prev && !EdgeUsed(used, cur, next)
  {
    j :| OnlyOther(segs, last, cur, j);
    next := if segs[j].a == cur then segs[j].b else segs[j].a;
    assert !Joins(segs[j], segs[last].a, segs[last].b);
  }

  // Any neighbour that chain accepts is at the end of that free segment.
  lemma OnlyWayOn(segs: seq<Seg>, colour: seq<bool>, used: Pairs, first: int, last: int, start: VKey, prev: VKey,
                  cur: VKey, j: int, k: int, next: VKey)
    requires ClosedField(segs, colour) && Walking(segs, used, first, last, start, cur) && Joins(segs[last], prev, cur)
    requires OnlyOther(segs, last, cur, j)
    requires 0 <= k < |segs| && Joins(segs[k], cur, next) && next != prev
    ensures k == j
  {
  }

  // Taking the free segment moves the loose end along it, or closes the ring.
  lemma StepWalk(segs: seq<Seg>, colour: seq<bool>, used: Pairs, first: int, last: int, start: VKey, cur: VKey,
                 j: int, next: VKey)
    requires ClosedField(segs, colour) && Walking(segs, used, first, last, start, cur)
    requires OnlyOther(segs, last, cur, j) && !Taken(segs, used, j) && Joins(segs[j], cur, next)
    ensures
      var used' := used + {(cur, next)};
      if next == start then AllBalanced(segs, used') else Walking(segs, used', first, j, start, next)
    ensures next != start ==> !Touched(segs, used, next)
    ensures next == start ==> colour[j] != colour[first]
  {
    var used' := used + {(cur, next)};
    MarkOne(segs, colour, used, j, cur, next);
    assert next != cur;
    forall v | v != next && v != start
      ensures Balanced(segs, used', v)
    {
      if v != cur {
        assert Balanced(segs, used, v);
        assert !Ends(segs[j], v);
      }
    }
    if next == start {
      StartIsClosed(segs, colour, used, used', first, start, j);
    } else {
      assert Balanced(segs, used, next);
      assert HalfTaken(segs, used', next, j);
      assert HalfTaken(segs, used', start, first);
    }
  }

  lemma StartIsClosed(segs: seq<Seg>, colour: seq<bool>, used: Pairs, used': Pairs, first: int, start: VKey, j: int)
    requires ClosedField(segs, colour) && HalfTaken(segs, used, start, first)
    requires 0 <= j < |segs| && Ends(segs[j], start) && !Taken(segs, used, j)
    requires forall i :: Taken(segs, used', i) <==> Taken(segs, used, i) || i == j
    ensures Balanced(segs, used', start)
    ensures colour[j] != colour[first]
  {
    var o :| OnlyOther(segs, first, start, o);
    assert o == j;
  }

  // ----- one ring

  // The points of a ring and the segments between them, walked from segment n on. used0 is what
  // was used before the ring was begun.
  ghost predicate Trail(segs: seq<Seg>, colour: seq<bool>, used0: Pairs, used: Pairs, n: int, ring: seq<VKey>,
                        path: seq<int>)
    requires |colour| == |segs|
  {
    && Linked(segs, ring, path)
    && path[0] == n && ring[0] == segs[n].a
    && Takes(segs, used0, used, path)
    && Alternates(segs, colour, n, path)
  }

  ghost predicate Linked(segs: seq<Seg>, ring: seq<VKey>, path: seq<int>) {
    && |ring| == |path| + 1 && |path| >= 1
    && (forall p :: 0 <= p < |path| ==> 0 <= path[p] < |segs| && Joins(segs[path[p]], ring[p], ring[p + 1]))
  }

  ghost predicate Takes(segs: seq<Seg>, used0: Pairs, used: Pairs, path: seq<int>) {
    && (forall p, q :: 0 <= p < q < |path| ==> path[p] != path[q])
    && (forall p :: 0 <= p < |path| ==> !Taken(segs, used0, path[p]))
    && (forall i :: Taken(segs, used, i) <==> Taken(segs, used0, i) || i in path)
  }

  ghost predicate Alternates(segs: seq<Seg>, colour: seq<bool>, n: int, path: seq<int>)
    requires |colour| == |segs|
  {
    && 0 <= n < |segs|
    && (forall p :: 0 <= p < |path| ==> 0 <= path[p] < |segs| && (colour[path[p]] == colour[n] <==> p % 2 == 0))
  }

  lemma ExtendTakes(segs: seq<Seg>, used0: Pairs, used: Pairs, used': Pairs, path: seq<int>, j: int)
    requires Takes(segs, used0, used, path) && !Taken(segs, used, j)
    requires forall i :: Taken(segs, used', i) <==> Taken(segs, used, i) || i == j
    ensures Takes(segs, used0, used', path + [j])
  {
    forall i
      ensures Taken(segs, used', i) <==> Taken(segs, used0, i) || i in path + [j]
    {
      assert Taken(segs, used, i) <==> Taken(segs, used0, i) || i in path;
    }
  }

  lemma ExtendAlternates(segs: seq<Seg>, colour: seq<bool>, n: int, path: seq<int>, j: int)
    requires |colour| == |segs| && Alternates(segs, colour, n, path)
    requires |path| > 0 && 0 <= j < |segs| && colour[j] != colour[path[|path| - 1]]
    ensures Alternates(segs, colour, n, path + [j])
  {
    var p := |path| - 1;
    assert colour[path[p]] == colour[n] <==> p % 2 == 0;
  }

  // The first k points of a ring are on no earlier ring and all different.
  ghost predicate NewPoints(segs: seq<Seg>, used0: Pairs, ring: seq<VKey>, k: int)
    requires k <= |ring|
  {
    && (forall p :: 0 <= p < k ==> !Touched(segs, used0, ring[p]))
    && (forall p, q :: 0 <= p < q < k ==> ring[p] != ring[q])
  }

  lemma TrailTouches(segs: seq<Seg>, colour: seq<bool>, used0: Pairs, used: Pairs, n: int, ring: seq<VKey>,
                     path: seq<int>, p: int)
    requires |colour| == |segs| && Trail(segs, colour, used0, used, n, ring, path) && 0 <= p < |ring|
    ensures Touched(segs, used, ring[p])
  {
    var i := if p < |path| then p else p - 1;
    assert Joins(segs[path[i]], ring[i], ring[i + 1]);
    assert Taken(segs, used, path[i]) && Ends(segs[path[i]], ring[p]);
  }

  lemma ExtendTrail(segs: seq<Seg>, colour: seq<bool>, used0: Pairs, used: Pairs, n: int, ring: seq<VKey>,
                    path: seq<int>, j: int, next: VKey)
    requires ClosedField(segs, colour) && Trail(segs, colour, used0, used, n, ring, path)
    requires OnlyOther(segs, path[|path| - 1], ring[|path|], j)
    requires !Taken(segs, used, j) && Joins(segs[j], ring[|path|], next)
    ensures Trail(segs, colour, used0, used + {(ring[|path|], next)}, n, ring + [next], path + [j])
  {
    MarkOne(segs, colour, used, j, ring[|path|], next);
    ExtendTakes(segs, used0, used, used + {(ring[|path|], next)}, path, j);
    var last := path[|path| - 1];
    assert Joins(segs[last], ring[|path| - 1], ring[|path|]);
    assert colour[last] != colour[j];
    ExtendAlternates(segs, colour, n, path, j);
  }

  lemma ExtendPoints(segs: seq<Seg>, colour: seq<bool>, used0: Pairs, used: Pairs, n: int, ring: seq<VKey>,
                     path: seq<int>, next: VKey)
    requires |colour| == |segs| && Trail(segs, colour, used0, used, n, ring, path)
    requires NewPoints(segs, used0, ring, |ring|) && !Touched(segs, used, next)
    ensures NewPoints(segs, used0, ring + [next], |ring| + 1)
  {
    forall p | 0 <= p < |ring|
      ensures ring[p] != next
    {
      TrailTouches(segs, colour, used0, used, n, ring, path, p);
    }
    forall i | 0 <= i < |segs| && Ends(segs[i], next)
      ensures !Taken(segs, used0, i)
    {
      assert !Taken(segs, used, i);
    }
  }

  // The first neighbour that is neither where the walk came from nor across a used edge.
  method FirstFree(neighbours: seq<VKey>, used: Pairs, prev: VKey, cur: VKey) returns (advanced: bool, next: VKey)
    ensures advanced ==> next in neighbours && next != prev && !EdgeUsed(used, cur, next)
    ensures !advanced ==> forall w :: w in neighbours ==> w == prev || EdgeUsed(used, cur, w)
  {
    advanced, next := false, cur;
    for k := 0 to |neighbours|
      invariant !advanced
      invariant forall w :: w in neighbours[..k] ==> w == prev || EdgeUsed(used, cur, w)
    {
      if neighbours[k] != prev && !EdgeUsed(used, cur, neighbours[k]) {
        return true, neighbours[k];
      }
    }
  }

  ghost function Free(segs: seq<Seg>, used: Pairs): set<int> {
    set i | 0 <= i < |segs| && !Taken(segs, used, i)
  }

  lemma FreeShrinks(segs: seq<Seg>, colour: seq<bool>, used: Pairs, j: int, v: VKey, w: VKey)
    requires ClosedField(segs, colour) && 0 <= j < |segs| && Joins(segs[j], v, w) && !Taken(segs, used, j)
    ensures Free(segs, used + {(v, w)}) < Free(segs, used)
  {
    MarkOne(segs, colour, used, j, v, w);
    assert j in Free(segs, used) && j !in Free(segs, used + {(v, w)});
  }

  // A finished ring: back at its start after an even number, at least four, of segments.
  predicate ClosedRing(ring: seq<VKey>) {
    && |ring| >= 5 && |ring| % 2 == 1
    && ring[0] == ring[|ring| - 1]
    && (forall p, q :: 0 <= p < q < |ring| - 1 ==> ring[p] != ring[q])
  }

  lemma RingIsLong(segs: seq<Seg>, colour: seq<bool>, used0: Pairs, used: Pairs, n: int, ring: seq<VKey>,
                   path: seq<int>)
    requires ClosedField(segs, colour) && Trail(segs, colour, used0, used, n, ring, path)
    requires ring[|path|] == ring[0] && colour[path[|path| - 1]] != colour[n]
    ensures |path| % 2 == 0 && |path| >= 4
  {
    assert |path| % 2 == 0;
    assert path[0] != path[1];
    assert Joins(segs[path[0]], ring[0], ring[1]) && Joins(segs[path[1]], ring[1], ring[2]);
  }

  // What holds whenever the walk looks for its next segment, and when it is done.
  ghost predicate WalkState(segs: seq<Seg>, colour: seq<bool>, used0: Pairs, used: Pairs, n: int,
                            ring: seq<VKey>, path: seq<int>, prev: VKey, cur: VKey) {
    && |colour| == |segs|
    && Trail(segs, colour, used0, used, n, ring, path)
    && cur == ring[|path|] && prev == ring[|path| - 1]
    && (cur != ring[0] ==>
          && Walking(segs, used, n, path[|path| - 1], ring[0], cur)
          && NewPoints(segs, used0, ring, |ring|))
    && (cur == ring[0] ==>
          && AllBalanced(segs, used)
          && NewPoints(segs, used0, ring, |ring| - 1)
          && colour[path[|path| - 1]] != colour[n])
  }

  lemma BeginState(segs: seq<Seg>, colour: seq<bool>, used0: Pairs, n: int)
    requires ClosedField(segs, colour) && AllBalanced(segs, used0) && 0 <= n < |segs| && !Taken(segs, used0, n)
    ensures WalkState(segs, colour, used0, used0 + {(segs[n].a, segs[n].b)}, n,
                      [segs[n].a, segs[n].b], [n], segs[n].a, segs[n].b)
  {
    StartWalk(segs, colour, used0, n);
    MarkOne(segs, colour, used0, n, segs[n].a, segs[n].b);
  }

  // The neighbour list of a loose end holds an acceptable neighbour.
  lemma NotStuck(segs: seq<Seg>, colour: seq<bool>, adj: map<VKey, seq<VKey>>, used0: Pairs, used: Pairs, n: int,
                 ring: seq<VKey>, path: seq<int>, prev: VKey, cur: VKey) returns (w: VKey)
    requires ClosedField(segs, colour) && Adjacency(segs, |segs|, adj)
    requires WalkState(segs, colour, used0, used, n, ring, path, prev, cur) && cur != ring[0]
    ensures Listed(adj, cur, w) && w != prev && !EdgeUsed(used, cur, w)
  {
    var j;
    j, w := WayOn(segs, colour, used, n, path[|path| - 1], ring[0], prev, cur);
    assert 0 <= j < |segs| && Joins(segs[j], cur, w);
  }

  // Moving on to an acceptable neighbour keeps the state and uses up a segment.
  lemma MoveOn(segs: seq<Seg>, colour: seq<bool>, adj: map<VKey, seq<VKey>>, used0: Pairs, used: Pairs, n: int,
               ring: seq<VKey>, path: seq<int>, prev: VKey, cur: VKey, next: VKey) returns (j: int)
    requires ClosedField(segs, colour) && Adjacency(segs, |segs|, adj)
    requires WalkState(segs, colour, used0, used, n, ring, path, prev, cur) && cur != ring[0]
    requires Listed(adj, cur, next) && next != prev && !EdgeUsed(used, cur, next)
    ensures WalkState(segs, colour, used0, used + {(cur, next)}, n, ring + [next], path + [j], cur, next)
    ensures Free(segs, used + {(cur, next)}) < Free(segs, used)
  {
    hide ClosedField, Free, AllBalanced;
    var last := path[|path| - 1];
    var other;
    j, other := WayOn(segs, colour, used, n, last, ring[0], prev, cur);
    var k :| 0 <= k < |segs| && Joins(segs[k], cur, next);
    OnlyWayOn(segs, colour, used, n, last, ring[0], prev, cur, j, k, next);
    StepWalk(segs, colour, used, n, last, ring[0], cur, j, next);
    ExtendTrail(segs, colour, used0, used, n, ring, path, j, next);
    FreeShrinks(segs, colour, used, j, cur, next);
    if next != ring[0] {
      ExtendPoints(segs, colour, used0, used, n, ring, path, next);
    }
  }

  // The walk from one unused segment until it is back at its start. `open` is the break that the
  // original marks as impossible on a valid field.
  method Walk(segs: seq<Seg>, ghost colour: seq<bool>, adj: map<VKey, seq<VKey>>, used0: Pairs, n: int)
      returns (ring: seq<VKey>, used: Pairs, open: bool, ghost path: seq<int>)
    requires ClosedField(segs, colour) && Adjacency(segs, |segs|, adj) && AllBalanced(segs, used0)
    requires 0 <= n < |segs| && !Taken(segs, used0, n)
    ensures ClosedRing(ring) && ring[0] == segs[n].a
    ensures !open
    ensures AllBalanced(segs, used) && Trail(segs, colour, used0, used, n, ring, path)
    ensures NewPoints(segs, used0, ring, |ring| - 1)
  {
    var s := segs[n];
    ring := [s.a, s.b];
    used := used0 + {(s.a, s.b)};
    path := [n];
    BeginState(segs, colour, used0, n);
    var prev, cur := s.a, s.b;
    open := false;
    while cur != s.a && !open
      invariant !open
      invariant WalkState(segs, colour, used0, used, n, ring, path, prev, cur)
      decreases Free(segs, used)
    {
      ghost var w := NotStuck(segs, colour, adj, used0, used, n, ring, path, prev, cur);
      var advanced, next := FirstFree(adj[cur], used, prev, cur);
      if !advanced {
        open := true;
      } else {
        ghost var j := MoveOn(segs, colour, adj, used0, used, n, ring, path, prev, cur, next);
        used := used + {(cur, next)};
        ring := ring + [next];
        path := path + [j];
        prev, cur := cur, next;
      }
    }
    RingIsLong(segs, colour, used0, used, n, ring, path);
  }

  // ----- all rings

  function RingEdges(ring: seq<VKey>): seq<(VKey, VKey)> {
    if |ring| < 2 then [] else seq(|ring| - 1, p requires 0 <= p < |ring| - 1 => (ring[p], ring[p + 1]))
  }

  // The edges of all rings laid end to end.
  function AllEdges(rings: seq<seq<VKey>>): seq<(VKey, VKey)> {
    if rings == [] then [] else AllEdges(rings[..|rings| - 1]) + RingEdges(rings[|rings| - 1])
  }

  // The edges run through the segments in the given order, none of them twice.
  ghost predicate RunsThrough(segs: seq<Seg>, edges: seq<(VKey, VKey)>, order: seq<int>) {
    && |order| == |edges|
    && (forall q :: 0 <= q < |order| ==> 0 <= order[q] < |segs| && Joins(segs[order[q]], edges[q].0, edges[q].1))
    && (forall q, r :: 0 <= q < r < |order| ==> order[q] != order[r])
  }

  ghost predicate OnRing(rings: seq<seq<VKey>>, v: VKey) {
    exists k :: 0 <= k < |rings| && v in rings[k]
  }

  lemma {:induction false} EdgePointsOnRings(rings: seq<seq<VKey>>, q: int)
    requires 0 <= q < |AllEdges(rings)|
    ensures OnRing(rings, AllEdges(rings)[q].0) && OnRing(rings, AllEdges(rings)[q].1)
  {
    var init, ring := rings[..|rings| - 1], rings[|rings| - 1];
    if q < |AllEdges(init)| {
      EdgePointsOnRings(init, q);
      assert forall v :: OnRing(init, v) ==> OnRing(rings, v);
    } else {
      var p := q - |AllEdges(init)|;
      assert AllEdges(rings)[q] == RingEdges(ring)[p] == (ring[p], ring[p + 1]);
      assert ring[p] in ring && ring[p + 1] in ring;
    }
  }

  // The points of the rings are the ends of the segments.
  lemma RingPoints(segs: seq<Seg>, used: Pairs, rings: seq<seq<VKey>>, order: seq<int>, v: VKey)
    requires RunsThrough(segs, AllEdges(rings), order) && RingsTouched(segs, used, rings)
    requires forall i :: 0 <= i < |segs| ==> i in order
    ensures OnRing(rings, v) <==> exists i :: 0 <= i < |segs| && Ends(segs[i], v)
  {
    if i :| 0 <= i < |segs| && Ends(segs[i], v) {
      assert i in order;
      var q :| 0 <= q < |order| && order[q] == i;
      assert Joins(segs[i], AllEdges(rings)[q].0, AllEdges(rings)[q].1);
      EdgePointsOnRings(rings, q);
    }
    if k :| 0 <= k < |rings| && v in rings[k] {
      var p :| 0 <= p < |rings[k]| && rings[k][p] == v;
      assert Touched(segs, used, rings[k][p]);
    }
  }

  // No point is on two rings.
  predicate Apart(rings: seq<seq<VKey>>) {
    forall k, l, p, q :: 0 <= k < l < |rings| && 0 <= p < |rings[k]| && 0 <= q < |rings[l]| ==>
      rings[k][p] != rings[l][q]
  }

  predicate AllClosed(rings: seq<seq<VKey>>) {
    forall k :: 0 <= k < |rings| ==> ClosedRing(rings[k])
  }

  lemma AddClosed(rings: seq<seq<VKey>>, ring: seq<VKey>)
    requires AllClosed(rings) && ClosedRing(ring)
    ensures AllClosed(rings + [ring])
  {
  }

  ghost predicate RingsTouched(segs: seq<Seg>, used: Pairs, rings: seq<seq<VKey>>) {
    forall k, p :: 0 <= k < |rings| && 0 <= p < |rings[k]| ==> Touched(segs, used, rings[k][p])
  }

  // What holds between two rings.
  ghost predicate Chained(segs: seq<Seg>, used: Pairs, rings: seq<seq<VKey>>, order: seq<int>) {
    && AllBalanced(segs, used)
    && RunsThrough(segs, AllEdges(rings), order)
    && (forall i :: Taken(segs, used, i) <==> i in order)
    && AllClosed(rings)
    && Apart(rings)
    && RingsTouched(segs, used, rings)
  }

  lemma RunsThroughOne(segs: seq<Seg>, ring: seq<VKey>, path: seq<int>)
    requires Linked(segs, ring, path) && forall p, q :: 0 <= p < q < |path| ==> path[p] != path[q]
    ensures RunsThrough(segs, RingEdges(ring), path)
  {
  }

  lemma RunsThroughBoth(segs: seq<Seg>, edges: seq<(VKey, VKey)>, order: seq<int>, edges': seq<(VKey, VKey)>,
                        order': seq<int>)
    requires RunsThrough(segs, edges, order) && RunsThrough(segs, edges', order')
    requires forall q, r :: 0 <= q < |order| && 0 <= r < |order'| ==> order[q] != order'[r]
    ensures RunsThrough(segs, edges + edges', order + order')
  {
  }

  lemma AddEdges(segs: seq<Seg>, used0: Pairs, used: Pairs, rings: seq<seq<VKey>>, order: seq<int>,
                 ring: seq<VKey>, path: seq<int>)
    requires RunsThrough(segs, AllEdges(rings), order)
    requires forall i :: Taken(segs, used0, i) <==> i in order
    requires Linked(segs, ring, path) && Takes(segs, used0, used, path)
    ensures RunsThrough(segs, AllEdges(rings + [ring]), order + path)
    ensures forall i :: Taken(segs, used, i) <==> i in order + path
  {
    assert (rings + [ring])[..|rings|] == rings;
    RunsThroughOne(segs, ring, path);
    forall q, r | 0 <= q < |order| && 0 <= r < |path|
      ensures order[q] != path[r]
    {
      assert order[q] in order;
    }
    RunsThroughBoth(segs, AllEdges(rings), order, RingEdges(ring), path);
  }

  lemma StaysTouched(segs: seq<Seg>, used0: Pairs, used: Pairs, v: VKey)
    requires Touched(segs, used0, v) && forall i :: Taken(segs, used0, i) ==> Taken(segs, used, i)
    ensures Touched(segs, used, v)
  {
    var i :| 0 <= i < |segs| && Ends(segs[i], v) && Taken(segs, used0, i);
    assert Taken(segs, used, i);
  }

  lemma AddPoints(segs: seq<Seg>, colour: seq<bool>, used0: Pairs, used: Pairs, rings: seq<seq<VKey>>,
                  n: int, ring: seq<VKey>, path: seq<int>)
    requires |colour| == |segs| && Apart(rings) && RingsTouched(segs, used0, rings)
    requires Trail(segs, colour, used0, used, n, ring, path)
    requires ClosedRing(ring) && NewPoints(segs, used0, ring, |ring| - 1)
    ensures Apart(rings + [ring]) && RingsTouched(segs, used, rings + [ring])
  {
    var all := rings + [ring];
    assert forall q :: 0 <= q < |ring| ==> !Touched(segs, used0, ring[q]);
    forall k, p | 0 <= k < |all| && 0 <= p < |all[k]|
      ensures Touched(segs, used, all[k][p])
    {
      if k < |rings| {
        StaysTouched(segs, used0, used, all[k][p]);
      } else {
        TrailTouches(segs, colour, used0, used, n, ring, path, p);
      }
    }
  }

  lemma AddRing(segs: seq<Seg>, colour: seq<bool>, used0: Pairs, used: Pairs, rings: seq<seq<VKey>>, order: seq<int>,
                n: int, ring: seq<VKey>, path: seq<int>)
    requires |colour| == |segs| && Chained(segs, used0, rings, order)
    requires AllBalanced(segs, used) && Trail(segs, colour, used0, used, n, ring, path)
    requires ClosedRing(ring) && NewPoints(segs, used0, ring, |ring| - 1)
    ensures Chained(segs, used, rings + [ring], order + path)
    ensures n in order + path
  {
    AddEdges(segs, used0, used, rings, order, ring, path);
    AddPoints(segs, colour, used0, used, rings, n, ring, path);
    assert path[0] in path;
    AddClosed(rings, ring);
  }

  // One round of the outer loop: a ring from segment n, unless an earlier ring went through it.
  method ChainFrom(segs: seq<Seg>, ghost colour: seq<bool>, adj: map<VKey, seq<VKey>>, used: Pairs,
                   rings: seq<seq<VKey>>, ghost order: seq<int>, n: int)
      returns (used': Pairs, rings': seq<seq<VKey>>, ghost order': seq<int>)
    requires ClosedField(segs, colour) && Adjacency(segs, |segs|, adj) && Chained(segs, used, rings, order)
    requires 0 <= n < |segs|
    ensures Chained(segs, used', rings', order')
    ensures n in order' && forall i :: i in order ==> i in order'
  {
    used', rings', order' := used, rings, order;
    if EdgeUsed(used, segs[n].a, segs[n].b) {
      assert Taken(segs, used, n);
      return;
    }
    var ring, open;
    ghost var path;
    ring, used', open, path := Walk(segs, colour, adj, used, n);
    if |ring| >= 4 && ring[|ring| - 1] == segs[n].a {
      AddRing(segs, colour, used, used', rings, order, n, ring, path);
      rings' := rings + [ring];
      order' := order + path;
    }
  }

  // chain: on every closed field it never meets the open-chain break, every ring it returns is
  // closed, has at least five points and visits no point twice, no two rings share a point, and
  // laid end to end the rings run through every segment exactly once.
  method Chain(segs: seq<Seg>, ghost colour: seq<bool>) returns (rings: seq<seq<VKey>>, ghost order: seq<int>)
    requires ClosedField(segs, colour)
    ensures AllClosed(rings) && Apart(rings)
    ensures RunsThrough(segs, AllEdges(rings), order)
    ensures forall i :: 0 <= i < |segs| ==> i in order
    ensures forall v :: OnRing(rings, v) <==> exists i :: 0 <= i < |segs| && Ends(segs[i], v)
  {
    var adj := BuildAdjacency(segs);
    var used: Pairs := {};
    rings, order := [], [];
    for n := 0 to |segs|
      invariant Chained(segs, used, rings, order)
      invariant forall i :: 0 <= i < n ==> i in order
    {
      used, rings, order := ChainFrom(segs, colour, adj, used, rings, order, n);
    }
    forall v
      ensures OnRing(rings, v) <==> exists i :: 0 <= i < |segs| && Ends(segs[i], v)
    {
      RingPoints(segs, used, rings, order, v);
    }
  }
}
