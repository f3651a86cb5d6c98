/** Density clustering: run and the summary loop of Run in internal/algo/cluster/dbscan.go. */
module Dbscan {
  import opened Numbers

  const NOISE := -1
  const UNCLASSIFIED := -2

  // Points already projected to metres, the radius and the density threshold. Run refuses a
  // radius that is not positive and a threshold below one before it calls run.
  datatype Setup = Setup(pts: seq<Point>, eps: real, minPts: int) {
    predicate Valid() {
      eps > 0.0 && minPts >= 1
    }
  }

  predicate IsPoint(s: Setup, i: int) {
    0 <= i < |s.pts|
  }

  function Square(a: real): real {
    a * a
  }

  predicate Within(s: Setup, i: int, j: int)
    requires IsPoint(s, i) && IsPoint(s, j)
  {
    Square(s.pts[j].x - s.pts[i].x) + Square(s.pts[j].y - s.pts[i].y) <= Square(s.eps)
  }

  ghost predicate Close(s: Setup, i: int, j: int) {
    IsPoint(s, i) && IsPoint(s, j) && Within(s, i, j)
  }

  ghost function Ball(s: Setup, i: int): set<int> {
    set j | 0 <= j < |s.pts| && Close(s, i, j)
  }

  ghost predicate Core(s: Setup, i: int) {
    IsPoint(s, i) && |Ball(s, i)| >= s.minPts
  }

  lemma CloseIsSymmetric(s: Setup, i: int, j: int)
    ensures Close(s, i, j) <==> Close(s, j, i)
  {
    if IsPoint(s, i) && IsPoint(s, j) {
      SquareOfOpposite(s.pts[j].x - s.pts[i].x);
      SquareOfOpposite(s.pts[j].y - s.pts[i].y);
    }
  }

  lemma SquareOfOpposite(a: real)
    ensures Square(a) == Square(-a) >= 0.0
  {
  }

  lemma CloseToItself(s: Setup, i: int)
    requires IsPoint(s, i)
    ensures Close(s, i, i)
  {
    SquareOfOpposite(s.eps);
  }

  // Points beside each other are close up to and including the radius, along either axis; for others
  // the distance is that of the straight line.
  lemma CloseMeans(s: Setup, i: int, j: int, k: real)
    requires s.eps > 0.0 && IsPoint(s, i) && IsPoint(s, j)
    ensures
      var dx, dy := s.pts[j].x - s.pts[i].x, s.pts[j].y - s.pts[i].y;
      && (dy == 0.0 ==> (Close(s, i, j) <==> -s.eps <= dx <= s.eps))
      && (dx == 0.0 ==> (Close(s, i, j) <==> -s.eps <= dy <= s.eps))
      && (k > 0.0 && dx == 3.0 * k && dy == 4.0 * k ==> (Close(s, i, j) <==> 5.0 * k <= s.eps))
  {
    var dx, dy := s.pts[j].x - s.pts[i].x, s.pts[j].y - s.pts[i].y;
    assert Square(0.0) == 0.0;
    SquareAtMostIff(dx, s.eps);
    SquareAtMostIff(dy, s.eps);
    if k > 0.0 && dx == 3.0 * k && dy == 4.0 * k {
      assert Square(dx) + Square(dy) == Square(5.0 * k);
      SquareAtMostIff(5.0 * k, s.eps);
    }
    hide Square;
  }

  // A point is one of its own neighbours, so with a threshold of one all points are core points.
  lemma CountsItself(s: Setup, i: int)
    requires IsPoint(s, i)
    ensures i in Ball(s, i) && (s.minPts <= 1 ==> Core(s, i))
  {
    CloseToItself(s, i);
    hide Close;
    assert i in Ball(s, i);
    assert Ball(s, i) != {};
  }

  // ----- the grid of cells of side eps

  const TWO_31 := 0x8000_0000
  const TWO_32 := 0x1_0000_0000

  datatype Cell = Cell(x: int, y: int)

  // float64 to int32 as amd64 converts a whole number: everything out of range becomes the least int32.
  function ToInt32(v: int): int {
    if -TWO_31 <= v < TWO_31 then v else -TWO_31
  }

  // int32 addition wraps around.
  function Wrap32(v: int): int {
    (v + TWO_31) % TWO_32 - TWO_31
  }

  function CellOf(s: Setup, i: int): Cell
    requires s.Valid() && IsPoint(s, i)
  {
    Cell(ToInt32((s.pts[i].x / s.eps).Floor), ToInt32((s.pts[i].y / s.eps).Floor))
  }

  function Around(k: Cell, dx: int, dy: int): Cell {
    Cell(Wrap32(k.x + dx), Wrap32(k.y + dy))
  }

  lemma Grows(a: real, b: real, c: real)
    requires a > b && c > 0.0
    ensures a * c > b * c
  {
  }

  lemma SquareGrows(a: real, b: real)
    requires a > b > 0.0
    ensures Square(a) > Square(b)
  {
    Grows(a, b, a);
    Grows(a, b, b);
  }

  lemma SquareBounds(a: real, b: real)
    requires b > 0.0 && Square(a) <= Square(b)
    ensures -b <= a <= b
  {
    SquareOfOpposite(a);
    if a > b {
      SquareGrows(a, b);
    } else if a < -b {
      SquareGrows(-a, b);
    }
  }

  lemma SquareAtMostIff(a: real, b: real)
    requires b > 0.0
    ensures Square(a) <= Square(b) <==> -b <= a <= b
  {
    if Square(a) <= Square(b) {
      SquareBounds(a, b);
    }
    SquareOfOpposite(a);
    if 0.0 < a < b {
      SquareGrows(b, a);
    } else if -b < a < 0.0 {
      SquareGrows(b, -a);
    } else if a == 0.0 {
      SquareOfOpposite(b);
    } else if a == -b {
      SquareOfOpposite(b);
    }
  }

  // Coordinates at most eps apart fall into the same or adjacent columns.
  lemma AdjacentFloors(a: real, b: real, eps: real)
    requires eps > 0.0 && -eps <= b - a <= eps
    ensures -1 <= (b / eps).Floor - (a / eps).Floor <= 1
  {
    var p, q := a / eps, b / eps;
    assert p * eps == a && q * eps == b;
    var d := q - p;
    assert d * eps == b - a;
    if d > 1.0 {
      Grows(d, 1.0, eps);
    } else if d < -1.0 {
      Grows(-1.0, d, eps);
    }
    FloorsOf(p, q);
  }

  lemma FloorsOf(p: real, q: real)
    ensures -1.0 <= q - p <= 1.0 ==> -1 <= q.Floor - p.Floor <= 1
  {
  }

  // Converting to int32 keeps adjacent columns adjacent, around the wrap included.
  lemma AdjacentAfterCast(a: int, b: int) returns (d: int)
    requires -1 <= b - a <= 1
    ensures -1 <= d <= 1 && ToInt32(b) == Wrap32(ToInt32(a) + d)
  {
    if -TWO_31 <= a < TWO_31 {
      d := if b < -TWO_31 then 0 else b - a;
    } else {
      d := if b == TWO_31 - 1 then -1 else 0;
    }
  }

  // So the neighbours of a point lie in the 3x3 block of cells around it, however far out it is.
  lemma CloseIsAround(s: Setup, i: int, j: int)
    requires s.Valid() && Close(s, i, j)
    ensures exists dx, dy :: -1 <= dx <= 1 && -1 <= dy <= 1 && CellOf(s, j) == Around(CellOf(s, i), dx, dy)
  {
    hide Square, ToInt32, Wrap32;
    var a, b := s.pts[i], s.pts[j];
    SquareOfOpposite(b.x - a.x);
    SquareOfOpposite(b.y - a.y);
    SquareBounds(b.x - a.x, s.eps);
    SquareBounds(b.y - a.y, s.eps);
    AdjacentFloors(a.x, b.x, s.eps);
    AdjacentFloors(a.y, b.y, s.eps);
    var dx := AdjacentAfterCast((a.x / s.eps).Floor, (b.x / s.eps).Floor);
    var dy := AdjacentAfterCast((a.y / s.eps).Floor, (b.y / s.eps).Floor);
    assert CellOf(s, j) == Around(CellOf(s, i), dx, dy);
  }

  lemma AroundIsInjective(k: Cell, dx: int, dy: int, dx': int, dy': int)
    requires -1 <= dx <= 1 && -1 <= dy <= 1 && -1 <= dx' <= 1 && -1 <= dy' <= 1
    requires Around(k, dx, dy) == Around(k, dx', dy')
    ensures dx == dx' && dy == dy'
  {
  }

  predicate NoRepeats(q: seq<int>) {
    forall a, b :: 0 <= a < b < |q| ==> q[a] != q[b]
  }

  ghost function Members(q: seq<int>): set<int> {
    set j | j in q
  }

  lemma {:induction false} NoRepeatsSize(q: seq<int>)
    requires NoRepeats(q)
    ensures |q| == |Members(q)|
  {
    if q == [] {
      assert Members(q) == {};
    } else {
      var last := |q| - 1;
      NoRepeatsSize(q[..last]);
      assert q == q[..last] + [q[last]];
      assert Members(q) == Members(q[..last]) + {q[last]};
    }
  }

  function Listed(grid: map<Cell, seq<int>>, k: Cell): seq<int> {
    if k in grid then grid[k] else []
  }

  // The list holds, each once, those of the first n points that fall into cell k.
  ghost predicate ListOf(list: seq<int>, s: Setup, n: int, k: Cell)
    requires s.Valid() && 0 <= n <= |s.pts|
  {
    NoRepeats(list) && forall j :: j in list <==> 0 <= j < n && CellOf(s, j) == k
  }

  // The grid files the first n points, each once, under its cell.
  ghost predicate Files(grid: map<Cell, seq<int>>, s: Setup, n: int) {
    s.Valid() && 0 <= n <= |s.pts| && forall k :: ListOf(Listed(grid, k), s, n, k)
  }

  lemma ListNext(list: seq<int>, s: Setup, n: int, k: Cell)
    requires s.Valid() && 0 <= n < |s.pts| && ListOf(list, s, n, k)
    ensures ListOf(if CellOf(s, n) == k then list + [n] else list, s, n + 1, k)
  {
    assert n !in list;
  }

  lemma FileNext(grid: map<Cell, seq<int>>, s: Setup, n: int, grid': map<Cell, seq<int>>)
    requires Files(grid, s, n) && n < |s.pts|
    requires grid' == grid[CellOf(s, n) := Listed(grid, CellOf(s, n)) + [n]]
    ensures Files(grid', s, n + 1)
  {
    hide ListOf;
    forall k
      ensures ListOf(Listed(grid', k), s, n + 1, k)
    {
      ListNext(Listed(grid, k), s, n, k);
    }
  }

  method BuildGrid(s: Setup) returns (grid: map<Cell, seq<int>>)
    requires s.Valid()
    ensures Files(grid, s, |s.pts|)
  {
    hide Files, CellOf;
    grid := map[];
    FilesNothing(s);
    for i := 0 to |s.pts|
      invariant Files(grid, s, i)
    {
      var k := CellOf(s, i);
      FileNext(grid, s, i, grid[k := Listed(grid, k) + [i]]);
      grid := grid[k := Listed(grid, k) + [i]];
    }
  }

  lemma FilesNothing(s: Setup)
    requires s.Valid()
    ensures Files(map[], s, 0)
  {
  }

  // ----- neighbours

  // The cells the double loop has visited when it stands at offset (dx, dy).
  ghost predicate Seen(c: Cell, k: Cell, dx: int, dy: int) {
    exists a, b :: -1 <= a <= 1 && -1 <= b <= 1 && (b < dy || (b == dy && a < dx)) && c == Around(k, a, b)
  }

  // out lists, each once, the points within eps of i whose cell has been visited.
  ghost predicate Gathered(s: Setup, i: int, out: seq<int>, dx: int, dy: int) {
    && s.Valid() && IsPoint(s, i) && NoRepeats(out)
    && forall j :: j in out <==> Close(s, i, j) && Seen(CellOf(s, j), CellOf(s, i), dx, dy)
  }

  // The innermost loop: the close points of one cell are appended in order.
  method GatherCell(s: Setup, i: int, list: seq<int>, before: seq<int>) returns (out: seq<int>)
    requires IsPoint(s, i) && NoRepeats(list) && NoRepeats(before)
    requires forall j :: j in list ==> IsPoint(s, j) && j !in before
    ensures NoRepeats(out)
    ensures forall j :: j in out <==> j in before || (j in list && Close(s, i, j))
  {
    out := before;
    for t := 0 to |list|
      invariant NoRepeats(out)
      invariant forall j :: j in out <==> j in before || (j in list[..t] && Close(s, i, j))
    {
      var j := list[t];
      assert list[..t + 1] == list[..t] + [j];
      if Within(s, i, j) {
        out := out + [j];
      }
    }
    assert list[..|list|] == list;
  }

  lemma SeenOne(c: Cell, k: Cell, dx: int, dy: int)
    requires -1 <= dx <= 1 && -1 <= dy <= 1
    ensures Seen(c, k, dx + 1, dy) <==> Seen(c, k, dx, dy) || c == Around(k, dx, dy)
    ensures c == Around(k, dx, dy) ==> !Seen(c, k, dx, dy)
  {
    if c == Around(k, dx, dy) {
      forall a, b | -1 <= a <= 1 && -1 <= b <= 1 && c == Around(k, a, b)
        ensures a == dx && b == dy
      {
        AroundIsInjective(k, a, b, dx, dy);
      }
    }
  }

  lemma SeenEnds(c: Cell, k: Cell, dy: int)
    ensures !Seen(c, k, -1, -1)
    ensures Seen(c, k, 2, dy) <==> Seen(c, k, -1, dy + 1)
  {
  }

  lemma GatherRow(s: Setup, i: int, out: seq<int>, dy: int)
    requires Gathered(s, i, out, 2, dy)
    ensures Gathered(s, i, out, -1, dy + 1)
  {
    forall j | Close(s, i, j)
      ensures Seen(CellOf(s, j), CellOf(s, i), 2, dy) <==> Seen(CellOf(s, j), CellOf(s, i), -1, dy + 1)
    {
      SeenEnds(CellOf(s, j), CellOf(s, i), dy);
    }
  }

  lemma GatherNothing(s: Setup, i: int)
    requires s.Valid() && IsPoint(s, i)
    ensures Gathered(s, i, [], -1, -1)
  {
    forall j | Close(s, i, j)
      ensures !Seen(CellOf(s, j), CellOf(s, i), -1, -1)
    {
      SeenEnds(CellOf(s, j), CellOf(s, i), -1);
    }
  }

  lemma GatherOne(s: Setup, i: int, out: seq<int>, list: seq<int>, out': seq<int>, dx: int, dy: int)
    requires Gathered(s, i, out, dx, dy) && -1 <= dx <= 1 && -1 <= dy <= 1
    requires forall j :: j in list <==> IsPoint(s, j) && CellOf(s, j) == Around(CellOf(s, i), dx, dy)
    ensures forall j :: j in list ==> j !in out
    ensures NoRepeats(out') && (forall j :: j in out' <==> j in out || (j in list && Close(s, i, j))) ==>
              Gathered(s, i, out', dx + 1, dy)
  {
    forall j | IsPoint(s, j)
      ensures Seen(CellOf(s, j), CellOf(s, i), dx + 1, dy) <==> Seen(CellOf(s, j), CellOf(s, i), dx, dy) || j in list
      ensures j in list ==> !Seen(CellOf(s, j), CellOf(s, i), dx, dy)
    {
      SeenOne(CellOf(s, j), CellOf(s, i), dx, dy);
    }
  }

  lemma GatherDone(s: Setup, i: int, out: seq<int>)
    requires Gathered(s, i, out, -1, 2)
    ensures forall j :: j in out <==> j in Ball(s, i)
    ensures NoRepeats(out) && |out| == |Ball(s, i)|
  {
    forall j | Close(s, i, j)
      ensures Seen(CellOf(s, j), CellOf(s, i), -1, 2)
    {
      CloseIsAround(s, i, j);
    }
    NoRepeatsSize(out);
    assert Members(out) == Ball(s, i);
  }

  // The grid lookup finds the brute-force eps-neighbourhood, each point once.
  method Neighbours(s: Setup, grid: map<Cell, seq<int>>, i: int) returns (out: seq<int>)
    requires Files(grid, s, |s.pts|) && IsPoint(s, i)
    ensures forall j :: j in out <==> j in Ball(s, i)
    ensures NoRepeats(out) && |out| == |Ball(s, i)|
  {
    hide Gathered, Files, CellOf, Around, NoRepeats, Ball, Close, Within;
    GridIsValid(grid, s);
    var k := CellOf(s, i);
    out := [];
    GatherNothing(s, i);
    for dy := -1 to 2
      invariant Gathered(s, i, out, -1, dy)
    {
      for dx := -1 to 2
        invariant Gathered(s, i, out, dx, dy)
      {
        var list := Listed(grid, Around(k, dx, dy));
        ghost var before := out;
        ListedIs(grid, s, Around(k, dx, dy));
        GatherOne(s, i, before, list, before, dx, dy);
        OutIsPlain(s, i, out, dx, dy);
        out := GatherCell(s, i, list, out);
        GatherOne(s, i, before, list, out, dx, dy);
      }
      GatherRow(s, i, out, dy);
    }
    GatherDone(s, i, out);
  }

  lemma GridIsValid(grid: map<Cell, seq<int>>, s: Setup)
    requires Files(grid, s, |s.pts|)
    ensures s.Valid()
  {
  }

  lemma ListedIs(grid: map<Cell, seq<int>>, s: Setup, k: Cell)
    requires Files(grid, s, |s.pts|)
    ensures NoRepeats(Listed(grid, k))
    ensures forall j :: j in Listed(grid, k) <==> IsPoint(s, j) && CellOf(s, j) == k
  {
    assert ListOf(Listed(grid, k), s, |s.pts|, k);
  }

  lemma OutIsPlain(s: Setup, i: int, out: seq<int>, dx: int, dy: int)
    requires Gathered(s, i, out, dx, dy)
    ensures NoRepeats(out)
  {
  }

  // ----- the density definition

  ghost predicate IsChain(s: Setup, path: seq<int>) {
    && (forall k :: 0 <= k < |path| ==> Core(s, path[k]))
    && (forall k :: 0 <= k < |path| - 1 ==> Close(s, path[k], path[k + 1]))
  }

  ghost predicate ChainFrom(s: Setup, path: seq<int>, a: int, b: int) {
    |path| > 0 && path[0] == a && path[|path| - 1] == b && IsChain(s, path)
  }

  // Joined by core points each within eps of the next.
  ghost predicate Chained(s: Setup, a: int, b: int) {
    exists path :: ChainFrom(s, path, a, b)
  }

  lemma ChainedToItself(s: Setup, a: int)
    requires Core(s, a)
    ensures Chained(s, a, a)
  {
    assert ChainFrom(s, [a], a, a);
  }

  lemma ChainOneMore(s: Setup, a: int, b: int, c: int)
    requires Chained(s, a, b) && Core(s, c) && Close(s, b, c)
    ensures Chained(s, a, c)
  {
    hide Core, Close;
    var path :| ChainFrom(s, path, a, b);
    assert ChainFrom(s, path + [c], a, c);
  }

  lemma {:induction false} ChainedBack(s: Setup, path: seq<int>, a: int, b: int)
    requires ChainFrom(s, path, a, b)
    ensures Chained(s, b, a)
    decreases |path|
  {
    hide Core, Close;
    if |path| == 1 {
      ChainedToItself(s, a);
    } else {
      ChainedBack(s, path[1..], path[1], b);
      CloseIsSymmetric(s, a, path[1]);
      ChainOneMore(s, b, path[1], a);
    }
  }

  lemma {:induction false} ChainedOn(s: Setup, a: int, path: seq<int>, b: int, c: int)
    requires Chained(s, a, b) && ChainFrom(s, path, b, c)
    ensures Chained(s, a, c)
    decreases |path|
  {
    hide Core, Close;
    if |path| > 1 {
      ChainOneMore(s, a, b, path[1]);
      ChainedOn(s, a, path[1..], path[1], c);
    }
  }

  lemma ChainedIsEquivalence(s: Setup, a: int, b: int, c: int)
    requires Chained(s, a, b) && Chained(s, a, c)
    ensures Chained(s, b, c)
  {
    var path :| ChainFrom(s, path, a, b);
    ChainedBack(s, path, a, b);
    var more :| ChainFrom(s, more, a, c);
    ChainedOn(s, b, more, a, c);
  }

  // The label of point p, UNCLASSIFIED for what is no point.
  function At(labels: seq<int>, p: int): int {
    if 0 <= p < |labels| then labels[p] else UNCLASSIFIED
  }

  ghost predicate CoreNeighbour(s: Setup, p: int, q: int) {
    Core(s, p) && Close(s, p, q)
  }

  // A point that is not core takes the least label among the core points around it.
  ghost predicate BorderLabel(s: Setup, labels: seq<int>, q: int) {
    if exists p :: CoreNeighbour(s, p, q) then
      && (exists p :: CoreNeighbour(s, p, q) && At(labels, p) == At(labels, q))
      && (forall p :: CoreNeighbour(s, p, q) ==> 0 <= At(labels, q) <= At(labels, p))
    else At(labels, q) == NOISE
  }

  ghost predicate Used(s: Setup, labels: seq<int>, c: int) {
    exists p :: Core(s, p) && At(labels, p) == c
  }

  // Clusters are numbered in the order of their first core points.
  ghost predicate SmallerIdBefore(s: Setup, labels: seq<int>, p: int, c: int) {
    exists q :: 0 <= q < p && Core(s, q) && At(labels, q) == c
  }

  // The labelling by clusters 0 .. k-1 that the density definition prescribes.
  ghost predicate Clustering(s: Setup, labels: seq<int>, k: int) {
    && |labels| == |s.pts| && k >= 0
    && (forall p :: Core(s, p) ==> 0 <= At(labels, p) < k)
    && (forall p, q :: Core(s, p) && Core(s, q) ==> (At(labels, p) == At(labels, q) <==> Chained(s, p, q)))
    && (forall q :: IsPoint(s, q) && !Core(s, q) ==> BorderLabel(s, labels, q))
    && (forall c :: 0 <= c < k ==> Used(s, labels, c))
    && (forall p, c :: Core(s, p) && 0 <= c < At(labels, p) ==> SmallerIdBefore(s, labels, p, c))
  }

  // A point is noise, with label -1, exactly when no core point is close to it, itself included; all
  // other points belong to a cluster.
  lemma NoiseIff(s: Setup, labels: seq<int>, k: int, q: int)
    requires Clustering(s, labels, k) && IsPoint(s, q)
    ensures |labels| == |s.pts| && (labels[q] == -1 <==> forall p :: Core(s, p) ==> !Close(s, p, q))
    ensures labels[q] != -1 ==> 0 <= labels[q] < k
  {
    hide Close, Core, Chained, Used, SmallerIdBefore;
    CloseToItself(s, q);
    assert At(labels, q) == labels[q];
    if !Core(s, q) {
      assert BorderLabel(s, labels, q);
      if p :| CoreNeighbour(s, p, q) {
        assert 0 <= At(labels, p) < k;
      }
    }
    assert forall p :: CoreNeighbour(s, p, q) <==> Core(s, p) && Close(s, p, q);
  }

  // ----- what the loops keep

  // Labels in range, and noise is never core.
  ghost predicate Ranged(s: Setup, labels: seq<int>, k: int) {
    && |labels| == |s.pts|
    && (forall p :: UNCLASSIFIED <= At(labels, p) < k)
    && (forall p :: At(labels, p) == NOISE ==> !Core(s, p))
  }

  // Around a core point of a cluster below k everything is labelled, by that cluster or an earlier one.
  ghost predicate ClosedBelow(s: Setup, labels: seq<int>, k: int) {
    forall p, q :: CoreNeighbour(s, p, q) && 0 <= At(labels, p) < k ==> 0 <= At(labels, q) <= At(labels, p)
  }

  ghost predicate Backed(s: Setup, labels: seq<int>, q: int) {
    exists p :: CoreNeighbour(s, p, q) && At(labels, p) == At(labels, q)
  }

  ghost predicate Supported(s: Setup, labels: seq<int>) {
    forall q :: At(labels, q) >= 0 ==> Backed(s, labels, q)
  }

  // Each cluster grew from its seed, its least core point.
  ghost predicate Rooted(s: Setup, labels: seq<int>, seeds: seq<int>) {
    && (forall c :: 0 <= c < |seeds| ==> Core(s, seeds[c]) && At(labels, seeds[c]) == c)
    && (forall c, d :: 0 <= c < d < |seeds| ==> seeds[c] < seeds[d])
    && (forall p :: Core(s, p) && 0 <= At(labels, p) < |seeds| ==>
         seeds[At(labels, p)] <= p && Chained(s, seeds[At(labels, p)], p))
  }

  ghost predicate ClassifiedTo(labels: seq<int>, i: int) {
    forall p :: 0 <= p < i ==> At(labels, p) != UNCLASSIFIED
  }

  // Around the core points of cluster c everything is labelled or queued, and nothing else is queued.
  ghost predicate Frontier(s: Setup, labels: seq<int>, c: int, queue: seq<int>) {
    && (forall p, q :: CoreNeighbour(s, p, q) && At(labels, p) == c ==> At(labels, q) >= 0 || q in queue)
    && (forall q :: q in queue ==> Touched(s, labels, c, q))
  }

  ghost predicate Touched(s: Setup, labels: seq<int>, c: int, q: int) {
    exists p :: CoreNeighbour(s, p, q) && At(labels, p) == c
  }

  // Between two clusters.
  ghost predicate Between(s: Setup, labels: seq<int>, seeds: seq<int>, i: int) {
    && Ranged(s, labels, |seeds|) && ClosedBelow(s, labels, |seeds|) && Supported(s, labels)
    && Rooted(s, labels, seeds) && ClassifiedTo(labels, i)
    && (forall c :: 0 <= c < |seeds| ==> seeds[c] < i)
  }

  // While the last cluster grows.
  ghost predicate Growing(s: Setup, labels: seq<int>, seeds: seq<int>, i: int, queue: seq<int>) {
    && |seeds| > 0 && seeds[|seeds| - 1] == i
    && Ranged(s, labels, |seeds|) && ClosedBelow(s, labels, |seeds| - 1) && Supported(s, labels)
    && Rooted(s, labels, seeds) && ClassifiedTo(labels, i)
    && Frontier(s, labels, |seeds| - 1, queue)
  }

  // after is labels with a new label c for q.
  ghost predicate Relabelled(labels: seq<int>, q: int, c: int, after: seq<int>) {
    && 0 <= q < |labels| && |after| == |labels|
    && forall p :: At(after, p) == if p == q then c else At(labels, p)
  }

  lemma Relabel(labels: seq<int>, q: int, c: int)
    requires 0 <= q < |labels|
    ensures Relabelled(labels, q, c, labels[q := c])
  {
  }

  lemma RelabelRanged(s: Setup, labels: seq<int>, q: int, c: int, after: seq<int>, k: int, k': int)
    requires Ranged(s, labels, k) && Relabelled(labels, q, c, after) && k <= k' && NOISE <= c < k'
    requires (c == NOISE ==> !Core(s, q))
    ensures Ranged(s, after, k')
  {
    hide Core, At;
  }

  lemma RelabelClosed(s: Setup, labels: seq<int>, q: int, c: int, after: seq<int>, k: int)
    requires ClosedBelow(s, labels, k) && Relabelled(labels, q, c, after) && At(labels, q) < 0 && (k <= c || c < 0)
    ensures ClosedBelow(s, after, k)
  {
    hide CoreNeighbour, At;
  }

  lemma RelabelSupported(s: Setup, labels: seq<int>, q: int, c: int, after: seq<int>)
    requires Supported(s, labels) && Relabelled(labels, q, c, after) && At(labels, q) < 0
    requires c < 0 || Backed(s, after, q)
    ensures Supported(s, after)
  {
    hide CoreNeighbour, At;
    forall r | At(after, r) >= 0
      ensures Backed(s, after, r)
    {
      if r != q {
        BackedStill(s, labels, q, c, after, r);
      }
    }
  }

  lemma BackedStill(s: Setup, labels: seq<int>, q: int, c: int, after: seq<int>, r: int)
    requires Relabelled(labels, q, c, after) && At(labels, q) < 0 <= At(labels, r) && Backed(s, labels, r)
    ensures Backed(s, after, r)
  {
    hide CoreNeighbour, At;
    var p :| CoreNeighbour(s, p, r) && At(labels, p) == At(labels, r);
    assert CoreNeighbour(s, p, r) && At(after, p) == At(after, r);
  }

  lemma RelabelRooted(s: Setup, labels: seq<int>, q: int, c: int, after: seq<int>, seeds: seq<int>)
    requires Rooted(s, labels, seeds) && Relabelled(labels, q, c, after) && At(labels, q) < 0 && c < |seeds|
    requires Core(s, q) && c >= 0 ==> seeds[c] <= q && Chained(s, seeds[c], q)
    ensures Rooted(s, after, seeds)
  {
    hide Core, Chained, At;
  }

  lemma RelabelClassified(labels: seq<int>, q: int, c: int, after: seq<int>, i: int)
    requires ClassifiedTo(labels, i) && Relabelled(labels, q, c, after) && c != UNCLASSIFIED
    ensures ClassifiedTo(after, i)
  {
    hide At;
  }

  lemma RootNext(s: Setup, labels: seq<int>, q: int, after: seq<int>, seeds: seq<int>)
    requires Rooted(s, labels, seeds) && Relabelled(labels, q, |seeds|, after) && At(labels, q) < 0 && Core(s, q)
    requires Ranged(s, labels, |seeds|) && forall c :: 0 <= c < |seeds| ==> seeds[c] < q
    ensures Rooted(s, after, seeds + [q])
  {
    ChainedToItself(s, q);
    hide Core, Chained, At;
    assert forall p :: At(labels, p) < |seeds|;
  }

  lemma StartFrontier(s: Setup, labels: seq<int>, i: int, c: int, after: seq<int>, queue: seq<int>)
    requires Ranged(s, labels, c) && Relabelled(labels, i, c, after) && Core(s, i)
    requires forall j :: j in queue <==> CoreNeighbour(s, i, j)
    ensures Frontier(s, after, c, queue)
  {
    hide CoreNeighbour, At;
    assert forall p :: At(labels, p) < c;
    assert At(after, i) == c;
  }

  lemma AroundCore(s: Setup, i: int)
    requires Core(s, i)
    ensures forall j :: j in Ball(s, i) <==> CoreNeighbour(s, i, j)
    ensures IsPoint(s, i) && CoreNeighbour(s, i, i)
  {
    CloseToItself(s, i);
  }

  lemma CoreIsBacked(s: Setup, labels: seq<int>, i: int)
    requires Core(s, i)
    ensures Backed(s, labels, i)
  {
    AroundCore(s, i);
  }

  lemma StartCluster(s: Setup, labels: seq<int>, seeds: seq<int>, i: int, queue: seq<int>, after: seq<int>)
    requires Between(s, labels, seeds, i) && At(labels, i) == UNCLASSIFIED && Core(s, i)
    requires forall j :: j in queue <==> j in Ball(s, i)
    requires Relabelled(labels, i, |seeds|, after)
    ensures Growing(s, after, seeds + [i], i, queue)
  {
    hide Core, Ball, CoreNeighbour, At, Ranged, ClosedBelow, Supported, Rooted, Frontier, Chained, ClassifiedTo,
      Relabelled, Backed;
    var c := |seeds|;
    WhatIsQueued(s, i, queue);
    RelabelRanged(s, labels, i, c, after, c, c + 1);
    RelabelClosed(s, labels, i, c, after, c);
    CoreIsBacked(s, after, i);
    RelabelSupported(s, labels, i, c, after);
    RelabelClassified(labels, i, c, after, i);
    RootNext(s, labels, i, after, seeds);
    StartFrontier(s, labels, i, c, after, queue);
  }

  lemma SizeOf(s: Setup, labels: seq<int>, k: int)
    requires Ranged(s, labels, k)
    ensures |labels| == |s.pts|
  {
  }

  // The head of the queue is a point near a core point of the growing cluster.
  lemma HeadIsTouched(s: Setup, labels: seq<int>, c: int, queue: seq<int>)
    requires Frontier(s, labels, c, queue) && |queue| > 0
    ensures Touched(s, labels, c, queue[0]) && IsPoint(s, queue[0])
  {
    assert queue[0] in queue;
    var p :| CoreNeighbour(s, p, queue[0]) && At(labels, p) == c;
  }

  lemma TouchedIsBacked(s: Setup, labels: seq<int>, q: int, c: int, after: seq<int>)
    requires Touched(s, labels, c, q) && Relabelled(labels, q, c, after)
    ensures Backed(s, after, q)
  {
    hide CoreNeighbour, At;
    var p :| CoreNeighbour(s, p, q) && At(labels, p) == c;
    assert CoreNeighbour(s, p, q) && At(after, p) == At(after, q);
  }

  lemma TouchedIsChained(s: Setup, labels: seq<int>, seeds: seq<int>, q: int, c: int)
    requires Touched(s, labels, c, q) && Rooted(s, labels, seeds) && 0 <= c < |seeds| && Core(s, q)
    ensures Chained(s, seeds[c], q)
  {
    var p :| CoreNeighbour(s, p, q) && At(labels, p) == c;
    ChainOneMore(s, seeds[c], p, q);
  }

  lemma AbsorbFrontier(s: Setup, labels: seq<int>, c: int, queue: seq<int>, j: int, after: seq<int>, nb: seq<int>)
    requires |queue| > 0 && Frontier(s, labels, c, queue) && j == queue[0] && At(labels, j) < 0 <= c
    requires Relabelled(labels, j, c, after)
    requires forall q :: q in nb <==> CoreNeighbour(s, j, q)
    ensures Frontier(s, after, c, queue[1..] + nb)
  {
    hide CoreNeighbour, At;
    var rest := queue[1..] + nb;
    forall q | q in rest
      ensures Touched(s, after, c, q)
    {
      if q in nb {
        assert CoreNeighbour(s, j, q) && At(after, j) == c;
      } else {
        assert q in queue;
        var r :| CoreNeighbour(s, r, q) && At(labels, r) == c;
        assert At(after, r) == c;
      }
    }
    forall p, q | CoreNeighbour(s, p, q) && At(after, p) == c
      ensures At(after, q) >= 0 || q in rest
    {
      if p != j && q != j && At(labels, q) < 0 {
        assert q in queue && queue == [j] + queue[1..];
        assert q in queue[1..];
      }
    }
  }

  lemma WhatIsQueued(s: Setup, j: int, nb: seq<int>)
    requires if Core(s, j) then forall q :: q in nb <==> q in Ball(s, j) else nb == []
    ensures forall q :: q in nb <==> CoreNeighbour(s, j, q)
  {
    if Core(s, j) {
      AroundCore(s, j);
      hide CoreNeighbour;
      assert forall q :: q in nb <==> CoreNeighbour(s, j, q);
    } else {
      hide Core;
      assert forall q :: !CoreNeighbour(s, j, q) && q !in nb;
    }
  }

  lemma Absorb(s: Setup, labels: seq<int>, seeds: seq<int>, i: int, queue: seq<int>, nb: seq<int>, after: seq<int>)
    requires |queue| > 0 && Growing(s, labels, seeds, i, queue) && At(labels, queue[0]) < 0
    requires if Core(s, queue[0]) then forall j :: j in nb <==> j in Ball(s, queue[0]) else nb == []
    requires Relabelled(labels, queue[0], |seeds| - 1, after)
    ensures Growing(s, after, seeds, i, queue[1..] + nb)
  {
    hide Ball, At, Ranged, ClosedBelow, Supported, Rooted, Frontier, Chained, Close, Core, Touched, CoreNeighbour,
      Relabelled, ClassifiedTo;
    var j, c := queue[0], |seeds| - 1;
    WhatIsQueued(s, j, nb);
    HeadIsTouched(s, labels, c, queue);
    RelabelRanged(s, labels, j, c, after, c + 1, c + 1);
    RelabelClosed(s, labels, j, c, after, c);
    TouchedIsBacked(s, labels, j, c, after);
    RelabelSupported(s, labels, j, c, after);
    if Core(s, j) {
      UnclassifiedIsLater(s, labels, i, j, c + 1);
      TouchedIsChained(s, labels, seeds, j, c);
    }
    RelabelRooted(s, labels, j, c, after, seeds);
    RelabelClassified(labels, j, c, after, i);
    AbsorbFrontier(s, labels, c, queue, j, after, nb);
  }

  lemma UnclassifiedIsLater(s: Setup, labels: seq<int>, i: int, j: int, k: int)
    requires ClassifiedTo(labels, i) && Ranged(s, labels, k) && Core(s, j) && At(labels, j) < 0
    ensures i <= j
  {
  }

  lemma Drop(s: Setup, labels: seq<int>, seeds: seq<int>, i: int, queue: seq<int>)
    requires |queue| > 0 && Growing(s, labels, seeds, i, queue) && At(labels, queue[0]) >= 0
    ensures Growing(s, labels, seeds, i, queue[1..])
  {
    hide CoreNeighbour, Rooted, Supported, ClosedBelow, Ranged, Touched, At;
    assert queue == [queue[0]] + queue[1..];
  }

  lemma FinishFrontier(s: Setup, labels: seq<int>, c: int)
    requires Frontier(s, labels, c, []) && ClosedBelow(s, labels, c) && Ranged(s, labels, c + 1)
    ensures ClosedBelow(s, labels, c + 1)
  {
    hide CoreNeighbour, At, Touched;
  }

  lemma FinishCluster(s: Setup, labels: seq<int>, seeds: seq<int>, i: int)
    requires Growing(s, labels, seeds, i, [])
    ensures Between(s, labels, seeds, i + 1)
  {
    hide CoreNeighbour, At, Ranged, ClosedBelow, Supported, Frontier, Chained, Core;
    FinishFrontier(s, labels, |seeds| - 1);
    assert At(labels, seeds[|seeds| - 1]) == |seeds| - 1;
  }

  lemma MarkNoise(s: Setup, labels: seq<int>, seeds: seq<int>, i: int)
    requires Between(s, labels, seeds, i) && IsPoint(s, i) && At(labels, i) == UNCLASSIFIED && !Core(s, i)
    ensures Between(s, labels[i := NOISE], seeds, i + 1)
  {
    hide CoreNeighbour, At, Ranged, ClosedBelow, Supported, Rooted, Chained, Core;
    var k := |seeds|;
    SizeOf(s, labels, k);
    var after := labels[i := NOISE];
    Relabel(labels, i, NOISE);
    RelabelRanged(s, labels, i, NOISE, after, k, k);
    RelabelClosed(s, labels, i, NOISE, after, k);
    RelabelSupported(s, labels, i, NOISE, after);
    RelabelRooted(s, labels, i, NOISE, after, seeds);
  }

  lemma StepOver(s: Setup, labels: seq<int>, seeds: seq<int>, i: int)
    requires Between(s, labels, seeds, i) && At(labels, i) != UNCLASSIFIED
    ensures Between(s, labels, seeds, i + 1)
  {
    hide Rooted, Supported, ClosedBelow, Ranged, At;
  }

  lemma NothingLabelled(s: Setup, labels: seq<int>)
    requires |labels| == |s.pts| && forall p :: At(labels, p) == UNCLASSIFIED
    ensures Between(s, labels, [], 0)
  {
    hide CoreNeighbour, At, Core;
  }

  // ----- the result

  // Core points with the same label are chained through their common seed, and a chain never
  // leaves the label it started with.
  lemma {:induction false} ChainKeepsLabel(s: Setup, labels: seq<int>, k: int, path: seq<int>, a: int, b: int)
    requires Ranged(s, labels, k) && ClosedBelow(s, labels, k) && ChainFrom(s, path, a, b) && At(labels, a) >= 0
    ensures At(labels, b) == At(labels, a)
    decreases |path|
  {
    if |path| > 1 {
      CloseIsSymmetric(s, a, path[1]);
      assert Core(s, path[0]) && Core(s, path[1]) && Close(s, path[0], path[1]);
      hide Core, Close, At;
      assert CoreNeighbour(s, a, path[1]) && CoreNeighbour(s, path[1], a);
      assert At(labels, a) < k && At(labels, path[1]) < k;
      ChainKeepsLabel(s, labels, k, path[1..], path[1], b);
    }
  }

  lemma SameLabelIffChained(s: Setup, labels: seq<int>, seeds: seq<int>, p: int, q: int)
    requires Ranged(s, labels, |seeds|) && ClosedBelow(s, labels, |seeds|) && Rooted(s, labels, seeds)
    requires Core(s, p) && Core(s, q) && At(labels, p) >= 0 && At(labels, q) >= 0
    ensures At(labels, p) == At(labels, q) <==> Chained(s, p, q)
  {
    hide Core, At;
    assert At(labels, p) < |seeds| && At(labels, q) < |seeds|;
    if At(labels, p) == At(labels, q) {
      ChainedIsEquivalence(s, seeds[At(labels, p)], p, q);
    }
    if Chained(s, p, q) {
      var path :| ChainFrom(s, path, p, q);
      ChainKeepsLabel(s, labels, |seeds|, path, p, q);
    }
  }

  lemma BorderIsRight(s: Setup, labels: seq<int>, k: int, q: int)
    requires Ranged(s, labels, k) && ClosedBelow(s, labels, k) && Supported(s, labels) && ClassifiedTo(labels, |s.pts|)
    requires forall p :: Core(s, p) ==> At(labels, p) >= 0
    requires IsPoint(s, q) && !Core(s, q)
    ensures BorderLabel(s, labels, q)
  {
    hide Close, At;
    forall p | CoreNeighbour(s, p, q)
      ensures 0 <= At(labels, q) <= At(labels, p)
    {
      assert Core(s, p) && At(labels, p) < k;
    }
    if At(labels, q) >= 0 {
      assert Backed(s, labels, q);
    }
    assert At(labels, q) != UNCLASSIFIED;
  }

  lemma CoresAreLabelled(s: Setup, labels: seq<int>, k: int)
    requires Ranged(s, labels, k) && ClassifiedTo(labels, |s.pts|)
    ensures forall p :: Core(s, p) ==> 0 <= At(labels, p) < k
  {
    hide At;
    forall p | Core(s, p)
      ensures 0 <= At(labels, p) < k
    {
      assert IsPoint(s, p);
    }
  }

  lemma SeedsComeFirst(s: Setup, labels: seq<int>, seeds: seq<int>)
    requires Rooted(s, labels, seeds)
    ensures forall c :: 0 <= c < |seeds| ==> Used(s, labels, c)
    ensures forall p, c :: Core(s, p) && 0 <= c < At(labels, p) < |seeds| ==> SmallerIdBefore(s, labels, p, c)
  {
    forall c | 0 <= c < |seeds|
      ensures Used(s, labels, c)
    {
      assert Core(s, seeds[c]) && At(labels, seeds[c]) == c;
    }
    forall p, c | Core(s, p) && 0 <= c < At(labels, p) < |seeds|
      ensures SmallerIdBefore(s, labels, p, c)
    {
      assert seeds[c] < seeds[At(labels, p)] <= p;
      assert Core(s, seeds[c]) && At(labels, seeds[c]) == c;
    }
  }

  lemma AllIsClustered(s: Setup, labels: seq<int>, seeds: seq<int>)
    requires Between(s, labels, seeds, |s.pts|)
    ensures Clustering(s, labels, |seeds|)
  {
    hide Core, CoreNeighbour, Close, At, Ranged, ClosedBelow, Supported, Rooted, Chained, BorderLabel, Used,
      SmallerIdBefore, ClassifiedTo;
    SizeOf(s, labels, |seeds|);
    CoresAreLabelled(s, labels, |seeds|);
    forall p, q | Core(s, p) && Core(s, q)
      ensures At(labels, p) == At(labels, q) <==> Chained(s, p, q)
    {
      SameLabelIffChained(s, labels, seeds, p, q);
    }
    forall q | IsPoint(s, q) && !Core(s, q)
      ensures BorderLabel(s, labels, q)
    {
      BorderIsRight(s, labels, |seeds|, q);
    }
    SeedsComeFirst(s, labels, seeds);
  }

  // The definition leaves no choice: two labellings that meet it are the same.
  lemma {:induction false} CoreLabelsAgree(s: Setup, labels: seq<int>, k: int, other: seq<int>, m: int, p: int)
    requires Clustering(s, labels, k) && Clustering(s, other, m) && Core(s, p)
    ensures At(labels, p) == At(other, p)
    decreases p
  {
    hide At, BorderLabel, Chained, Core;
    IndexOfCore(s, p);
    forall q | 0 <= q < p && Core(s, q)
      ensures At(labels, q) == At(other, q)
    {
      CoreLabelsAgree(s, labels, k, other, m, q);
    }
    var earlier, earlier' := SmallerIdBefore(s, other, p, At(labels, p)), SmallerIdBefore(s, labels, p, At(other, p));
  }

  lemma IndexOfCore(s: Setup, p: int)
    requires Core(s, p)
    ensures p >= 0
  {
  }

  lemma ClusteringIsUnique(s: Setup, labels: seq<int>, k: int, other: seq<int>, m: int)
    requires Clustering(s, labels, k) && Clustering(s, other, m)
    ensures labels == other && k == m
  {
    forall p | Core(s, p)
      ensures At(labels, p) == At(other, p)
    {
      CoreLabelsAgree(s, labels, k, other, m, p);
    }
    forall q | 0 <= q < |labels|
      ensures labels[q] == other[q]
    {
      assert labels[q] == At(labels, q) && other[q] == At(other, q);
      if !Core(s, q) {
        BordersAgree(s, labels, other, q);
      }
    }
    SameCount(s, labels, k, other, m);
    SameCount(s, other, m, labels, k);
  }

  lemma SameCount(s: Setup, labels: seq<int>, k: int, other: seq<int>, m: int)
    requires Clustering(s, labels, k) && Clustering(s, other, m) && labels == other
    ensures k <= m
  {
    hide Core, At;
    if k > 0 {
      assert Used(s, labels, k - 1);
    }
  }

  lemma BordersAgree(s: Setup, labels: seq<int>, other: seq<int>, q: int)
    requires BorderLabel(s, labels, q) && BorderLabel(s, other, q)
    requires forall p :: Core(s, p) ==> At(labels, p) == At(other, p)
    ensures At(labels, q) == At(other, q)
  {
    hide Close, At;
    if exists p :: CoreNeighbour(s, p, q) {
      var p :| CoreNeighbour(s, p, q) && At(labels, p) == At(labels, q);
      var r :| CoreNeighbour(s, r, q) && At(other, r) == At(other, q);
      assert Core(s, p) && Core(s, r);
    }
  }

  // ----- run

  lemma LabelsAre(labels: array<int>, j: int, c: int, before: seq<int>)
    requires 0 <= j < labels.Length == |before| && labels[..] == before[j := c]
    ensures Relabelled(before, j, c, labels[..])
  {
    Relabel(before, j, c);
  }

  ghost function Unclassified(labels: seq<int>): set<int> {
    set k | 0 <= k < |labels| && labels[k] == UNCLASSIFIED
  }

  // run: unless the context is cancelled, the labels are the clustering of the density definition.
  method Run(s: Setup, ctxErr: nat -> bool) returns (cancelled: bool, labels: array<int>, cluster: nat)
    requires s.Valid()
    ensures cancelled ==> exists k :: ctxErr(k)
    ensures fresh(labels)
    ensures !cancelled ==> Clustering(s, labels[..], cluster)
  {
    hide Between, Growing, Core, Ball, Clustering, Files, Relabelled;
    cancelled, cluster := false, 0;
    var grid := BuildGrid(s);
    labels := new int[|s.pts|](_ => UNCLASSIFIED);
    ghost var seeds: seq<int> := [];
    ghost var open := Unclassified(labels[..]);
    NothingLabelled(s, labels[..]);
    var polls := 0;
    for i := 0 to |s.pts|
      invariant fresh(labels) && labels.Length == |s.pts| && cluster == |seeds|
      invariant Between(s, labels[..], seeds, i)
      invariant Unclassified(labels[..]) <= open
    {
      if i % CANCEL_CHECK_INTERVAL == 0 {
        if ctxErr(polls) {
          cancelled := true;
          return;
        }
        polls := polls + 1;
      }
      if labels[i] != UNCLASSIFIED {
        StepOver(s, labels[..], seeds, i);
        continue;
      }
      var nb := Neighbours(s, grid, i);
      ghost var before := labels[..];
      if |nb| < s.minPts {
        NotDense(s, i);
        MarkNoise(s, before, seeds, i);
        labels[i] := NOISE;
        assert labels[..] == before[i := NOISE];
        continue;
      }
      IsDense(s, i);
      labels[i] := cluster;
      LabelsAre(labels, i, cluster, before);
      StartCluster(s, before, seeds, i, nb, labels[..]);
      seeds := seeds + [i];
      var queue := nb;
      var steps := 0;
      while |queue| > 0
        invariant fresh(labels) && labels.Length == |s.pts| && cluster == |seeds| - 1
        invariant Growing(s, labels[..], seeds, i, queue)
        invariant Unclassified(labels[..]) <= open
        decreases open, |queue|
      {
        if steps % CANCEL_CHECK_INTERVAL == 0 {
          if ctxErr(polls) {
            cancelled := true;
            return;
          }
          polls := polls + 1;
        }
        steps := steps + 1;
        var j := queue[0];
        QueueHead(s, labels[..], seeds, i, queue);
        ghost var old0, was := queue, labels[..];
        queue := queue[1..];
        if labels[j] == NOISE {
          labels[j] := cluster;
          LabelsAre(labels, j, cluster, was);
          Absorb(s, was, seeds, i, old0, [], labels[..]);
          assert queue + [] == queue;
        } else if labels[j] >= 0 {
          Drop(s, was, seeds, i, old0);
        }
        if labels[j] != UNCLASSIFIED {
          continue;
        }
        labels[j] := cluster;
        open := open - {j};
        var nb2 := Neighbours(s, grid, j);
        LabelsAre(labels, j, cluster, was);
        if |nb2| >= s.minPts {
          IsDense(s, j);
          Absorb(s, was, seeds, i, old0, nb2, labels[..]);
          queue := queue + nb2;
        } else {
          NotDense(s, j);
          Absorb(s, was, seeds, i, old0, [], labels[..]);
          assert queue + [] == queue;
        }
      }
      assert queue == [];
      FinishCluster(s, labels[..], seeds, i);
      cluster := cluster + 1;
    }
    AllIsClustered(s, labels[..], seeds);
  }

  lemma IsDense(s: Setup, i: int)
    requires IsPoint(s, i)
    ensures |Ball(s, i)| >= s.minPts ==> Core(s, i)
  {
  }

  lemma NotDense(s: Setup, i: int)
    ensures |Ball(s, i)| < s.minPts ==> !Core(s, i)
  {
  }

  lemma QueueHead(s: Setup, labels: seq<int>, seeds: seq<int>, i: int, queue: seq<int>)
    requires Growing(s, labels, seeds, i, queue) && |queue| > 0
    ensures IsPoint(s, queue[0]) && |labels| == |s.pts| && UNCLASSIFIED <= labels[queue[0]]
    ensures labels[queue[0]] == At(labels, queue[0])
    ensures labels[queue[0]] == NOISE ==> !Core(s, queue[0])
  {
    hide Ranged, Frontier, Rooted, ClosedBelow, Supported, Core, ClassifiedTo;
    HeadIsTouched(s, labels, |seeds| - 1, queue);
    RangedAt(s, labels, |seeds|, queue[0]);
  }

  lemma RangedAt(s: Setup, labels: seq<int>, k: int, p: int)
    requires Ranged(s, labels, k) && IsPoint(s, p)
    ensures |labels| == |s.pts| && UNCLASSIFIED <= labels[p] == At(labels, p)
    ensures labels[p] == NOISE ==> !Core(s, p)
  {
    hide Core;
    assert labels[p] == At(labels, p);
  }

  // ----- the cluster summaries

  datatype Agg = Agg(count: nat, sum: Point, minP: Point, maxP: Point) {
    function Centroid(): Point
      requires count > 0
    {
      Point(sum.x / count as real, sum.y / count as real)
    }
  }

  function Add(a: Agg, p: Point): Agg {
    Agg(a.count + 1, Point(a.sum.x + p.x, a.sum.y + p.y),
        Point(Min(a.minP.x, p.x), Min(a.minP.y, p.y)), Point(Max(a.maxP.x, p.x), Max(a.maxP.y, p.y)))
  }

  // How many of the first n labels are c.
  ghost function Tally(labels: seq<int>, c: int, n: nat): nat
    requires n <= |labels|
  {
    if n == 0 then 0 else Tally(labels, c, n - 1) + (if labels[n - 1] == c then 1 else 0)
  }

  // The sum of the coordinates of the points labelled c.
  ghost function SumOf(labels: seq<int>, vals: seq<real>, c: int, n: nat): real
    requires n <= |labels| == |vals|
  {
    if n == 0 then 0.0 else SumOf(labels, vals, c, n - 1) + (if labels[n - 1] == c then vals[n - 1] else 0.0)
  }

  ghost function Xs(pts: seq<Point>): (r: seq<real>)
    ensures |r| == |pts| && forall k :: 0 <= k < |r| ==> r[k] == pts[k].x
  {
    seq(|pts|, k requires 0 <= k < |pts| => pts[k].x)
  }

  ghost function Ys(pts: seq<Point>): (r: seq<real>)
    ensures |r| == |pts| && forall k :: 0 <= k < |r| ==> r[k] == pts[k].y
  {
    seq(|pts|, k requires 0 <= k < |pts| => pts[k].y)
  }

  // lo and hi are the least and greatest of the values of the first n points labelled c.
  ghost predicate Tight(labels: seq<int>, vals: seq<real>, c: int, n: nat, lo: real, hi: real)
    requires n <= |labels| == |vals|
  {
    && (forall k :: 0 <= k < n && labels[k] == c ==> lo <= vals[k] <= hi)
    && (exists k :: 0 <= k < n && labels[k] == c && vals[k] == lo)
    && (exists k :: 0 <= k < n && labels[k] == c && vals[k] == hi)
  }

  ghost predicate SummaryOf(a: Agg, pts: seq<Point>, labels: seq<int>, c: int, n: nat)
    requires n <= |labels| == |pts|
  {
    && a.count == Tally(labels, c, n) > 0
    && a.sum == Point(SumOf(labels, Xs(pts), c, n), SumOf(labels, Ys(pts), c, n))
    && Tight(labels, Xs(pts), c, n, a.minP.x, a.maxP.x) && Tight(labels, Ys(pts), c, n, a.minP.y, a.maxP.y)
  }

  lemma TightNext(labels: seq<int>, vals: seq<real>, c: int, n: nat, lo: real, hi: real)
    requires n < |labels| == |vals| && labels[n] == c
    ensures Tight(labels, vals, c, n, lo, hi) ==> Tight(labels, vals, c, n + 1, Min(lo, vals[n]), Max(hi, vals[n]))
    ensures Tally(labels, c, n) == 0 ==> Tight(labels, vals, c, n + 1, vals[n], vals[n])
  {
    NoneYet(labels, c, n);
    if Tight(labels, vals, c, n, lo, hi) {
      var k :| 0 <= k < n && labels[k] == c && vals[k] == lo;
      var m :| 0 <= m < n && labels[m] == c && vals[m] == hi;
      assert vals[k] == lo && vals[m] == hi && labels[n] == c;
    }
  }

  lemma {:induction false} NoneYet(labels: seq<int>, c: int, n: nat)
    requires n <= |labels|
    ensures Tally(labels, c, n) == 0 <==> forall k :: 0 <= k < n ==> labels[k] != c
  {
    if n > 0 {
      NoneYet(labels, c, n - 1);
    }
  }

  lemma {:induction false} NothingSummed(labels: seq<int>, vals: seq<real>, c: int, n: nat)
    requires n <= |labels| == |vals| && Tally(labels, c, n) == 0
    ensures SumOf(labels, vals, c, n) == 0.0
  {
    if n > 0 {
      NothingSummed(labels, vals, c, n - 1);
    }
  }

  // The table after the first n points: one entry for each label seen, and nothing else.
  ghost predicate Summed(sums: map<int, Agg>, pts: seq<Point>, labels: seq<int>, n: nat)
    requires n <= |labels| == |pts|
  {
    && (forall c :: c in sums <==> c != NOISE && Tally(labels, c, n) > 0)
    && (forall c :: c in sums ==> SummaryOf(sums[c], pts, labels, c, n))
  }

  lemma SummaryStays(a: Agg, pts: seq<Point>, labels: seq<int>, c: int, n: nat)
    requires n < |labels| == |pts| && SummaryOf(a, pts, labels, c, n) && labels[n] != c
    ensures SummaryOf(a, pts, labels, c, n + 1)
  {
  }

  lemma SummaryGrows(a: Agg, pts: seq<Point>, labels: seq<int>, c: int, n: nat)
    requires n < |labels| == |pts| && labels[n] == c
    ensures SummaryOf(a, pts, labels, c, n) ==> SummaryOf(Add(a, pts[n]), pts, labels, c, n + 1)
    ensures Tally(labels, c, n) == 0 ==>
      SummaryOf(Add(Agg(0, Point(0.0, 0.0), pts[n], pts[n]), pts[n]), pts, labels, c, n + 1)
  {
    hide Tight;
    TightNext(labels, Xs(pts), c, n, a.minP.x, a.maxP.x);
    TightNext(labels, Ys(pts), c, n, a.minP.y, a.maxP.y);
    if Tally(labels, c, n) == 0 {
      NothingSummed(labels, Xs(pts), c, n);
      NothingSummed(labels, Ys(pts), c, n);
    }
  }

  lemma SummedNext(sums: map<int, Agg>, pts: seq<Point>, labels: seq<int>, n: nat, a: Agg)
    requires n < |labels| == |pts| && Summed(sums, pts, labels, n)
    requires labels[n] != NOISE
    requires a == if labels[n] in sums then sums[labels[n]] else Agg(0, Point(0.0, 0.0), pts[n], pts[n])
    ensures Summed(sums[labels[n] := Add(a, pts[n])], pts, labels, n + 1)
  {
    hide SummaryOf;
    SummaryGrows(a, pts, labels, labels[n], n);
    forall c | c in sums && c != labels[n]
      ensures SummaryOf(sums[c], pts, labels, c, n + 1)
    {
      SummaryStays(sums[c], pts, labels, c, n);
    }
  }

  lemma SummedSkip(sums: map<int, Agg>, pts: seq<Point>, labels: seq<int>, n: nat)
    requires n < |labels| == |pts| && Summed(sums, pts, labels, n) && labels[n] == NOISE
    ensures Summed(sums, pts, labels, n + 1)
  {
    hide SummaryOf;
    forall c | c in sums
      ensures SummaryOf(sums[c], pts, labels, c, n + 1)
    {
      SummaryStays(sums[c], pts, labels, c, n);
    }
  }

  lemma LabelsInUse(s: Setup, labels: seq<int>, k: int)
    requires Clustering(s, labels, k)
    ensures forall c :: c != NOISE && Tally(labels, c, |labels|) > 0 <==> 0 <= c < k
  {
    hide Core, Close, Chained;
    forall c
      ensures c != NOISE && Tally(labels, c, |labels|) > 0 <==> 0 <= c < k
    {
      NoneYet(labels, c, |labels|);
      if 0 <= c < k {
        assert Used(s, labels, c);
        var p :| Core(s, p) && At(labels, p) == c;
        assert labels[p] == c;
      }
      forall q | 0 <= q < |labels|
        ensures NOISE <= labels[q] < k
      {
        LabelInRange(s, labels, k, q);
      }
    }
  }

  lemma LabelInRange(s: Setup, labels: seq<int>, k: int, q: int)
    requires Clustering(s, labels, k) && IsPoint(s, q)
    ensures NOISE <= labels[q] < k
  {
    hide Core, Close, Chained;
    assert labels[q] == At(labels, q);
    if !Core(s, q) {
      assert BorderLabel(s, labels, q);
    }
  }

  // The summary loops of Run: the entry of every cluster below the count is there, and says how
  // many points carry its label, what they sum up to, and exactly which box they span.
  method Summarize(s: Setup, pts: seq<Point>, labels: seq<int>, ghost k: int)
      returns (clusters: seq<Agg>, noiseCount: nat)
    requires |pts| == |labels| && Clustering(s, labels, k)
    ensures |clusters| == k && forall c :: 0 <= c < k ==> SummaryOf(clusters[c], pts, labels, c, |labels|)
    ensures noiseCount == Tally(labels, NOISE, |labels|)
  {
    hide SummaryOf, Clustering, Summed;
    SummedNothing(pts, labels);
    var sums: map<int, Agg> := map[];
    noiseCount := 0;
    for i := 0 to |labels|
      invariant Summed(sums, pts, labels, i) && noiseCount == Tally(labels, NOISE, i)
    {
      var l := labels[i];
      if l == NOISE {
        noiseCount := noiseCount + 1;
        SummedSkip(sums, pts, labels, i);
        continue;
      }
      var a := if l in sums then sums[l] else Agg(0, Point(0.0, 0.0), pts[i], pts[i]);
      SummedNext(sums, pts, labels, i, a);
      sums := sums[l := Add(a, pts[i])];
    }
    SummedAll(s, sums, pts, labels, k);
    clusters := [];
    for id := 0 to |sums|
      invariant |clusters| == id && forall c :: 0 <= c < id ==> SummaryOf(clusters[c], pts, labels, c, |labels|)
    {
      clusters := clusters + [sums[id]];
    }
  }

  // At the end the keys are exactly the cluster numbers.
  lemma SummedAll(s: Setup, sums: map<int, Agg>, pts: seq<Point>, labels: seq<int>, k: int)
    requires |pts| == |labels| && Clustering(s, labels, k) && Summed(sums, pts, labels, |labels|)
    ensures |sums| == k && forall c :: 0 <= c < k ==> c in sums && SummaryOf(sums[c], pts, labels, c, |labels|)
  {
    hide SummaryOf, Clustering;
    LabelsInUse(s, labels, k);
    KIsNatural(s, labels, k);
    assert sums.Keys == Below(k);
  }

  lemma SummedNothing(pts: seq<Point>, labels: seq<int>)
    requires |pts| == |labels|
    ensures Summed(map[], pts, labels, 0)
  {
  }

  lemma KIsNatural(s: Setup, labels: seq<int>, k: int)
    requires Clustering(s, labels, k)
    ensures k >= 0
  {
  }

  lemma {:induction false} SumWithin(labels: seq<int>, vals: seq<real>, c: int, n: nat, lo: real, hi: real)
    requires n <= |labels| == |vals| && forall k :: 0 <= k < n && labels[k] == c ==> lo <= vals[k] <= hi
    ensures lo * Tally(labels, c, n) as real <= SumOf(labels, vals, c, n) <= hi * Tally(labels, c, n) as real
  {
    if n > 0 {
      SumWithin(labels, vals, c, n - 1, lo, hi);
      var t := Tally(labels, c, n - 1) as real;
      assert lo * (t + 1.0) == lo * t + lo && hi * (t + 1.0) == hi * t + hi;
    }
  }

  lemma MeanWithin(sum: real, count: nat, lo: real, hi: real)
    requires count > 0 && lo * count as real <= sum <= hi * count as real
    ensures lo <= sum / count as real <= hi
  {
  }

  lemma MeanOf(labels: seq<int>, vals: seq<real>, c: int, n: nat, lo: real, hi: real, count: nat, sum: real)
    requires n <= |labels| == |vals| && Tight(labels, vals, c, n, lo, hi)
    requires count == Tally(labels, c, n) > 0 && sum == SumOf(labels, vals, c, n)
    ensures lo <= sum / count as real <= hi
  {
    hide Tally, SumOf;
    SumWithin(labels, vals, c, n, lo, hi);
    MeanWithin(sum, count, lo, hi);
  }

  // The centroid that is reported lies in the box that is reported.
  lemma CentroidInBox(a: Agg, pts: seq<Point>, labels: seq<int>, c: int)
    requires |labels| == |pts| && SummaryOf(a, pts, labels, c, |labels|)
    ensures a.minP.x <= a.Centroid().x <= a.maxP.x && a.minP.y <= a.Centroid().y <= a.maxP.y
    ensures a.count as real * a.Centroid().x == a.sum.x && a.count as real * a.Centroid().y == a.sum.y
  {
    hide Tight, SumOf, Tally;
    MeanOf(labels, Xs(pts), c, |labels|, a.minP.x, a.maxP.x, a.count, a.sum.x);
    MeanOf(labels, Ys(pts), c, |labels|, a.minP.y, a.maxP.y, a.count, a.sum.y);
  }

  ghost function TotalOf(labels: seq<int>, k: nat): nat {
    if k == 0 then 0 else TotalOf(labels, k - 1) + Tally(labels, k - 1, |labels|)
  }

  lemma {:induction false} TotalOfSplits(labels: seq<int>, k: nat)
    requires |labels| > 0
    ensures TotalOf(labels, k) == TotalOf(labels[..|labels| - 1], k) + (if 0 <= labels[|labels| - 1] < k then 1 else 0)
  {
    if k > 0 {
      TotalOfSplits(labels, k - 1);
      TallyOfPrefix(labels, labels[..|labels| - 1], k - 1, |labels| - 1);
    }
  }

  lemma {:induction false} TallyOfPrefix(labels: seq<int>, prefix: seq<int>, c: int, n: nat)
    requires n <= |prefix| <= |labels| && prefix == labels[..|prefix|]
    ensures Tally(labels, c, n) == Tally(prefix, c, n)
  {
    if n > 0 {
      TallyOfPrefix(labels, prefix, c, n - 1);
    }
  }

  // The counts of the clusters and the noise count add up to the number of points.
  lemma {:induction false} CountsAddUp(labels: seq<int>, k: nat)
    requires forall q :: 0 <= q < |labels| ==> NOISE <= labels[q] < k
    ensures TotalOf(labels, k) + Tally(labels, NOISE, |labels|) == |labels|
  {
    if labels == [] {
      EmptyTotal(k);
    } else {
      CountsAddUp(labels[..|labels| - 1], k);
      TotalOfSplits(labels, k);
      TallyOfPrefix(labels, labels[..|labels| - 1], NOISE, |labels| - 1);
    }
  }

  lemma {:induction false} EmptyTotal(k: nat)
    ensures TotalOf([], k) == 0
  {
    if k > 0 {
      EmptyTotal(k - 1);
    }
  }
}
