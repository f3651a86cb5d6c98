/** The boolean raster of internal/algo/routing/marching.go. */
module BinaryGrid {
  import opened MarchingSquares
  import opened Numbers
  import opened RingChain

  // ----- the flat buffer and the set of samples it stands for

  lemma IndexBound(nx: nat, ny: nat, x: int, y: int)
    requires 0 <= x < nx && 0 <= y < ny
    ensures 0 <= y * nx + x < nx * ny
  {
    var rest: nat := ny - 1 - y;
    assert ny * nx == y * nx + rest * nx + nx;
    Products(y, nx);
    Products(rest, nx);
  }

  lemma Products(a: nat, b: nat)
    ensures a * b >= 0
  {
  }

  // Row-major index of a sample.
  function Index(nx: nat, ny: nat, x: int, y: int): (k: nat)
    requires 0 <= x < nx && 0 <= y < ny
    ensures k < nx * ny
  {
    IndexBound(nx, ny, x, y);
    y * nx + x
  }

  lemma IndexInjective(nx: nat, ny: nat, x: int, y: int, x': int, y': int)
    requires 0 <= x < nx && 0 <= y < ny && 0 <= x' < nx && 0 <= y' < ny
    requires Index(nx, ny, x, y) == Index(nx, ny, x', y')
    ensures x == x' && y == y'
  {
    var d := y - y';
    assert d * nx == x' - x;
    assert d >= 1 ==> d * nx >= nx;
    assert d <= -1 ==> d * nx <= -(nx as int);
  }

  predicate Inside(p: Sample, nx: int, ny: int) {
    0 <= p.x < nx && 0 <= p.y < ny
  }

  ghost function Marks(v: array<bool>, nx: nat, ny: nat): (m: set<Sample>)
    requires v.Length == nx * ny
    reads v
    ensures InBox(m, nx, ny)
  {
    set x, y | 0 <= x < nx && 0 <= y < ny && v[Index(nx, ny, x, y)] :: Sample(x, y)
  }

  method SetBit(v: array<bool>, nx: nat, ny: nat, x: int, y: int)
    requires v.Length == nx * ny && 0 <= x < nx && 0 <= y < ny
    modifies v
    ensures Marks(v, nx, ny) == old(Marks(v, nx, ny)) + {Sample(x, y)}
  {
    ghost var k := Index(nx, ny, x, y);
    v[Index(nx, ny, x, y)] := true;
    forall x', y' | 0 <= x' < nx && 0 <= y' < ny && Index(nx, ny, x', y') == k
      ensures x' == x && y' == y
    {
      IndexInjective(nx, ny, x, y, x', y');
    }
  }

  // ----- dilation

  predicate Near(p: Sample, q: Sample) {
    -1 <= p.x - q.x <= 1 && -1 <= p.y - q.y <= 1
  }

  // Every sample of the raster within one cell of a marked one, in any of the eight directions.
  ghost function Dilated(m: set<Sample>, nx: int, ny: int): (d: set<Sample>)
    ensures forall q :: q in d <==> Inside(q, nx, ny) && exists p :: p in m && Near(p, q)
  {
    set x, y | 0 <= x < nx && 0 <= y < ny && (exists p :: p in m && Near(p, Sample(x, y))) :: Sample(x, y)
  }

  // The neighbours of (x, y) the double loop has visited when it stands at offset (dx, dy).
  ghost function Visited(nx: int, ny: int, x: int, y: int, dx: int, dy: int): set<Sample> {
    set i, j |
      x - 1 <= i <= x + 1 && y - 1 <= j <= y + 1 && Inside(Sample(i, j), nx, ny) && Passed(i - x, j - y, dx, dy) ::
      Sample(i, j)
  }

  // The sample itself, if it is in the raster.
  ghost function Clip(q: Sample, nx: int, ny: int): set<Sample> {
    if Inside(q, nx, ny) then {q} else {}
  }

  lemma VisitOne(before: set<Sample>, nx: int, ny: int, x: int, y: int, dx: int, dy: int)
    requires -1 <= dx <= 1 && -1 <= dy <= 1
    ensures before + Visited(nx, ny, x, y, dx + 1, dy) ==
            before + Visited(nx, ny, x, y, dx, dy) + Clip(Sample(x + dx, y + dy), nx, ny)
  {
    assert Visited(nx, ny, x, y, dx + 1, dy) == Visited(nx, ny, x, y, dx, dy) + Clip(Sample(x + dx, y + dy), nx, ny);
  }

  lemma VisitRow(nx: int, ny: int, x: int, y: int, dy: int)
    ensures Visited(nx, ny, x, y, 2, dy) == Visited(nx, ny, x, y, -1, dy + 1)
  {
  }

  lemma VisitAll(nx: int, ny: int, x: int, y: int)
    ensures Visited(nx, ny, x, y, -1, -1) == {}
    ensures Visited(nx, ny, x, y, -1, 2) == Dilated({Sample(x, y)}, nx, ny)
  {
    assert forall q :: Near(Sample(x, y), q) <==> exists p :: p in {Sample(x, y)} && Near(p, q);
  }

  // set() ignores samples outside the raster.
  method SetClipped(v: array<bool>, nx: nat, ny: nat, x: int, y: int)
    requires v.Length == nx * ny
    modifies v
    ensures Marks(v, nx, ny) == old(Marks(v, nx, ny)) + Clip(Sample(x, y), nx, ny)
  {
    if x >= 0 && y >= 0 && x < nx && y < ny {
      SetBit(v, nx, ny, x, y);
    }
  }

  method SpreadFrom(out: array<bool>, nx: nat, ny: nat, x: int, y: int)
    requires out.Length == nx * ny
    modifies out
    ensures Marks(out, nx, ny) == old(Marks(out, nx, ny)) + Dilated({Sample(x, y)}, nx, ny)
  {
    hide Visited, Clip, Marks;
    ghost var before := Marks(out, nx, ny);
    VisitAll(nx, ny, x, y);
    for dy := -1 to 2
      invariant Marks(out, nx, ny) == before + Visited(nx, ny, x, y, -1, dy)
    {
      for dx := -1 to 2
        invariant Marks(out, nx, ny) == before + Visited(nx, ny, x, y, dx, dy)
      {
        SetClipped(out, nx, ny, x + dx, y + dy);
        VisitOne(before, nx, ny, x, y, dx, dy);
      }
      VisitRow(nx, ny, x, y, dy);
    }
  }

  // The marked samples the scan has passed when it stands at (x, y).
  ghost function Before(m: set<Sample>, x: int, y: int): set<Sample> {
    set p | p in m && Passed(p.x, p.y, x, y)
  }

  lemma DilateOne(m: set<Sample>, x: int, y: int, nx: int, ny: int)
    ensures Dilated(Before(m, x + 1, y), nx, ny) ==
            Dilated(Before(m, x, y), nx, ny) + (if Sample(x, y) in m then Dilated({Sample(x, y)}, nx, ny) else {})
  {
    var p := Sample(x, y);
    assert forall q :: Near(p, q) <==> exists o :: o in {p} && Near(o, q);
    assert Before(m, x + 1, y) == Before(m, x, y) + (if p in m then {p} else {});
  }

  lemma DilateRow(m: set<Sample>, y: int, nx: int, ny: int)
    requires InBox(m, nx, ny)
    ensures Before(m, nx, y) == Before(m, 0, y + 1)
  {
  }

  lemma DilateEnds(m: set<Sample>, nx: int, ny: int)
    requires InBox(m, nx, ny)
    ensures Before(m, 0, 0) == {} && Before(m, 0, ny) == m
  {
  }

  method Dilate(v: array<bool>, nx: nat, ny: nat) returns (out: array<bool>)
    requires v.Length == nx * ny
    ensures fresh(out) && out.Length == nx * ny
    ensures Marks(out, nx, ny) == Dilated(Marks(v, nx, ny), nx, ny)
  {
    out := new bool[v.Length](_ => false);
    ghost var m := Marks(v, nx, ny);
    DilateEnds(m, nx, ny);
    for y := 0 to ny
      invariant Marks(v, nx, ny) == m
      invariant Marks(out, nx, ny) == Dilated(Before(m, 0, y), nx, ny)
    {
      for x := 0 to nx
        invariant Marks(v, nx, ny) == m
        invariant Marks(out, nx, ny) == Dilated(Before(m, x, y), nx, ny)
      {
        if v[Index(nx, ny, x, y)] {
          SpreadFrom(out, nx, ny, x, y);
        }
        DilateOne(m, x, y, nx, ny);
        assert Sample(x, y) in m <==> v[Index(nx, ny, x, y)];
      }
      DilateRow(m, y, nx, ny);
    }
  }

  // ----- rasterizing a segment

  // The linear transform from coordinates to samples.
  datatype Frame = Frame(minX: real, minY: real, cw: real, ch: real) {
    function ColumnOf(x: real): real
      requires cw > 0.0
    {
      (x - minX) / cw
    }

    function RowOf(y: real): real
      requires ch > 0.0
    {
      (y - minY) / ch
    }

    function CellOf(p: Point): Sample
      requires cw > 0.0 && ch > 0.0
    {
      Sample(Round(ColumnOf(p.x)), Round(RowOf(p.y)))
    }
  }

  predicate Proper(f: Frame) {
    f.cw > 0.0 && f.ch > 0.0
  }

  // toLonLat: the doubled lattice counts half-cells.
  function OnAxis(lo: real, cell: real, v: int): real {
    lo + v as real / 2.0 * cell
  }

  function ToLonLat(f: Frame, v: VKey): Point {
    Point(OnAxis(f.minX, f.cw, v.x), OnAxis(f.minY, f.ch, v.y))
  }

  function PositionOf(f: Frame, s: Sample): Point {
    ToLonLat(f, VKey(2 * s.x, 2 * s.y))
  }

  lemma SampleOnAxis(lo: real, cell: real, k: int)
    ensures OnAxis(lo, cell, 2 * k) == lo + k as real * cell
  {
    assert (2 * k) as real / 2.0 == k as real;
  }

  // A point falls into the cell of a sample that is nearest to it, so a sample into its own.
  lemma CellOfIsNearest(f: Frame, p: Point)
    requires Proper(f)
    ensures
      var q := PositionOf(f, f.CellOf(p));
      Abs(p.x - q.x) <= f.cw / 2.0 && Abs(p.y - q.y) <= f.ch / 2.0
  {
    NearestOnAxis(p.x, f.minX, f.cw);
    NearestOnAxis(p.y, f.minY, f.ch);
  }

  lemma NearestOnAxis(p: real, lo: real, cell: real)
    requires cell > 0.0
    ensures Abs(p - OnAxis(lo, cell, 2 * Round((p - lo) / cell))) <= cell / 2.0
  {
    var q := (p - lo) / cell;
    var k := Round(q);
    SampleOnAxis(lo, cell, k);
    hide OnAxis, Round;
    assert p - lo == q * cell;
    var x, y := q * cell, k as real * cell;
    OffsetScaled(q, k as real, cell, x, y);
    assert OnAxis(lo, cell, 2 * k) == lo + y;
    var r := OnAxis(lo, cell, 2 * k);
    assert p - r == x - y;
  }

  lemma OffsetScaled(q: real, k: real, cell: real, x: real, y: real)
    requires cell > 0.0 && -0.5 <= q - k <= 0.5 && x == q * cell && y == k * cell
    ensures Abs(x - y) <= cell / 2.0
  {
    var d := q - k;
    assert x - y == d * cell;
    NonNegativeProduct(0.5 - d, cell);
    NonNegativeProduct(0.5 + d, cell);
    assert (0.5 - d) * cell == cell / 2.0 - d * cell && (0.5 + d) * cell == cell / 2.0 + d * cell;
  }

  lemma NonNegativeProduct(a: real, b: real)
    requires a >= 0.0 && b >= 0.0
    ensures a * b >= 0.0
  {
  }

  lemma CellOfSample(f: Frame, s: Sample)
    requires Proper(f)
    ensures f.CellOf(PositionOf(f, s)) == s
  {
    OwnCellOnAxis(f.minX, f.cw, s.x);
    OwnCellOnAxis(f.minY, f.ch, s.y);
    hide OnAxis, Round;
  }

  lemma OwnCellOnAxis(lo: real, cell: real, k: int)
    requires cell > 0.0
    ensures Round((OnAxis(lo, cell, 2 * k) - lo) / cell) == k
  {
    SampleOnAxis(lo, cell, k);
    hide OnAxis;
    var q := (OnAxis(lo, cell, 2 * k) - lo) / cell;
    assert q * cell == k as real * cell;
    assert (q - k as real) * cell == 0.0;
    assert q == k as real;
  }

  // A contour passes halfway between a marked sample and one that is not, next to each other.
  lemma ContourIsHalfway(m: set<Sample>, f: Frame, v: VKey)
    requires Crossing(m, v)
    ensures
      var s, t := MarkedBeside(m, v), UnmarkedBeside(m, v);
      && s in m && t !in m && ShareSide(s, t)
      && var p, q, c := PositionOf(f, s), PositionOf(f, t), ToLonLat(f, v);
         2.0 * c.x == p.x + q.x && 2.0 * c.y == p.y + q.y
  {
    var s, t := FirstBeside(v), SecondBeside(v);
    assert v == VKey(s.x + t.x, s.y + t.y);
    HalfwayOnAxis(f.minX, f.cw, s.x, t.x);
    HalfwayOnAxis(f.minY, f.ch, s.y, t.y);
    hide OnAxis;
  }

  lemma HalfwayOnAxis(lo: real, cell: real, i: int, j: int)
    ensures 2.0 * OnAxis(lo, cell, i + j) == OnAxis(lo, cell, 2 * i) + OnAxis(lo, cell, 2 * j)
  {
    SampleOnAxis(lo, cell, i);
    SampleOnAxis(lo, cell, j);
    assert (i + j) as real == i as real + j as real;
    assert (i + j) as real / 2.0 * cell == (i as real * cell + j as real * cell) / 2.0;
  }

  // The number of steps markSegment takes; int() of a non-negative number drops its fraction.
  function Steps(f: Frame, a: Point, b: Point): (n: int)
    requires Proper(f)
    ensures n >= 1
  {
    var extent := Max(Abs(b.x - a.x) / f.cw, Abs(b.y - a.y) / f.ch);
    assert Abs(b.x - a.x) / f.cw >= 0.0;
    (extent * 2.0).Floor + 1
  }

  function Along(a: real, b: real, i: int, steps: int): real
    requires steps >= 1
  {
    a + (b - a) * (i as real / steps as real)
  }

  function Stop(f: Frame, a: Point, b: Point, i: int): Point
    requires Proper(f)
  {
    Point(Along(a.x, b.x, i, Steps(f, a, b)), Along(a.y, b.y, i, Steps(f, a, b)))
  }

  // It takes as few steps as keep every one of them below half a cell.
  lemma StepsAreFewest(f: Frame, a: Point, b: Point, n: int)
    requires Proper(f) && n >= 1
    ensures n >= Steps(f, a, b) <==> Abs(b.x - a.x) / f.cw < n as real / 2.0 && Abs(b.y - a.y) / f.ch < n as real / 2.0
  {
    var u, v := Abs(b.x - a.x) / f.cw, Abs(b.y - a.y) / f.ch;
    assert Steps(f, a, b) == (Max(u, v) * 2.0).Floor + 1;
    assert n >= (Max(u, v) * 2.0).Floor + 1 <==> n as real > Max(u, v) * 2.0;
  }

  // The stops lead from one end to the other, at equal distances.
  lemma StopsAreEven(f: Frame, a: Point, b: Point, i: int)
    requires Proper(f)
    ensures Stop(f, a, b, 0) == a && Stop(f, a, b, Steps(f, a, b)) == b
    ensures
      var n, p, q := Steps(f, a, b) as real, Stop(f, a, b, i), Stop(f, a, b, i + 1);
      n * (q.x - p.x) == b.x - a.x && n * (q.y - p.y) == b.y - a.y
  {
    EvenOnAxis(a.x, b.x, i, Steps(f, a, b));
    EvenOnAxis(a.y, b.y, i, Steps(f, a, b));
  }

  lemma EvenOnAxis(a: real, b: real, i: int, steps: int)
    requires steps >= 1
    ensures steps as real * (Along(a, b, i + 1, steps) - Along(a, b, i, steps)) == b - a
    ensures Along(a, b, 0, steps) == a && Along(a, b, steps, steps) == b
  {
    var n, d := steps as real, b - a;
    var t, t' := i as real / n, (i + 1) as real / n;
    assert n * t == i as real && n * t' == i as real + 1.0;
    assert n * (d * t' - d * t) == d * (n * t') - d * (n * t);
    assert 0.0 / n == 0.0 && n / n == 1.0;
  }

  // The cells the sampled points of a segment fall into, in order.
  function Trace(f: Frame, a: Point, b: Point): (cells: seq<Sample>)
    requires Proper(f)
    ensures |cells| == Steps(f, a, b) + 1
    ensures forall i :: 0 <= i < |cells| ==> cells[i] == f.CellOf(Stop(f, a, b, i))
  {
    seq(Steps(f, a, b) + 1, i requires 0 <= i <= Steps(f, a, b) => f.CellOf(Stop(f, a, b, i)))
  }

  // One sampling step moves less than half a cell along an axis, so at most one column or row.
  lemma HalfCellStep(lo: real, cell: real, a: real, b: real, i: int, steps: int)
    requires cell > 0.0 && steps >= 1 && Abs(b - a) / cell * 2.0 < steps as real
    ensures
      var u, v := (Along(a, b, i, steps) - lo) / cell, (Along(a, b, i + 1, steps) - lo) / cell;
      -0.5 < v - u < 0.5 && -1 <= Round(v) - Round(u) <= 1
  {
    var s, d := steps as real, b - a;
    var t, t' := i as real / s, (i + 1) as real / s;
    assert t' - t == 1.0 / s;
    var w := d * (1.0 / s);
    assert d * t' - d * t == w;
    SmallQuotient(d, cell, s, w);
    CellStep(Along(a, b, i, steps), Along(a, b, i + 1, steps), lo, cell, w);
  }

  lemma CellStep(p: real, q: real, lo: real, cell: real, w: real)
    requires cell > 0.0 && q - p == w && -0.5 < w / cell < 0.5
    ensures
      var u, v := (p - lo) / cell, (q - lo) / cell;
      -0.5 < v - u < 0.5 && -1 <= Round(v) - Round(u) <= 1
  {
    var u, v := (p - lo) / cell, (q - lo) / cell;
    assert u * cell == p - lo && v * cell == q - lo;
    assert (v - u) * cell == w;
    assert v - u == w / cell;
    RoundsClose(u, v);
  }

  lemma RoundsClose(u: real, v: real)
    requires -0.5 < v - u < 0.5
    ensures -1 <= Round(v) - Round(u) <= 1
  {
    assert -1.5 < Round(v) as real - Round(u) as real < 1.5;
    assert (Round(v) - Round(u)) as real == Round(v) as real - Round(u) as real;
  }

  lemma SmallQuotient(d: real, cell: real, s: real, w: real)
    requires cell > 0.0 && s > 0.0 && Abs(d) / cell * 2.0 < s && w == d * (1.0 / s)
    ensures -0.5 < w / cell < 0.5
  {
    var q := d / cell;
    assert d == q * cell;
    assert w / cell == q / s;
    assert Abs(d) / cell == Abs(q);
    assert q < s / 2.0 && -q < s / 2.0;
  }

  // Consecutive cells are the same or touch, at a side or a corner.
  ghost predicate Path8(cells: seq<Sample>) {
    forall i :: 0 <= i < |cells| - 1 ==> Near(cells[i], cells[i + 1])
  }

  // The trace is 8-connected from the cell of one end to the cell of the other.
  lemma TraceIsConnected(f: Frame, a: Point, b: Point)
    requires Proper(f)
    ensures Path8(Trace(f, a, b))
    ensures Trace(f, a, b)[0] == f.CellOf(a)
    ensures Trace(f, a, b)[Steps(f, a, b)] == f.CellOf(b)
  {
    var n := Steps(f, a, b);
    var cells := Trace(f, a, b);
    assert Stop(f, a, b, 0) == a;
    assert Stop(f, a, b, n) == b;
    forall i | 0 <= i < |cells| - 1
      ensures Near(cells[i], cells[i + 1])
    {
      HalfCellStep(f.minX, f.cw, a.x, b.x, i, n);
      HalfCellStep(f.minY, f.ch, a.y, b.y, i, n);
    }
  }

  // ----- corridors

  predicate ShareSide(p: Sample, q: Sample) {
    || (p.x == q.x && (p.y + 1 == q.y || q.y + 1 == p.y))
    || (p.y == q.y && (p.x + 1 == q.x || q.x + 1 == p.x))
  }

  // A walk inside s over sides only.
  ghost predicate Path4(s: set<Sample>, path: seq<Sample>) {
    && (forall i :: 0 <= i < |path| ==> path[i] in s)
    && (forall i :: 0 <= i < |path| - 1 ==> ShareSide(path[i], path[i + 1]))
  }

  ghost predicate Walkable(s: set<Sample>, p: Sample, q: Sample) {
    exists path :: |path| > 0 && path[0] == p && path[|path| - 1] == q && Path4(s, path)
  }

  lemma WalkableTrans(s: set<Sample>, p: Sample, q: Sample, r: Sample)
    requires Walkable(s, p, q) && Walkable(s, q, r)
    ensures Walkable(s, p, r)
  {
    var a :| |a| > 0 && a[0] == p && a[|a| - 1] == q && Path4(s, a);
    var b :| |b| > 0 && b[0] == q && b[|b| - 1] == r && Path4(s, b);
    var c := a + b[1..];
    assert Path4(s, c);
  }

  // Inside a 3x3 block of s one can walk between the centre and any sample of the block.
  lemma WalkInBlock(s: set<Sample>, c: Sample, q: Sample)
    requires Near(c, q) && forall o :: Near(c, o) ==> o in s
    ensures Walkable(s, c, q) && Walkable(s, q, c)
  {
    var corner := Sample(q.x, c.y);
    var there := (if corner == c then [c] else [c, corner]) + (if q == corner then [] else [q]);
    var back := (if q == corner then [] else [q]) + (if corner == c then [c] else [corner, c]);
    assert Path4(s, there) && there[0] == c && there[|there| - 1] == q;
    assert Path4(s, back) && back[0] == q && back[|back| - 1] == c;
  }

  lemma {:induction false} WalkAlongTrace(s: set<Sample>, cells: seq<Sample>, i: int, j: int)
    requires Path8(cells) && 0 <= i <= j < |cells|
    requires forall k, o :: 0 <= k < |cells| && Near(cells[k], o) ==> o in s
    ensures Walkable(s, cells[i], cells[j]) && Walkable(s, cells[j], cells[i])
    decreases j
  {
    if i == j {
      WalkInBlock(s, cells[i], cells[i]);
    } else {
      WalkAlongTrace(s, cells, i, j - 1);
      assert Near(cells[j - 1], cells[j - 1 + 1]);
      WalkInBlock(s, cells[j - 1], cells[j]);
      WalkableTrans(s, cells[i], cells[j - 1], cells[j]);
      WalkableTrans(s, cells[j], cells[j - 1], cells[i]);
    }
  }

  // Dilating a trace that keeps clear of the border yields a corridor that is connected over
  // sides: from any sample near the trace one can walk to any other without leaving it.
  lemma CorridorIsConnected(m: set<Sample>, nx: int, ny: int, cells: seq<Sample>, p: Sample, q: Sample)
    requires Path8(cells)
    requires forall k :: 0 <= k < |cells| ==> cells[k] in m && 1 <= cells[k].x < nx - 1 && 1 <= cells[k].y < ny - 1
    requires exists i :: 0 <= i < |cells| && Near(cells[i], p)
    requires exists j :: 0 <= j < |cells| && Near(cells[j], q)
    ensures Walkable(Dilated(m, nx, ny), p, q)
  {
    var s := Dilated(m, nx, ny);
    forall k, o | 0 <= k < |cells| && Near(cells[k], o)
      ensures o in s
    {
      assert cells[k] in m;
    }
    var i :| 0 <= i < |cells| && Near(cells[i], p);
    var j :| 0 <= j < |cells| && Near(cells[j], q);
    WalkInBlock(s, cells[i], p);
    WalkInBlock(s, cells[j], q);
    if i <= j {
      WalkAlongTrace(s, cells, i, j);
    } else {
      WalkAlongTrace(s, cells, j, i);
    }
    WalkableTrans(s, p, cells[i], cells[j]);
    WalkableTrans(s, p, cells[j], q);
  }

  lemma WalkableInMore(s: set<Sample>, t: set<Sample>, p: Sample, q: Sample)
    requires Walkable(s, p, q) && s <= t
    ensures Walkable(t, p, q)
  {
    var path :| |path| > 0 && path[0] == p && path[|path| - 1] == q && Path4(s, path);
    assert Path4(t, path);
  }

  // ----- contours

  // The marked samples of a 2x2 block.
  ghost function MarkedInBlock(m: set<Sample>, x: int, y: int): set<Sample> {
    {Sample(x, y), Sample(x + 1, y), Sample(x, y + 1), Sample(x + 1, y + 1)} * m
  }

  lemma BesideInBlock(m: set<Sample>, x: int, y: int, v: VKey)
    requires IsSide(x, y, v) && Crossing(m, v)
    ensures MarkedBeside(m, v) in MarkedInBlock(m, x, y)
  {
  }

  // The marked samples beside the two ends are the same, are neighbours, or have a marked sample of
  // the block between them.
  lemma NoGapInBlock(m: set<Sample>, x: int, y: int, s: Seg)
    requires s in CellSegs(m, x, y)
    ensures
      var p, q, b := MarkedBeside(m, s.a), MarkedBeside(m, s.b), MarkedInBlock(m, x, y);
      p == q || ShareSide(p, q) || Sample(p.x, q.y) in b || Sample(q.x, p.y) in b
  {
    SegsJoinSides(m, x, y, s);
  }

  lemma WalkByCorner(b: set<Sample>, p: Sample, q: Sample)
    requires p in b && q in b && -1 <= p.x - q.x <= 1 && -1 <= p.y - q.y <= 1
    requires p == q || ShareSide(p, q) || Sample(p.x, q.y) in b || Sample(q.x, p.y) in b
    ensures Walkable(b, p, q)
  {
    var corner := if Sample(p.x, q.y) in b then Sample(p.x, q.y) else Sample(q.x, p.y);
    if p == q {
      assert Path4(b, [p]);
    } else if ShareSide(p, q) {
      assert Path4(b, [p, q]);
    } else {
      assert Path4(b, [p, corner, q]);
    }
  }

  // A segment runs along one piece: from the marked sample beside one end to the marked sample beside
  // the other one can walk over sides, over marked samples of the block only. In a saddle that keeps
  // the two marked samples apart.
  lemma SegBordersOnePiece(m: set<Sample>, x: int, y: int, s: Seg)
    requires s in CellSegs(m, x, y)
    ensures Walkable(MarkedInBlock(m, x, y), MarkedBeside(m, s.a), MarkedBeside(m, s.b))
    ensures Walkable(MarkedInBlock(m, x, y), MarkedBeside(m, s.b), MarkedBeside(m, s.a))
  {
    hide CellSegs, Crossing, IsSide, MarkedBeside, Walkable;
    SegsJoinSides(m, x, y, s);
    BesideInBlock(m, x, y, s.a);
    BesideInBlock(m, x, y, s.b);
    NoGapInBlock(m, x, y, s);
    WalkByCorner(MarkedInBlock(m, x, y), MarkedBeside(m, s.a), MarkedBeside(m, s.b));
    WalkByCorner(MarkedInBlock(m, x, y), MarkedBeside(m, s.b), MarkedBeside(m, s.a));
  }

  // All points of the ring lie beside marked samples of one piece.
  ghost predicate AroundOnePiece(m: set<Sample>, ring: seq<VKey>) {
    forall p, q :: 0 <= p < |ring| && 0 <= q < |ring| ==>
      Walkable(m, MarkedBeside(m, ring[p]), MarkedBeside(m, ring[q]))
  }

  // Each stretch of the ring is a segment of the field.
  ghost predicate AlongSegs(segs: seq<Seg>, ring: seq<VKey>) {
    forall p :: 0 <= p < |ring| - 1 ==> AlongSeg(segs, ring, p)
  }

  ghost predicate AlongSeg(segs: seq<Seg>, ring: seq<VKey>, p: int)
    requires 0 <= p < |ring| - 1
  {
    exists i :: 0 <= i < |segs| && Joins(segs[i], ring[p], ring[p + 1])
  }

  lemma {:induction false} RingsAlongSegs(segs: seq<Seg>, rings: seq<seq<VKey>>, order: seq<int>, k: int)
    requires RunsThrough(segs, AllEdges(rings), order) && 0 <= k < |rings|
    ensures AlongSegs(segs, rings[k])
    decreases |rings|
  {
    var front, last := rings[..|rings| - 1], rings[|rings| - 1];
    SplitRun(segs, AllEdges(front), RingEdges(last), order);
    var n := |AllEdges(front)|;
    if k < |rings| - 1 {
      RingsAlongSegs(segs, front, order[..n], k);
    } else {
      RingAlongSegs(segs, last, order[n..]);
    }
  }

  lemma SplitRun(segs: seq<Seg>, front: seq<(VKey, VKey)>, back: seq<(VKey, VKey)>, order: seq<int>)
    requires RunsThrough(segs, front + back, order)
    ensures RunsThrough(segs, front, order[..|front|]) && RunsThrough(segs, back, order[|front|..])
  {
    hide Joins;
    var n := |front|;
    forall q | 0 <= q < |back|
      ensures 0 <= order[n..][q] < |segs| && Joins(segs[order[n..][q]], back[q].0, back[q].1)
    {
      assert (front + back)[n + q] == back[q];
    }
    forall q | 0 <= q < n
      ensures 0 <= order[q] < |segs| && Joins(segs[order[q]], front[q].0, front[q].1)
    {
      assert (front + back)[q] == front[q];
    }
  }

  lemma RingAlongSegs(segs: seq<Seg>, ring: seq<VKey>, order: seq<int>)
    requires RunsThrough(segs, RingEdges(ring), order)
    ensures AlongSegs(segs, ring)
  {
    hide Joins;
    forall p | 0 <= p < |ring| - 1
      ensures AlongSeg(segs, ring, p)
    {
      assert RingEdges(ring)[p] == (ring[p], ring[p + 1]);
      assert Joins(segs[order[p]], ring[p], ring[p + 1]);
    }
  }

  lemma StretchStaysAtPiece(m: set<Sample>, segs: seq<Seg>, cells: seq<Sample>, ring: seq<VKey>, p: int)
    requires Field(m, segs, cells) && AlongSegs(segs, ring) && 0 <= p < |ring| - 1
    ensures Walkable(m, MarkedBeside(m, ring[p]), MarkedBeside(m, ring[p + 1]))
    ensures Walkable(m, MarkedBeside(m, ring[p + 1]), MarkedBeside(m, ring[p]))
  {
    hide Walkable, MarkedBeside;
    assert AlongSeg(segs, ring, p);
    var i :| 0 <= i < |segs| && Joins(segs[i], ring[p], ring[p + 1]);
    var c, s := cells[i], segs[i];
    assert (s.a == ring[p] && s.b == ring[p + 1]) || (s.a == ring[p + 1] && s.b == ring[p]);
    assert s in CellSegs(m, c.x, c.y);
    SegBordersOnePiece(m, c.x, c.y, s);
    WalkableInMore(MarkedInBlock(m, c.x, c.y), m, MarkedBeside(m, s.a), MarkedBeside(m, s.b));
    WalkableInMore(MarkedInBlock(m, c.x, c.y), m, MarkedBeside(m, s.b), MarkedBeside(m, s.a));
  }

  lemma {:induction false} StretchesStayAtPiece(m: set<Sample>, segs: seq<Seg>, cells: seq<Sample>, ring: seq<VKey>,
                                                p: int, q: int)
    requires Field(m, segs, cells) && AlongSegs(segs, ring) && 0 <= p <= q < |ring| && |ring| > 1
    ensures Walkable(m, MarkedBeside(m, ring[p]), MarkedBeside(m, ring[q]))
    ensures Walkable(m, MarkedBeside(m, ring[q]), MarkedBeside(m, ring[p]))
    decreases q - p
  {
    hide Walkable, MarkedBeside, Field, AlongSegs;
    if p == q {
      var r := if p > 0 then p - 1 else 0;
      StretchStaysAtPiece(m, segs, cells, ring, r);
      WalkableTrans(m, MarkedBeside(m, ring[r]), MarkedBeside(m, ring[r + 1]), MarkedBeside(m, ring[r]));
      WalkableTrans(m, MarkedBeside(m, ring[r + 1]), MarkedBeside(m, ring[r]), MarkedBeside(m, ring[r + 1]));
    } else {
      StretchesStayAtPiece(m, segs, cells, ring, p, q - 1);
      StretchStaysAtPiece(m, segs, cells, ring, q - 1);
      WalkableTrans(m, MarkedBeside(m, ring[p]), MarkedBeside(m, ring[q - 1]), MarkedBeside(m, ring[q]));
      WalkableTrans(m, MarkedBeside(m, ring[q]), MarkedBeside(m, ring[q - 1]), MarkedBeside(m, ring[p]));
    }
  }

  // Every ring runs around one side-connected piece of the raster, from outside or along a hole:
  // pieces that only touch at a corner have no ring in common.
  lemma RingIsAroundOnePiece(m: set<Sample>, segs: seq<Seg>, cells: seq<Sample>, rings: seq<seq<VKey>>,
                             order: seq<int>, k: int)
    requires Field(m, segs, cells) && RunsThrough(segs, AllEdges(rings), order) && AllClosed(rings) && 0 <= k < |rings|
    ensures AroundOnePiece(m, rings[k])
  {
    hide Walkable, MarkedBeside, Field, AlongSegs, RunsThrough, AllEdges;
    RingsAlongSegs(segs, rings, order, k);
    assert ClosedRing(rings[k]);
    forall p, q | 0 <= p < |rings[k]| && 0 <= q < |rings[k]|
      ensures Walkable(m, MarkedBeside(m, rings[k][p]), MarkedBeside(m, rings[k][q]))
    {
      StretchesStayAtPiece(m, segs, cells, rings[k], if p <= q then p else q, if p <= q then q else p);
    }
  }

  ghost function Colours(cells: seq<Sample>): (colour: seq<bool>)
    ensures |colour| == |cells| && forall i :: 0 <= i < |cells| ==> colour[i] == Dark(cells[i])
  {
    seq(|cells|, i requires 0 <= i < |cells| => Dark(cells[i]))
  }

  // What the scan draws is a field that chain can close, whatever the raster holds.
  lemma ScanIsClosedField(m: set<Sample>, nx: int, ny: int, segs: seq<Seg>, cells: seq<Sample>)
    requires InBox(m, nx, ny) && Field(m, segs, cells) && Complete(m, nx, ny, segs, cells)
    ensures ClosedField(segs, Colours(cells))
  {
    forall i | 0 <= i < |segs|
      ensures segs[i].a != segs[i].b
    {
      SegsJoinSides(m, cells[i].x, cells[i].y, segs[i]);
    }
    forall i, j | 0 <= i < |segs| && 0 <= j < |segs| && i != j
      ensures !Joins(segs[i], segs[j].a, segs[j].b)
    {
      NoDoubleSegs(m, segs, cells, i, j);
    }
    forall i, v | 0 <= i < |segs| && Ends(segs[i], v)
      ensures exists j :: OnlyOther(segs, i, v, j)
    {
      var j := DegreeIsTwo(m, nx, ny, segs, cells, i, v);
    }
    forall i, j, v | 0 <= i < |segs| && 0 <= j < |segs| && i != j && Ends(segs[i], v) && Ends(segs[j], v)
      ensures Colours(cells)[i] != Colours(cells)[j]
    {
      MeetingSegs(m, segs, cells, i, j, v);
    }
  }

  // How many contour points lie on row y strictly to the left of column x. The leftmost column
  // a point can belong to is the virtual border at -1.
  ghost function PointsLeft(rings: seq<seq<VKey>>, x: int, y: int): nat
    decreases x + 1
  {
    if x <= -1 then 0
    else PointsLeft(rings, x - 1, y) + (if OnRing(rings, VKey(2 * x - 1, 2 * y)) then 1 else 0)
  }

  // The even-odd rule gives the raster back: a sample is marked exactly when an odd number of
  // contour points lie to its left.
  lemma {:induction false} RasterFromRings(m: set<Sample>, nx: int, ny: int, rings: seq<seq<VKey>>, x: int, y: int)
    requires InBox(m, nx, ny) && forall v :: OnRing(rings, v) <==> Crossing(m, v)
    ensures Sample(x, y) in m <==> PointsLeft(rings, x, y) % 2 == 1
    decreases x + 1
  {
    if x >= 0 {
      RasterFromRings(m, nx, ny, rings, x - 1, y);
      var v := VKey(2 * x - 1, 2 * y);
      assert v.x / 2 == x - 1 && v.y / 2 == y;
      assert Crossing(m, v) <==> ((Sample(x - 1, y) in m) != (Sample(x, y) in m));
    }
  }

  // ----- the class

  ghost function Clipped(cells: seq<Sample>, nx: int, ny: int): set<Sample> {
    set p | p in cells && Inside(p, nx, ny)
  }

  class Grid {
    const nx: nat
    const ny: nat
    const frame: Frame
    var v: array<bool>

    ghost predicate Valid()
      reads this
    {
      v.Length == nx * ny && Proper(frame)
    }

    ghost function Marked(): (m: set<Sample>)
      requires Valid()
      reads this, v
      ensures InBox(m, nx, ny)
    {
      Marks(v, nx, ny)
    }

    constructor (nx: nat, ny: nat, frame: Frame)
      requires Proper(frame)
      ensures Valid() && fresh(v) && Marked() == {}
      ensures this.nx == nx && this.ny == ny && this.frame == frame
    {
      this.nx, this.ny, this.frame := nx, ny, frame;
      v := new bool[nx * ny](_ => false);
    }

    // at() answers false outside the raster.
    predicate At(x: int, y: int)
      requires Valid()
      reads this, v
      ensures At(x, y) <==> Sample(x, y) in Marked()
    {
      if x < 0 || y < 0 || x >= nx || y >= ny then false else v[Index(nx, ny, x, y)]
    }

    method Set(x: int, y: int)
      requires Valid()
      modifies v
      ensures Marked() == old(Marked()) + Clip(Sample(x, y), nx, ny)
    {
      SetClipped(v, nx, ny, x, y);
    }

    method MarkPoint(p: Point)
      requires Valid()
      modifies v
      ensures Marked() == old(Marked()) + Clip(frame.CellOf(p), nx, ny)
    {
      Set(Round(frame.ColumnOf(p.x)), Round(frame.RowOf(p.y)));
    }

    // Marks exactly the cells of the segment's trace, those outside the raster left out.
    method MarkSegment(a: Point, b: Point)
      requires Valid()
      modifies v
      ensures Marked() == old(Marked()) + Clipped(Trace(frame, a, b), nx, ny)
    {
      var steps := Steps(frame, a, b);
      ghost var before, cells := Marked(), Trace(frame, a, b);
      for i := 0 to steps + 1
        invariant Marked() == before + Clipped(cells[..i], nx, ny)
      {
        MarkPoint(Stop(frame, a, b, i));
        ClipNext(before, cells, i, nx, ny);
      }
      assert cells[..steps + 1] == cells;
    }

    // dilate() replaces the buffer by a dilated copy.
    method DilateMarks()
      requires Valid()
      modifies this
      ensures Valid() && fresh(v) && Marked() == Dilated(old(Marked()), nx, ny)
    {
      v := Dilate(v, nx, ny);
    }

    // The scan over all 2x2 blocks, the virtual border included.
    method Scan() returns (segs: seq<Seg>, ghost cells: seq<Sample>)
      requires Valid()
      ensures Field(Marked(), segs, cells) && Complete(Marked(), nx, ny, segs, cells)
      ensures forall v :: (exists i :: 0 <= i < |segs| && Ends(segs[i], v)) <==> Crossing(Marked(), v)
    {
      segs, cells := [], [];
      ghost var m := Marked();
      for y := -1 to ny
        invariant ScannedTo(m, nx, ny, segs, cells, -1, y)
      {
        for x := -1 to nx
          invariant ScannedTo(m, nx, ny, segs, cells, x, y)
        {
          ScanBlock(m, nx, ny, segs, cells, x, y);
          var code := Code(At(x, y), At(x + 1, y), At(x + 1, y + 1), At(x, y + 1));
          var more := SegsOfCode(code, x, y);
          segs := segs + more;
          cells := cells + Here(x, y, |more|);
        }
        NextRow(m, nx, ny, segs, cells, y);
      }
      ScanDone(m, nx, ny, segs, cells);
      forall v
        ensures (exists i :: 0 <= i < |segs| && Ends(segs[i], v)) <==> Crossing(m, v)
      {
        SegsEndAtCrossings(m, nx, ny, segs, cells, v);
      }
    }

    // contours(), up to the affine change of coordinates: for every raster the rings are closed,
    // have at least five points, share no point, and run through every segment exactly once; their
    // points are exactly the midpoints between a marked and an unmarked sample.
    method Contours()
        returns (rings: seq<seq<VKey>>, ghost segs: seq<Seg>, ghost cells: seq<Sample>, ghost order: seq<int>)
      requires Valid()
      ensures AllClosed(rings) && Apart(rings)
      ensures Field(Marked(), segs, cells) && Complete(Marked(), nx, ny, segs, cells)
      ensures RunsThrough(segs, AllEdges(rings), order) && forall i :: 0 <= i < |segs| ==> i in order
      ensures forall p :: OnRing(rings, p) <==> Crossing(Marked(), p)
      ensures forall k :: 0 <= k < |rings| ==> AroundOnePiece(Marked(), rings[k])
    {
      hide AroundOnePiece;
      var drawn;
      drawn, cells := Scan();
      segs := drawn;
      ScanIsClosedField(Marked(), nx, ny, drawn, cells);
      rings, order := Chain(drawn, Colours(cells));
      forall p
        ensures OnRing(rings, p) <==> Crossing(Marked(), p)
      {
        SegsEndAtCrossings(Marked(), nx, ny, drawn, cells, p);
      }
      forall k | 0 <= k < |rings|
        ensures AroundOnePiece(Marked(), rings[k])
      {
        RingIsAroundOnePiece(Marked(), drawn, cells, rings, order, k);
      }
    }
  }

  // Pieces that one cannot walk between over sides have no ring in common.
  lemma PiecesGetTheirRings(m: set<Sample>, rings: seq<seq<VKey>>, k: int, l: int, v: VKey, w: VKey)
    requires 0 <= k < |rings| && AroundOnePiece(m, rings[k]) && v in rings[k]
    requires 0 <= l < |rings| && w in rings[l] && !Walkable(m, MarkedBeside(m, v), MarkedBeside(m, w))
    ensures k != l
  {
    hide Walkable, MarkedBeside;
  }

  // So two marked samples that touch at a corner get two rings.
  lemma CornersGetTwoRings(rings: seq<seq<VKey>>, k: int, l: int, v: VKey, w: VKey)
    requires
      var m := {Sample(0, 0), Sample(1, 1)};
      && 0 <= k < |rings| && AroundOnePiece(m, rings[k]) && v in rings[k] && MarkedBeside(m, v) == Sample(0, 0)
      && 0 <= l < |rings| && w in rings[l] && MarkedBeside(m, w) == Sample(1, 1)
    ensures k != l
  {
    hide Walkable, MarkedBeside, AroundOnePiece;
    CornersAreTwoPieces();
    PiecesGetTheirRings({Sample(0, 0), Sample(1, 1)}, rings, k, l, v, w);
  }

  lemma CornersAreTwoPieces()
    ensures !Walkable({Sample(0, 0), Sample(1, 1)}, Sample(0, 0), Sample(1, 1))
  {
    var m := {Sample(0, 0), Sample(1, 1)};
    if Walkable(m, Sample(0, 0), Sample(1, 1)) {
      var path :| |path| > 0 && path[0] == Sample(0, 0) && path[|path| - 1] == Sample(1, 1) && Path4(m, path);
      StaysAtCorner(path, |path| - 1);
    }
  }

  lemma {:induction false} StaysAtCorner(path: seq<Sample>, i: int)
    requires Path4({Sample(0, 0), Sample(1, 1)}, path) && 0 <= i < |path| && path[0] == Sample(0, 0)
    ensures path[i] == Sample(0, 0)
    decreases i
  {
    if i > 0 {
      StaysAtCorner(path, i - 1);
      assert ShareSide(path[i - 1], path[i - 1 + 1]);
    }
  }

  lemma ClipNext(before: set<Sample>, cells: seq<Sample>, i: int, nx: int, ny: int)
    requires 0 <= i < |cells|
    ensures before + Clipped(cells[..i + 1], nx, ny) == before + Clipped(cells[..i], nx, ny) + Clip(cells[i], nx, ny)
  {
    assert cells[..i + 1] == cells[..i] + [cells[i]];
  }
}
