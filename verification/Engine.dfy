/** The in-memory feature index: buildGrid, cellOf and query in
    internal/source/memengine/memengine.go. */
module Engine {
  import opened Numbers

  const GRID_DIM := 64

  datatype Bound = Bound(min: Point, max: Point)

  predicate WellFormed(b: Bound) {
    b.min.x <= b.max.x && b.min.y <= b.max.y
  }

  // orb.Bound.Intersects: touching counts.
  predicate Intersects(a: Bound, b: Bound) {
    !(a.max.x < b.min.x || a.min.x > b.max.x || a.max.y < b.min.y || a.min.y > b.max.y)
  }

  predicate Contains(b: Bound, p: Point) {
    b.min.x <= p.x <= b.max.x && b.min.y <= p.y <= b.max.y
  }

  // Boxes intersect exactly when they have a point in common.
  lemma IntersectsIff(a: Bound, b: Bound)
    requires WellFormed(a) && WellFormed(b)
    ensures Intersects(a, b) <==> exists p :: Contains(a, p) && Contains(b, p)
  {
    if Intersects(a, b) {
      var p := Point(Max(a.min.x, b.min.x), Max(a.min.y, b.min.y));
      assert Contains(a, p) && Contains(b, p);
    }
  }

  // What orb gives for a geometry without coordinates.
  const EMPTY_BOUND := Bound(Point(1.0, 1.0), Point(-1.0, -1.0))

  predicate OfGeometry(b: Bound) {
    WellFormed(b) || b == EMPTY_BOUND
  }

  // orb.Bound.Union: an empty second operand changes nothing, an empty first one is extended.
  function Union(a: Bound, b: Bound): Bound {
    if !WellFormed(b) then a
    else Bound(Point(Min(a.min.x, b.min.x), Min(a.min.y, b.min.y)), Point(Max(a.max.x, b.max.x), Max(a.max.y, b.max.y)))
  }

  // So the union holds both, and the corners of an empty first operand as well.
  lemma UnionHolds(a: Bound, b: Bound)
    ensures if WellFormed(b) then Within(a, Union(a, b)) && Within(b, Union(a, b)) else Union(a, b) == a
  {
  }

  // ----- cells

  const TWO_63 := 0x8000_0000_0000_0000

  // float64 to int as amd64 converts: towards zero, and the least int64 for what is out of range.
  function ToInt(r: real): int {
    var t := if r >= 0.0 then r.Floor else -(-r).Floor;
    if -TWO_63 <= t < TWO_63 then t else -TWO_63
  }

  function Clamp(v: int, lo: int, hi: int): int {
    if v < lo then lo else if v > hi then hi else v
  }

  function Scaled(v: real, lo: real, hi: real): real
    requires hi > lo
  {
    (v - lo) / (hi - lo) * GRID_DIM as real
  }

  // The column or row of a coordinate.
  function AxisCell(v: real, lo: real, hi: real): (c: int)
    ensures 0 <= c < GRID_DIM
  {
    Clamp(if hi - lo > 0.0 then ToInt(Scaled(v, lo, hi)) else 0, 0, GRID_DIM - 1)
  }

  datatype Range = Range(x0: int, x1: int, y0: int, y1: int)

  // The cells from that of the least corner to that of the greatest.
  function CellsOf(extent: Bound, b: Bound): Range {
    Range(AxisCell(b.min.x, extent.min.x, extent.max.x), AxisCell(b.max.x, extent.min.x, extent.max.x),
          AxisCell(b.min.y, extent.min.y, extent.max.y), AxisCell(b.max.y, extent.min.y, extent.max.y))
  }

  predicate Covers(r: Range, x: int, y: int) {
    r.x0 <= x <= r.x1 && r.y0 <= y <= r.y1
  }

  predicate Overlap(a0: int, a1: int, b0: int, b1: int) {
    a0 <= a1 && b0 <= b1 && a0 <= b1 && b0 <= a1
  }

  predicate Meet(a: Range, b: Range) {
    Overlap(a.x0, a.x1, b.x0, b.x1) && Overlap(a.y0, a.y1, b.y0, b.y1)
  }

  // ----- the result of a query

  predicate Ascending(s: seq<int>) {
    forall i, j :: 0 <= i < j < |s| ==> s[i] < s[j]
  }

  // What the linear filter answers.
  ghost function Filter(bounds: seq<Bound>, b: Bound): seq<int> {
    if bounds == [] then []
    else
      var n := |bounds| - 1;
      Filter(bounds[..n], b) + (if Intersects(bounds[n], b) then [n] else [])
  }

  lemma {:induction false} FilterIs(bounds: seq<Bound>, b: Bound)
    ensures Ascending(Filter(bounds, b))
    ensures forall i :: i in Filter(bounds, b) <==> 0 <= i < |bounds| && Intersects(bounds[i], b)
  {
    if bounds != [] {
      var n := |bounds| - 1;
      FilterIs(bounds[..n], b);
      var front := Filter(bounds[..n], b);
      forall i | 0 <= i < |front|
        ensures front[i] < n
      {
        assert front[i] in front;
      }
    }
  }

  predicate AllIn(a: seq<int>, b: seq<int>) {
    forall k :: 0 <= k < |a| ==> a[k] in b
  }

  lemma {:induction false} SameAscending(a: seq<int>, b: seq<int>)
    requires Ascending(a) && Ascending(b) && AllIn(a, b) && AllIn(b, a)
    ensures a == b
    decreases |a|
  {
    if a != [] {
      NotEmpty(a, b);
    }
    if b != [] {
      NotEmpty(b, a);
    }
    if a != [] && b != [] {
      var m, n := |a| - 1, |b| - 1;
      assert a[m] in b && b[n] in a;
      assert a[m] == b[n];
      AllButLast(a, b);
      AllButLast(b, a);
      SameAscending(a[..m], b[..n]);
      assert a == a[..m] + [a[m]] && b == b[..n] + [b[n]];
    }
  }

  lemma SameMembers(a: seq<int>, b: seq<int>)
    requires Ascending(a) && Ascending(b) && forall i :: i in a <==> i in b
    ensures a == b
  {
    assert forall k :: 0 <= k < |a| ==> a[k] in a;
    assert forall k :: 0 <= k < |b| ==> b[k] in b;
    SameAscending(a, b);
  }

  lemma NotEmpty(a: seq<int>, b: seq<int>)
    requires AllIn(a, b) && a != []
    ensures b != []
  {
    assert a[0] in b;
  }

  lemma AllButLast(a: seq<int>, b: seq<int>)
    requires Ascending(a) && Ascending(b) && AllIn(a, b) && a != [] && b != [] && a[|a| - 1] == b[|b| - 1]
    ensures AllIn(a[..|a| - 1], b[..|b| - 1])
  {
    forall k | 0 <= k < |a| - 1
      ensures a[k] in b[..|b| - 1]
    {
      assert a[k] in b;
      var j :| 0 <= j < |b| && b[j] == a[k];
      assert b[..|b| - 1][j] == a[k];
    }
  }

  // ----- when the grid finds everything

  lemma FloorOrder(a: real, b: real)
    requires a <= b
    ensures a.Floor <= b.Floor
  {
  }

  lemma ScaledOrder(a: real, b: real, lo: real, hi: real)
    requires a <= b && hi > lo
    ensures Scaled(a, lo, hi) <= Scaled(b, lo, hi)
  {
    var w := hi - lo;
    var p, q := (a - lo) / w, (b - lo) / w;
    assert p * w == a - lo && q * w == b - lo;
    if p > q {
      GrowsWith(p, q, w);
    }
  }

  lemma GrowsWith(p: real, q: real, w: real)
    requires p > q && w > 0.0
    ensures p * w > q * w
  {
  }

  // The scaled coordinate is below 2^63, so that the conversion to int is exact.
  predicate AxisFits(v: real, lo: real, hi: real) {
    hi > lo ==> Scaled(v, lo, hi) < TWO_63 as real
  }

  lemma AxisOrder(a: real, b: real, lo: real, hi: real)
    requires a <= b && AxisFits(b, lo, hi)
    ensures AxisCell(a, lo, hi) <= AxisCell(b, lo, hi)
  {
    if hi > lo {
      ScaledOrder(a, b, lo, hi);
      var p, q := Scaled(a, lo, hi), Scaled(b, lo, hi);
      IntOrder(p, q);
    }
  }

  lemma IntOrder(p: real, q: real)
    requires p <= q < TWO_63 as real
    ensures Clamp(ToInt(p), 0, GRID_DIM - 1) <= Clamp(ToInt(q), 0, GRID_DIM - 1)
  {
    if p >= 0.0 {
      FloorOrder(p, q);
    } else {
      FloorOrder(0.0, -p);
    }
  }

  lemma RatioOne(w: real)
    requires w > 0.0
    ensures w / w == 1.0
  {
  }

  lemma ScaledFarSide(lo: real, hi: real)
    requires hi > lo
    ensures Scaled(hi, lo, hi) == GRID_DIM as real
  {
    RatioOne(hi - lo);
  }

  lemma InsideFits(v: real, lo: real, hi: real)
    requires v <= hi
    ensures AxisFits(v, lo, hi)
  {
    if hi > lo {
      ScaledOrder(v, hi, lo, hi);
      ScaledFarSide(lo, hi);
    }
  }

  // Intervals that meet have cells in common.
  lemma AxisMeets(a0: real, a1: real, b0: real, b1: real, lo: real, hi: real)
    requires a0 <= a1 <= hi && b0 <= b1 && a0 <= b1 && b0 <= a1 && AxisFits(b1, lo, hi)
    ensures Overlap(AxisCell(a0, lo, hi), AxisCell(a1, lo, hi), AxisCell(b0, lo, hi), AxisCell(b1, lo, hi))
  {
    hide AxisCell, AxisFits;
    InsideFits(a1, lo, hi);
    AxisOrder(a0, a1, lo, hi);
    AxisOrder(b0, b1, lo, hi);
    AxisOrder(a0, b1, lo, hi);
    AxisOrder(b0, a1, lo, hi);
  }

  predicate Fits(extent: Bound, b: Bound) {
    AxisFits(b.max.x, extent.min.x, extent.max.x) && AxisFits(b.max.y, extent.min.y, extent.max.y)
  }

  predicate Within(a: Bound, extent: Bound) {
    extent.min.x <= a.min.x && a.max.x <= extent.max.x && extent.min.y <= a.min.y && a.max.y <= extent.max.y
  }

  lemma GridFinds(extent: Bound, a: Bound, b: Bound)
    requires WellFormed(a) && Within(a, extent) && WellFormed(b) && Fits(extent, b) && Intersects(a, b)
    ensures Meet(CellsOf(extent, a), CellsOf(extent, b))
  {
    hide AxisCell, AxisFits;
    AxisMeets(a.min.x, a.max.x, b.min.x, b.max.x, extent.min.x, extent.max.x);
    AxisMeets(a.min.y, a.max.y, b.min.y, b.max.y, extent.min.y, extent.max.y);
  }

  // ----- the class

  // The union of the bounds, as New builds it up.
  function ExtentOf(bounds: seq<Bound>): Bound
    requires |bounds| > 0
  {
    if |bounds| == 1 then bounds[0] else Union(ExtentOf(bounds[..|bounds| - 1]), bounds[|bounds| - 1])
  }

  lemma {:induction false} ExtentHolds(bounds: seq<Bound>)
    requires |bounds| > 0
    ensures forall i :: 0 <= i < |bounds| && WellFormed(bounds[i]) ==> Within(bounds[i], ExtentOf(bounds))
  {
    if |bounds| > 1 {
      var n := |bounds| - 1;
      ExtentHolds(bounds[..n]);
      forall i | 0 <= i < n && WellFormed(bounds[i])
        ensures Within(bounds[i], ExtentOf(bounds))
      {
        assert Within(bounds[..n][i], ExtentOf(bounds[..n]));
      }
    }
  }

  // No smaller box holds them, unless there is an empty one among them.
  lemma {:induction false} ExtentIsLeast(bounds: seq<Bound>, b: Bound)
    requires |bounds| > 0 && forall i :: 0 <= i < |bounds| ==> WellFormed(bounds[i]) && Within(bounds[i], b)
    ensures WellFormed(ExtentOf(bounds)) && Within(ExtentOf(bounds), b)
    decreases |bounds|
  {
    if |bounds| > 1 {
      ExtentIsLeast(bounds[..|bounds| - 1], b);
    }
  }

  function Slot(x: int, y: int): (c: int)
    requires 0 <= x < GRID_DIM && 0 <= y < GRID_DIM
    ensures 0 <= c < GRID_DIM * GRID_DIM
  {
    y * GRID_DIM + x
  }

  // The grid lists the first n features in the cells they cover.
  ghost predicate Filed(grid: seq<seq<int>>, extent: Bound, bounds: seq<Bound>, n: int) {
    && |grid| == GRID_DIM * GRID_DIM && 0 <= n <= |bounds|
    && forall x, y :: 0 <= x < GRID_DIM && 0 <= y < GRID_DIM ==> CellLists(grid[Slot(x, y)], extent, bounds, n, x, y)
  }

  ghost predicate CellLists(list: seq<int>, extent: Bound, bounds: seq<Bound>, n: int, x: int, y: int)
    requires n <= |bounds|
  {
    forall i :: i in list <==> 0 <= i < n && Covers(CellsOf(extent, bounds[i]), x, y)
  }

  // Where the double loop stands: the rows before y are done, and of row y the columns before x.
  predicate Done(r: Range, x: int, y: int, cx: int, cy: int) {
    Covers(r, cx, cy) && (cy < y || (cy == y && cx < x))
  }

  // The same while feature n is being entered.
  ghost predicate Filing(grid: seq<seq<int>>, extent: Bound, bounds: seq<Bound>, n: int, x: int, y: int) {
    && |grid| == GRID_DIM * GRID_DIM && 0 <= n < |bounds|
    && forall cx, cy :: 0 <= cx < GRID_DIM && 0 <= cy < GRID_DIM ==>
         CellFiling(grid[Slot(cx, cy)], extent, bounds, n, Done(CellsOf(extent, bounds[n]), x, y, cx, cy), cx, cy)
  }

  ghost predicate CellFiling(list: seq<int>, extent: Bound, bounds: seq<Bound>, n: int, done: bool, x: int, y: int)
    requires n < |bounds|
  {
    forall i :: i in list <==> (0 <= i < n && Covers(CellsOf(extent, bounds[i]), x, y)) || (i == n && done)
  }

  lemma SlotInjective(x: int, y: int, x': int, y': int)
    requires 0 <= x < GRID_DIM && 0 <= y < GRID_DIM && 0 <= x' < GRID_DIM && 0 <= y' < GRID_DIM
    requires Slot(x, y) == Slot(x', y')
    ensures x == x' && y == y'
  {
  }

  lemma FilingStart(grid: seq<seq<int>>, extent: Bound, bounds: seq<Bound>, n: int)
    requires Filed(grid, extent, bounds, n) && n < |bounds|
    ensures Filing(grid, extent, bounds, n, CellsOf(extent, bounds[n]).x0, CellsOf(extent, bounds[n]).y0)
  {
    hide CellsOf, Slot;
    forall cx, cy | 0 <= cx < GRID_DIM && 0 <= cy < GRID_DIM
      ensures CellFiling(grid[Slot(cx, cy)], extent, bounds, n,
                         Done(CellsOf(extent, bounds[n]),
                              CellsOf(extent, bounds[n]).x0, CellsOf(extent, bounds[n]).y0, cx, cy),
                         cx, cy)
    {
      assert CellLists(grid[Slot(cx, cy)], extent, bounds, n, cx, cy);
    }
  }

  lemma FilingNext(grid: seq<seq<int>>, extent: Bound, bounds: seq<Bound>, n: int, x: int, y: int)
    requires Filing(grid, extent, bounds, n, x, y) && 0 <= x < GRID_DIM && 0 <= y < GRID_DIM
    requires Covers(CellsOf(extent, bounds[n]), x, y)
    ensures Filing(grid[Slot(x, y) := grid[Slot(x, y)] + [n]], extent, bounds, n, x + 1, y)
  {
    hide CellsOf, Slot;
    var r, c := CellsOf(extent, bounds[n]), Slot(x, y);
    var after := grid[c := grid[c] + [n]];
    forall cx, cy | 0 <= cx < GRID_DIM && 0 <= cy < GRID_DIM
      ensures CellFiling(after[Slot(cx, cy)], extent, bounds, n, Done(r, x + 1, y, cx, cy), cx, cy)
    {
      assert CellFiling(grid[Slot(cx, cy)], extent, bounds, n, Done(r, x, y, cx, cy), cx, cy);
      if Slot(cx, cy) == c {
        SlotInjective(cx, cy, x, y);
      }
    }
  }

  lemma FilingRow(grid: seq<seq<int>>, extent: Bound, bounds: seq<Bound>, n: int, y: int)
    requires 0 <= n < |bounds| && Filing(grid, extent, bounds, n, CellsOf(extent, bounds[n]).x1 + 1, y)
    ensures Filing(grid, extent, bounds, n, CellsOf(extent, bounds[n]).x0, y + 1)
  {
    hide CellsOf, Slot, CellFiling;
    var r := CellsOf(extent, bounds[n]);
    forall cx, cy | 0 <= cx < GRID_DIM && 0 <= cy < GRID_DIM
      ensures CellFiling(grid[Slot(cx, cy)], extent, bounds, n, Done(r, r.x0, y + 1, cx, cy), cx, cy)
    {
      assert Done(r, r.x0, y + 1, cx, cy) == Done(r, r.x1 + 1, y, cx, cy);
    }
  }

  lemma FilingDone(grid: seq<seq<int>>, extent: Bound, bounds: seq<Bound>, n: int)
    requires 0 <= n < |bounds|
    requires Filing(grid, extent, bounds, n, CellsOf(extent, bounds[n]).x0, CellsOf(extent, bounds[n]).y1 + 1)
    ensures Filed(grid, extent, bounds, n + 1)
  {
    hide CellsOf, Slot;
    var r := CellsOf(extent, bounds[n]);
    forall cx, cy | 0 <= cx < GRID_DIM && 0 <= cy < GRID_DIM
      ensures CellLists(grid[Slot(cx, cy)], extent, bounds, n + 1, cx, cy)
    {
      assert CellFiling(grid[Slot(cx, cy)], extent, bounds, n, Done(r, r.x0, r.y1 + 1, cx, cy), cx, cy);
    }
  }

  // The cells of the query that have been looked at reach those of a feature.
  predicate Reached(q: Range, r: Range, x: int, y: int) {
    || (Overlap(q.x0, q.x1, r.x0, r.x1) && Overlap(q.y0, y - 1, r.y0, r.y1))
    || (Overlap(q.x0, x - 1, r.x0, r.x1) && r.y0 <= y <= r.y1)
  }

  // seen holds what the cells looked at so far list, out what of it intersects, each once.
  ghost predicate Gathered(e: Bound, bounds: seq<Bound>, b: Bound, seen: set<int>, out: seq<int>, x: int, y: int) {
    && (forall i :: i in seen <==> 0 <= i < |bounds| && Reached(CellsOf(e, b), CellsOf(e, bounds[i]), x, y))
    && OutOf(bounds, b, seen, out)
  }

  ghost predicate OutOf(bounds: seq<Bound>, b: Bound, seen: set<int>, out: seq<int>) {
    && (forall i, j :: 0 <= i < j < |out| ==> out[i] != out[j])
    && (forall i :: i in out <==> i in seen && 0 <= i < |bounds| && Intersects(bounds[i], b))
  }

  // The innermost loop of query over the features of one cell.
  method GatherCell(bounds: seq<Bound>, b: Bound, list: seq<int>, seen0: set<int>, out0: seq<int>)
      returns (seen: set<int>, out: seq<int>)
    requires OutOf(bounds, b, seen0, out0) && forall i :: i in list ==> 0 <= i < |bounds|
    ensures OutOf(bounds, b, seen, out) && forall i :: i in seen <==> i in seen0 || i in list
  {
    seen, out := seen0, out0;
    for k := 0 to |list|
      invariant OutOf(bounds, b, seen, out) && forall i :: i in seen <==> i in seen0 || i in list[..k]
    {
      var i := list[k];
      assert list[..k + 1] == list[..k] + [i];
      assert i in list;
      if i in seen {
        continue;
      }
      OutNext(bounds, b, seen, out, i);
      seen := seen + {i};
      if Intersects(bounds[i], b) {
        out := out + [i];
      }
    }
    assert list[..|list|] == list;
  }

  lemma OutNext(bounds: seq<Bound>, b: Bound, seen: set<int>, out: seq<int>, i: int)
    requires OutOf(bounds, b, seen, out) && i !in seen && 0 <= i < |bounds|
    ensures OutOf(bounds, b, seen + {i}, if Intersects(bounds[i], b) then out + [i] else out)
  {
    assert i !in out;
  }

  lemma GatherStart(e: Bound, bounds: seq<Bound>, b: Bound)
    ensures Gathered(e, bounds, b, {}, [], CellsOf(e, b).x0, CellsOf(e, b).y0)
  {
    hide CellsOf;
  }

  lemma GatherNext(e: Bound, bounds: seq<Bound>, b: Bound, seen: set<int>, list: seq<int>, out: seq<int>, x: int,
                   y: int, seen': set<int>, out': seq<int>)
    requires Gathered(e, bounds, b, seen, out, x, y) && CellLists(list, e, bounds, |bounds|, x, y)
    requires Covers(CellsOf(e, b), x, y)
    requires OutOf(bounds, b, seen', out') && forall i :: i in seen' <==> i in seen || i in list
    ensures Gathered(e, bounds, b, seen', out', x + 1, y)
  {
    hide CellsOf, OutOf;
    forall i | 0 <= i < |bounds|
      ensures Reached(CellsOf(e, b), CellsOf(e, bounds[i]), x + 1, y) <==>
              Reached(CellsOf(e, b), CellsOf(e, bounds[i]), x, y) || Covers(CellsOf(e, bounds[i]), x, y)
    {
      ReachNext(CellsOf(e, b), CellsOf(e, bounds[i]), x, y);
    }
  }

  lemma ReachNext(q: Range, r: Range, x: int, y: int)
    requires Covers(q, x, y)
    ensures Reached(q, r, x + 1, y) <==> Reached(q, r, x, y) || Covers(r, x, y)
  {
  }

  lemma GatherRow(e: Bound, bounds: seq<Bound>, b: Bound, seen: set<int>, out: seq<int>, y: int)
    requires Gathered(e, bounds, b, seen, out, CellsOf(e, b).x1 + 1, y) && CellsOf(e, b).y0 <= y
    requires CellsOf(e, b).x0 <= CellsOf(e, b).x1
    ensures Gathered(e, bounds, b, seen, out, CellsOf(e, b).x0, y + 1)
  {
    hide CellsOf, OutOf;
  }

  lemma GatherDone(e: Bound, bounds: seq<Bound>, b: Bound, seen: set<int>, out: seq<int>)
    requires Gathered(e, bounds, b, seen, out, CellsOf(e, b).x0, CellsOf(e, b).y1 + 1)
    ensures forall i :: i in out <==>
            0 <= i < |bounds| && Intersects(bounds[i], b) && Meet(CellsOf(e, bounds[i]), CellsOf(e, b))
  {
    hide CellsOf, Intersects;
  }

  // sort.Ints on distinct numbers.
  method SortInts(s: seq<int>) returns (r: seq<int>)
    requires forall i, j :: 0 <= i < j < |s| ==> s[i] != s[j]
    ensures Ascending(r) && forall i :: i in r <==> i in s
  {
    r := [];
    for i := 0 to |s|
      invariant Ascending(r) && forall k :: k in r <==> k in s[..i]
    {
      assert s[..i + 1] == s[..i] + [s[i]];
      var p := 0;
      while p < |r| && r[p] < s[i]
        invariant 0 <= p <= |r| && forall j :: 0 <= j < p ==> r[j] < s[i]
      {
        p := p + 1;
      }
      InsertInt(r, p, s[i]);
      r := r[..p] + [s[i]] + r[p..];
    }
    assert s[..|s|] == s;
  }

  lemma InsertInt(r: seq<int>, p: nat, v: int)
    requires Ascending(r) && p <= |r| && v !in r && forall j :: 0 <= j < p ==> r[j] < v
    requires p < |r| ==> r[p] >= v
    ensures Ascending(r[..p] + [v] + r[p..]) && forall k :: k in r[..p] + [v] + r[p..] <==> k == v || k in r
  {
    InsertKeepsMembers(r, p, v);
    InsertAscends(r, p, v, r[..p] + [v] + r[p..]);
  }

  lemma InsertKeepsMembers(r: seq<int>, p: nat, v: int)
    requires p <= |r|
    ensures forall k :: k in r[..p] + [v] + r[p..] <==> k == v || k in r
  {
    assert r == r[..p] + r[p..];
  }

  lemma InsertAscends(r: seq<int>, p: nat, v: int, s: seq<int>)
    requires Ascending(r) && p <= |r| && v !in r && s == r[..p] + [v] + r[p..]
    requires forall k :: 0 <= k < p ==> r[k] < v
    requires p < |r| ==> r[p] >= v
    ensures Ascending(s)
  {
    assert p < |r| ==> r[p] in r;
    forall i, j | 0 <= i < j < |s|
      ensures s[i] < s[j]
    {
      if j < p {
        assert r[i] < r[j];
      } else if j > p {
        assert s[j] == r[j - 1] && r[p] <= r[j - 1];
        assert i > p ==> s[i] == r[i - 1] && r[i - 1] < r[j - 1];
      }
    }
  }

  // What query answers: the features that intersect b and share a cell with it, in order.
  ghost predicate Answer(bounds: seq<Bound>, extent: Bound, b: Bound, out: seq<int>) {
    && Ascending(out)
    && (forall i :: i in out <==>
          0 <= i < |bounds| && Intersects(b, extent) && Intersects(bounds[i], b) &&
            Meet(CellsOf(extent, bounds[i]), CellsOf(extent, b)))
  }

  class Index {
    const bounds: seq<Bound>
    const extent: Bound
    const grid: array<seq<int>>

    ghost predicate Valid()
      reads grid
    {
      && |bounds| > 0 && extent == ExtentOf(bounds)
      && Filed(grid[..], extent, bounds, |bounds|)
    }

    constructor (bounds: seq<Bound>)
      requires |bounds| > 0
      ensures Valid() && fresh(grid) && this.bounds == bounds
    {
      this.bounds := bounds;
      this.extent := ExtentOf(bounds);
      var cells := new seq<int>[GRID_DIM * GRID_DIM](_ => []);
      this.grid := cells;
      new;
      BuildGrid(cells, extent, bounds);
    }

    // query.
    method Query(b: Bound) returns (out: seq<int>)
      requires Valid()
      ensures Answer(bounds, extent, b, out)
    {
      hide Filed, Gathered, CellsOf, OutOf, ExtentOf, Slot, Meet;
      if !Intersects(b, extent) {
        return [];
      }
      var q := CellsOf(extent, b);
      RangeInGrid(extent, b);
      var seen: set<int> := {};
      out := [];
      GatherStart(extent, bounds, b);
      if q.x0 > q.x1 || q.y0 > q.y1 {
        NoCells(extent, bounds, b);
        return;
      }
      for y := q.y0 to q.y1 + 1
        invariant Gathered(extent, bounds, b, seen, out, q.x0, y)
      {
        for x := q.x0 to q.x1 + 1
          invariant Gathered(extent, bounds, b, seen, out, x, y)
        {
          ghost var seen0, out0 := seen, out;
          GatheredOut(extent, bounds, b, seen, out, x, y);
          CellListed(grid[..], extent, bounds, x, y);
          seen, out := GatherCell(bounds, b, grid[Slot(x, y)], seen, out);
          GatherNext(extent, bounds, b, seen0, grid[Slot(x, y)], out0, x, y, seen, out);
        }
        GatherRow(extent, bounds, b, seen, out, y);
      }
      GatheredOut(extent, bounds, b, seen, out, q.x0, q.y1 + 1);
      GatherDone(extent, bounds, b, seen, out);
      OutIsDistinct(bounds, b, seen, out);
      out := SortInts(out);
    }
  }

  // New fails when there is no feature; it takes features with empty geometries like any others.
  method New(bounds: seq<Bound>) returns (e: Index?)
    ensures e == null <==> bounds == []
    ensures e != null ==> fresh(e) && fresh(e.grid) && e.Valid() && e.bounds == bounds
  {
    if |bounds| == 0 {
      return null;
    }
    e := new Index(bounds);
  }

  // buildGrid, whatever the bounds: a feature that ends before it begins is listed nowhere.
  method BuildGrid(grid: array<seq<int>>, extent: Bound, bounds: seq<Bound>)
    requires grid.Length == GRID_DIM * GRID_DIM && forall c :: 0 <= c < grid.Length ==> grid[c] == []
    modifies grid
    ensures Filed(grid[..], extent, bounds, |bounds|)
  {
    hide Filed, Filing, CellsOf, ExtentOf, Slot;
    FiledNothing(grid[..], extent, bounds);
    for i := 0 to |bounds|
      invariant Filed(grid[..], extent, bounds, i)
    {
      var r := CellsOf(extent, bounds[i]);
      RangeInGrid(extent, bounds[i]);
      if r.x0 > r.x1 || r.y0 > r.y1 {
        FiledNowhere(grid[..], extent, bounds, i);
        continue;
      }
      FilingStart(grid[..], extent, bounds, i);
      for y := r.y0 to r.y1 + 1
        invariant Filing(grid[..], extent, bounds, i, r.x0, y)
      {
        for x := r.x0 to r.x1 + 1
          invariant Filing(grid[..], extent, bounds, i, x, y)
        {
          var c := Slot(x, y);
          FilingNext(grid[..], extent, bounds, i, x, y);
          ghost var before := grid[..];
          grid[c] := grid[c] + [i];
          assert grid[..] == before[c := before[c] + [i]];
        }
        FilingRow(grid[..], extent, bounds, i, y);
      }
      FilingDone(grid[..], extent, bounds, i);
    }
  }

  lemma FiledNothing(grid: seq<seq<int>>, extent: Bound, bounds: seq<Bound>)
    requires |grid| == GRID_DIM * GRID_DIM && forall c :: 0 <= c < |grid| ==> grid[c] == []
    ensures Filed(grid, extent, bounds, 0)
  {
  }

  lemma RangeInGrid(extent: Bound, b: Bound)
    ensures
      var r := CellsOf(extent, b);
      0 <= r.x0 < GRID_DIM && 0 <= r.x1 < GRID_DIM && 0 <= r.y0 < GRID_DIM && 0 <= r.y1 < GRID_DIM
  {
    hide AxisCell;
  }

  // A range that ends before it begins covers no cell.
  lemma FiledNowhere(grid: seq<seq<int>>, extent: Bound, bounds: seq<Bound>, n: int)
    requires Filed(grid, extent, bounds, n) && n < |bounds|
    requires CellsOf(extent, bounds[n]).x0 > CellsOf(extent, bounds[n]).x1 ||
             CellsOf(extent, bounds[n]).y0 > CellsOf(extent, bounds[n]).y1
    ensures Filed(grid, extent, bounds, n + 1)
  {
    hide CellsOf, Slot;
    forall x, y | 0 <= x < GRID_DIM && 0 <= y < GRID_DIM
      ensures CellLists(grid[Slot(x, y)], extent, bounds, n + 1, x, y)
    {
      assert CellLists(grid[Slot(x, y)], extent, bounds, n, x, y);
    }
  }

  lemma NoCells(e: Bound, bounds: seq<Bound>, b: Bound)
    requires CellsOf(e, b).x0 > CellsOf(e, b).x1 || CellsOf(e, b).y0 > CellsOf(e, b).y1
    ensures forall i :: 0 <= i < |bounds| ==> !Meet(CellsOf(e, bounds[i]), CellsOf(e, b))
  {
    hide CellsOf;
  }

  lemma GatheredOut(e: Bound, bounds: seq<Bound>, b: Bound, seen: set<int>, out: seq<int>, x: int, y: int)
    requires Gathered(e, bounds, b, seen, out, x, y)
    ensures OutOf(bounds, b, seen, out)
  {
    hide OutOf, CellsOf;
  }

  lemma OutIsDistinct(bounds: seq<Bound>, b: Bound, seen: set<int>, out: seq<int>)
    requires OutOf(bounds, b, seen, out)
    ensures forall i, j :: 0 <= i < j < |out| ==> out[i] != out[j]
  {
  }

  lemma CellListed(grid: seq<seq<int>>, e: Bound, bounds: seq<Bound>, x: int, y: int)
    requires Filed(grid, e, bounds, |bounds|) && 0 <= x < GRID_DIM && 0 <= y < GRID_DIM
    ensures |grid| == GRID_DIM * GRID_DIM && CellLists(grid[Slot(x, y)], e, bounds, |bounds|, x, y)
    ensures forall i :: i in grid[Slot(x, y)] ==> 0 <= i < |bounds|
  {
    hide CellsOf, Slot;
    assert CellLists(grid[Slot(x, y)], e, bounds, |bounds|, x, y);
  }

  // ----- against the linear filter

  lemma Intersections(bounds: seq<Bound>, extent: Bound, b: Bound, i: int)
    requires |bounds| > 0 && extent == ExtentOf(bounds) && 0 <= i < |bounds| && WellFormed(bounds[i])
    ensures Within(bounds[i], extent) && (Intersects(bounds[i], b) ==> Intersects(b, extent))
  {
    hide ExtentOf;
    ExtentHolds(bounds);
  }

  // The bounds of features of this extent; empties says whether some may have an empty geometry.
  ghost predicate Usable(bounds: seq<Bound>, extent: Bound, empties: bool) {
    && |bounds| > 0 && ExtentOf(bounds) == extent
    && forall i :: 0 <= i < |bounds| ==> WellFormed(bounds[i]) || (empties && bounds[i] == EMPTY_BOUND)
  }

  // Whatever the bounds: the answer is the linear filter's when the grid misses none of the
  // features that meet the box.
  lemma AnswerIsFilter(bounds: seq<Bound>, extent: Bound, b: Bound, out: seq<int>)
    requires Answer(bounds, extent, b, out)
    requires forall i :: 0 <= i < |bounds| && Intersects(bounds[i], b) ==>
      Intersects(b, extent) && Meet(CellsOf(extent, bounds[i]), CellsOf(extent, b))
    ensures out == Filter(bounds, b)
  {
    hide CellsOf, Meet, Filter, Intersects;
    FilterIs(bounds, b);
    assert forall i :: i in Filter(bounds, b) <==> i in out;
    SameMembers(out, Filter(bounds, b));
  }

  // The grid answers what the filter answers, whatever the features of that extent.
  ghost predicate AlwaysExact(extent: Bound, b: Bound, empties: bool) {
    forall bounds, out :: Usable(bounds, extent, empties) && Answer(bounds, extent, b, out) ==> out == Filter(bounds, b)
  }

  // The points (1, 1) and (-1, -1) fall into one cell, which then lists the empty geometries.
  predicate OneCell(extent: Bound) {
    var r := CellsOf(extent, EMPTY_BOUND);
    r.x0 == r.x1 && r.y0 == r.y1
  }

  // A box around the unit square meets the bound of an empty geometry.
  predicate GridSuffices(extent: Bound, b: Bound, empties: bool) {
    if empties && Intersects(EMPTY_BOUND, b) then
      extent == EMPTY_BOUND || (Intersects(b, extent) && Fits(extent, b) && OneCell(extent))
    else !Intersects(b, extent) || Fits(extent, b)
  }

  lemma EmptyMeets(extent: Bound, b: Bound)
    requires WellFormed(b) && Fits(extent, b) && Intersects(EMPTY_BOUND, b)
    ensures Meet(CellsOf(extent, EMPTY_BOUND), CellsOf(extent, b)) <==> OneCell(extent)
  {
    hide AxisCell, AxisFits;
    AxisEmptyMeets(b.min.x, b.max.x, extent.min.x, extent.max.x);
    AxisEmptyMeets(b.min.y, b.max.y, extent.min.y, extent.max.y);
  }

  lemma AxisEmptyMeets(b0: real, b1: real, lo: real, hi: real)
    requires b0 <= -1.0 && 1.0 <= b1 && AxisFits(b1, lo, hi)
    ensures Overlap(AxisCell(1.0, lo, hi), AxisCell(-1.0, lo, hi), AxisCell(b0, lo, hi), AxisCell(b1, lo, hi)) <==>
            AxisCell(1.0, lo, hi) == AxisCell(-1.0, lo, hi)
  {
    FitsBelow(1.0, b1, lo, hi);
    FitsBelow(-1.0, b1, lo, hi);
    hide AxisCell, AxisFits;
    AxisOrder(-1.0, 1.0, lo, hi);
    AxisOrder(1.0, b1, lo, hi);
    AxisOrder(b0, -1.0, lo, hi);
    AxisOrder(b0, b1, lo, hi);
  }

  lemma FitsBelow(v: real, w: real, lo: real, hi: real)
    requires v <= w && AxisFits(w, lo, hi)
    ensures AxisFits(v, lo, hi)
  {
    if hi > lo {
      ScaledOrder(v, w, lo, hi);
    }
  }

  lemma {:induction false} EmptyExtent(bounds: seq<Bound>)
    requires |bounds| > 0 && ExtentOf(bounds) == EMPTY_BOUND
    requires forall i :: 0 <= i < |bounds| ==> OfGeometry(bounds[i])
    ensures forall i :: 0 <= i < |bounds| ==> bounds[i] == EMPTY_BOUND
  {
    ExtentHolds(bounds);
  }

  // The grid finds every feature that meets the box.
  lemma SufficesFinds(bounds: seq<Bound>, extent: Bound, b: Bound, empties: bool, i: int)
    requires Usable(bounds, extent, empties) && WellFormed(b) && GridSuffices(extent, b, empties)
    requires 0 <= i < |bounds| && Intersects(bounds[i], b)
    ensures Intersects(b, extent) && Meet(CellsOf(extent, bounds[i]), CellsOf(extent, b))
  {
    if extent == EMPTY_BOUND {
      EmptyExtent(bounds);
    } else if WellFormed(bounds[i]) {
      hide Meet, CellsOf, ExtentOf, Fits;
      Intersections(bounds, extent, b, i);
      GridFinds(extent, bounds[i], b);
    } else {
      hide Meet, CellsOf, ExtentOf, Fits;
      EmptyMeets(extent, b);
    }
  }

  lemma AxisOverflows(v: real, lo: real, hi: real)
    requires !AxisFits(v, lo, hi)
    ensures hi > lo && v > hi && AxisCell(v, lo, hi) == 0 && AxisCell(hi, lo, hi) == GRID_DIM - 1
  {
    if hi > lo {
      ScaledFarSide(lo, hi);
      if v <= hi {
        ScaledOrder(v, hi, lo, hi);
      }
    }
  }

  // Features along opposite sides of the extent, and one with an empty geometry.
  function LeftAndRight(extent: Bound): seq<Bound> {
    [Bound(extent.min, Point(extent.min.x, extent.max.y)), Bound(Point(extent.max.x, extent.min.y), extent.max)]
  }

  function BottomAndTop(extent: Bound): seq<Bound> {
    [Bound(extent.min, Point(extent.max.x, extent.min.y)), Bound(Point(extent.min.x, extent.max.y), extent.max)]
  }

  lemma ExtentOfMore(front: seq<Bound>, b: Bound)
    requires |front| > 0
    ensures ExtentOf(front + [b]) == Union(ExtentOf(front), b)
  {
    assert (front + [b])[..|front|] == front;
  }

  lemma SidesHaveExtent(extent: Bound, empties: bool)
    requires WellFormed(extent)
    ensures Usable(LeftAndRight(extent), extent, empties) && Usable(BottomAndTop(extent), extent, empties)
    ensures Usable(LeftAndRight(extent) + [EMPTY_BOUND], extent, true)
  {
    var l, b := LeftAndRight(extent), BottomAndTop(extent);
    ExtentOfMore(l[..1], l[1]);
    ExtentOfMore(b[..1], b[1]);
    assert l[..1] + [l[1]] == l && b[..1] + [b[1]] == b;
    ExtentOfMore(l, EMPTY_BOUND);
  }

  lemma Misses(bounds: seq<Bound>, extent: Bound, b: Bound, empties: bool, i: int)
    requires Usable(bounds, extent, empties) && 0 <= i < |bounds| && Intersects(bounds[i], b)
    requires !Intersects(b, extent) || !Meet(CellsOf(extent, bounds[i]), CellsOf(extent, b))
    ensures !AlwaysExact(extent, b, empties)
  {
    hide CellsOf, Meet, Filter, Usable, Intersects;
    FilterIs(bounds, b);
    var out := AnswerExists(bounds, extent, b);
    assert i in Filter(bounds, b) && i !in out;
  }

  lemma {:induction false} AnswerUpTo(bounds: seq<Bound>, extent: Bound, b: Bound, n: nat) returns (out: seq<int>)
    requires n <= |bounds|
    ensures Ascending(out)
    ensures forall i :: i in out <==>
              0 <= i < n && Intersects(b, extent) && Intersects(bounds[i], b) &&
                Meet(CellsOf(extent, bounds[i]), CellsOf(extent, b))
  {
    hide CellsOf, Meet, Intersects;
    if n == 0 {
      out := [];
    } else {
      var front := AnswerUpTo(bounds, extent, b, n - 1);
      assert forall k :: 0 <= k < |front| ==> front[k] in front;
      var hit := Intersects(b, extent) && Intersects(bounds[n - 1], b) &&
                 Meet(CellsOf(extent, bounds[n - 1]), CellsOf(extent, b));
      out := if hit then front + [n - 1] else front;
    }
  }

  lemma AnswerExists(bounds: seq<Bound>, extent: Bound, b: Bound) returns (out: seq<int>)
    ensures Answer(bounds, extent, b, out)
  {
    hide CellsOf, Meet, Intersects;
    out := AnswerUpTo(bounds, extent, b, |bounds|);
  }

  // The query agrees with the filter for all features of an extent exactly when the greatest corner
  // of a box that reaches into the extent can be converted and, for a box around the unit square
  // when geometries may be empty, the grid has one cell for them.
  lemma QueryExactIff(extent: Bound, b: Bound, empties: bool)
    requires WellFormed(extent) || (empties && extent == EMPTY_BOUND)
    requires WellFormed(b)
    ensures AlwaysExact(extent, b, empties) <==> GridSuffices(extent, b, empties)
  {
    hide Usable, Answer, Filter, CellsOf, Meet, AlwaysExact;
    if GridSuffices(extent, b, empties) {
      SufficesIsExact(extent, b, empties);
    } else if Intersects(b, extent) && !Fits(extent, b) {
      MissesFarSide(extent, b, empties);
    } else {
      MissesEmpty(extent, b);
    }
  }

  lemma SufficesIsExact(extent: Bound, b: Bound, empties: bool)
    requires WellFormed(b) && GridSuffices(extent, b, empties)
    ensures AlwaysExact(extent, b, empties)
  {
    hide Usable, Answer, Filter, CellsOf, Meet, GridSuffices, Intersects;
    forall bounds, out | Usable(bounds, extent, empties) && Answer(bounds, extent, b, out)
      ensures out == Filter(bounds, b)
    {
      forall i | 0 <= i < |bounds| && Intersects(bounds[i], b)
        ensures Intersects(b, extent) && Meet(CellsOf(extent, bounds[i]), CellsOf(extent, b))
      {
        SufficesFinds(bounds, extent, b, empties, i);
      }
      AnswerIsFilter(bounds, extent, b, out);
    }
  }

  lemma MissesFarSide(extent: Bound, b: Bound, empties: bool)
    requires WellFormed(extent) && WellFormed(b) && Intersects(b, extent) && !Fits(extent, b)
    ensures !AlwaysExact(extent, b, empties)
  {
    hide AxisCell, AxisFits, Usable;
    SidesHaveExtent(extent, empties);
    if !AxisFits(b.max.x, extent.min.x, extent.max.x) {
      AxisOverflows(b.max.x, extent.min.x, extent.max.x);
      Misses(LeftAndRight(extent), extent, b, empties, 1);
    } else {
      AxisOverflows(b.max.y, extent.min.y, extent.max.y);
      Misses(BottomAndTop(extent), extent, b, empties, 1);
    }
  }

  lemma MissesEmpty(extent: Bound, b: Bound)
    requires WellFormed(extent) && WellFormed(b) && Intersects(EMPTY_BOUND, b)
    requires !Intersects(b, extent) || (Fits(extent, b) && !OneCell(extent))
    ensures !AlwaysExact(extent, b, true)
  {
    hide CellsOf, Meet, Usable, Fits, OneCell;
    SidesHaveExtent(extent, true);
    if Intersects(b, extent) {
      EmptyMeets(extent, b);
    }
    Misses(LeftAndRight(extent) + [EMPTY_BOUND], extent, b, true, 2);
  }

  // One degree of features and a box up to 10^18: the index finds nothing in the last column.
  lemma QueryExample(empties: bool)
    ensures !AlwaysExact(Bound(Point(0.0, 0.0), Point(1.0, 1.0)),
                         Bound(Point(0.0, 0.0), Point(1000000000000000000.0, 1.0)), empties)
  {
    var extent, b := Bound(Point(0.0, 0.0), Point(1.0, 1.0)), Bound(Point(0.0, 0.0), Point(1000000000000000000.0, 1.0));
    assert Scaled(b.max.x, 0.0, 1.0) == 64000000000000000000.0;
    QueryExactIff(extent, b, empties);
  }

  // Two degrees of features and a box all around them: a linear filter lists an empty geometry, the
  // index does not.
  lemma EmptyGeometryExample()
    ensures
      var extent, b := Bound(Point(0.0, 0.0), Point(2.0, 2.0)), Bound(Point(-5.0, -5.0), Point(5.0, 5.0));
      && Intersects(b, extent) && Fits(extent, b)
      && AlwaysExact(extent, b, false) && !AlwaysExact(extent, b, true)
  {
    var extent, b := Bound(Point(0.0, 0.0), Point(2.0, 2.0)), Bound(Point(-5.0, -5.0), Point(5.0, 5.0));
    assert Scaled(1.0, 0.0, 2.0) == 32.0 && Scaled(-1.0, 0.0, 2.0) == -32.0 && Scaled(5.0, 0.0, 2.0) == 160.0;
    hide AlwaysExact;
    QueryExactIff(extent, b, false);
    QueryExactIff(extent, b, true);
  }
}
