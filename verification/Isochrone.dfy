/** The raster of one isochrone contour: contourGrid and contourForCutoff in
    internal/algo/routing/isochrone.go. */
module Isochrone {
  import opened Numbers
  import opened Paths
  import opened MarchingSquares
  import opened RingChain
  import opened BinaryGrid

  // ----- sizing the raster

  const LAT_M := 111132.0
  const PAD := 2.0
  const MAX_CONTOUR_CELLS := 4194304

  datatype Sizing = TooFine | Empty | Sized(nx: nat, ny: nat, frame: Frame)

  function CellMeters(minP: Point, maxP: Point, cellSizeM: real, lonM: real): real {
    if cellSizeM > 0.0 then cellSizeM
    else Max(Max((maxP.x - minP.x) * lonM, (maxP.y - minP.y) * LAT_M) / 128.0, 5.0)
  }

  // A size that is given is taken. The automatic one cuts the longer side into 128 cells, but into
  // fewer when they would be smaller than five metres.
  lemma CellSizeMeans(minP: Point, maxP: Point, cellSizeM: real, lonM: real)
    ensures
      var cell := CellMeters(minP, maxP, cellSizeM, lonM);
      var width, height := (maxP.x - minP.x) * lonM, (maxP.y - minP.y) * 111132.0;
      if cellSizeM > 0.0 then cell == cellSizeM
      else
        && cell >= 5.0 && width <= 128.0 * cell && height <= 128.0 * cell
        && (cell == 5.0 || width == 128.0 * cell || height == 128.0 * cell)
  {
    hide CellMeters;
    CellSizeFrom(minP, maxP, cellSizeM, lonM, (maxP.x - minP.x) * lonM, (maxP.y - minP.y) * 111132.0);
  }

  lemma CellSizeFrom(minP: Point, maxP: Point, cellSizeM: real, lonM: real, width: real, height: real)
    requires width == (maxP.x - minP.x) * lonM && height == (maxP.y - minP.y) * 111132.0
    ensures CellMeters(minP, maxP, cellSizeM, lonM) ==
            if cellSizeM > 0.0 then cellSizeM else Max(Max(width, height) / 128.0, 5.0)
  {
  }

  // The number of columns or rows before int() drops the fraction.
  function Span(extent: real, cell: real): real
    requires cell > 0.0
  {
    extent / cell + 2.0 * PAD + 1.0
  }

  // contourGrid for finite numbers. lonM is the length of a degree of longitude, at least 1.
  function ContourGrid(minP: Point, maxP: Point, cellSizeM: real, lonM: real): (r: Sizing)
    requires lonM >= 1.0
    ensures r.Sized? ==> Proper(r.frame)
  {
    var cell := CellMeters(minP, maxP, cellSizeM, lonM);
    assert cell > 0.0;
    assert cell / lonM > 0.0 && cell / LAT_M > 0.0;
    var cw, ch := cell / lonM, cell / LAT_M;
    var nx, ny := Span(maxP.x - minP.x, cw), Span(maxP.y - minP.y, ch);
    if nx * ny > MAX_CONTOUR_CELLS as real then TooFine
    else if nx < 1.0 || ny < 1.0 then Empty
    else Sized(nx.Floor, ny.Floor, Frame(minP.x - PAD * cw, minP.y - PAD * ch, cw, ch))
  }

  predicate Ordered(minP: Point, maxP: Point) {
    minP.x <= maxP.x && minP.y <= maxP.y
  }

  predicate InBounds(p: Point, minP: Point, maxP: Point) {
    minP.x <= p.x <= maxP.x && minP.y <= p.y <= maxP.y
  }

  lemma RatioOfScaled(extent: real, cell: real, scale: real)
    requires cell > 0.0 && scale > 0.0
    ensures cell / scale > 0.0 && extent / (cell / scale) == extent * scale / cell
  {
    var w := cell / scale;
    assert w * scale == cell;
    var q := extent / w;
    assert q * w == extent;
    assert extent * scale == q * w * scale == q * cell;
  }

  lemma RatioAtMost(a: real, b: real, n: real)
    requires b > 0.0 && a <= n * b
    ensures a / b <= n
  {
    var q := a / b;
    assert q * b == a;
  }

  lemma ProductAtMost(a: real, b: real, m: real)
    requires 0.0 <= a <= m && 0.0 <= b <= m
    ensures 0.0 <= a * b <= m * m
  {
    assert a * b <= m * b <= m * m;
  }

  // The automatic cell size is never turned away: it needs at most 133 by 133 samples.
  lemma AutomaticSizeFits(minP: Point, maxP: Point, cellSizeM: real, lonM: real)
    requires Ordered(minP, maxP) && lonM >= 1.0 && cellSizeM <= 0.0
    ensures ContourGrid(minP, maxP, cellSizeM, lonM).Sized?
  {
    var cell := CellMeters(minP, maxP, cellSizeM, lonM);
    var dx, dy := maxP.x - minP.x, maxP.y - minP.y;
    CellSizeMeans(minP, maxP, cellSizeM, lonM);
    AutomaticSpan(dx, cell, lonM);
    AutomaticSpan(dy, cell, LAT_M);
    hide Span, CellMeters;
    ProductAtMost(Span(dx, cell / lonM), Span(dy, cell / LAT_M), 133.0);
  }

  lemma AutomaticSpan(extent: real, cell: real, scale: real)
    requires extent >= 0.0 && cell > 0.0 && scale > 0.0 && extent * scale <= 128.0 * cell
    ensures cell / scale > 0.0 && 5.0 <= Span(extent, cell / scale) <= 133.0
  {
    RatioOfScaled(extent, cell, scale);
    RatioAtMost(extent * scale, cell, 128.0);
    RatioNonNegative(extent, cell / scale);
  }

  lemma RatioNonNegative(a: real, b: real)
    requires a >= 0.0 && b > 0.0
    ensures a / b >= 0.0
  {
  }

  // A grid that is not turned away for its size is never empty and never larger than the limit.
  lemma SizedIsBounded(minP: Point, maxP: Point, cellSizeM: real, lonM: real)
    requires Ordered(minP, maxP) && lonM >= 1.0
    ensures
      var r := ContourGrid(minP, maxP, cellSizeM, lonM);
      !r.Empty? && (r.Sized? ==> 5 <= r.nx && 5 <= r.ny && r.nx * r.ny <= MAX_CONTOUR_CELLS)
  {
    var cell := CellMeters(minP, maxP, cellSizeM, lonM);
    var cw, ch := cell / lonM, cell / LAT_M;
    assert cw > 0.0 && ch > 0.0;
    RatioNonNegative(maxP.x - minP.x, cw);
    RatioNonNegative(maxP.y - minP.y, ch);
    var nx, ny := Span(maxP.x - minP.x, cw), Span(maxP.y - minP.y, ch);
    FloorProduct(nx, ny);
  }

  lemma FloorProduct(a: real, b: real)
    requires a >= 0.0 && b >= 0.0
    ensures (a.Floor * b.Floor) as real <= a * b
  {
    assert a.Floor as real <= a && b.Floor as real <= b;
    assert a.Floor as real * b.Floor as real <= a * b.Floor as real <= a * b;
    ProductAsReal(a.Floor, b.Floor);
  }

  lemma {:induction false} ProductAsReal(a: nat, b: nat)
    ensures (a * b) as real == a as real * b as real
  {
    if a > 0 {
      ProductAsReal(a - 1, b);
      assert (a - 1) * b == a * b - b;
      assert (a - 1) as real == a as real - 1.0;
    }
  }

  // ----- the suggested cell size

  const SUGGESTION_MARGIN := 1.1

  // The cell size the refusal suggests; excess is how many times the wanted raster is too large.
  function Suggestion(cellSizeM: real, rootOfExcess: real): real {
    cellSizeM * (rootOfExcess * SUGGESTION_MARGIN)
  }

  // The samples a raster with cells of this size has, before int().
  function Wanted(minP: Point, maxP: Point, cellSizeM: real, lonM: real): real
    requires lonM >= 1.0
  {
    var cell := CellMeters(minP, maxP, cellSizeM, lonM);
    assert cell / lonM > 0.0 && cell / LAT_M > 0.0;
    Span(maxP.x - minP.x, cell / lonM) * Span(maxP.y - minP.y, cell / LAT_M)
  }

  // An extent in degrees, counted in cells.
  function InCells(extent: real, scale: real, cellSizeM: real): real
    requires cellSizeM > 0.0
  {
    extent * scale / cellSizeM
  }

  // The samples for a box of a by b cells.
  function WithPadding(a: real, b: real): real {
    (a + 5.0) * (b + 5.0)
  }

  // For a box of a by b cells: the suggestion only corrects for the product of the two, and a long
  // thin box takes more than the margin for its padding.
  predicate RoomForPadding(a: real, b: real, root: real) {
    5.0 * ((a + b) * (SUGGESTION_MARGIN * root - 1.0)) <=
    (0.21 * MAX_CONTOUR_CELLS as real - 30.25) * (root * root) + 25.0
  }

  // The suggested cell size is accepted exactly when the padding has room.
  lemma SuggestionAcceptedIff(minP: Point, maxP: Point, cellSizeM: real, lonM: real, root: real)
    requires Ordered(minP, maxP) && lonM >= 1.0 && ContourGrid(minP, maxP, cellSizeM, lonM).TooFine?
    requires root > 0.0 && Wanted(minP, maxP, cellSizeM, lonM) == root * root * MAX_CONTOUR_CELLS as real
    ensures cellSizeM > 0.0
    ensures
      var a, b := InCells(maxP.x - minP.x, lonM, cellSizeM), InCells(maxP.y - minP.y, LAT_M, cellSizeM);
      ContourGrid(minP, maxP, Suggestion(cellSizeM, root), lonM).Sized? <==> RoomForPadding(a, b, root)
  {
    hide Span, Wanted, InCells, WithPadding, ContourGrid, RoomForPadding;
    if cellSizeM <= 0.0 {
      AutomaticSizeFits(minP, maxP, cellSizeM, lonM);
    }
    var k, dx, dy := root * SUGGESTION_MARGIN, maxP.x - minP.x, maxP.y - minP.y;
    var next := Suggestion(cellSizeM, root);
    assert next == cellSizeM * k;
    PositiveProduct(cellSizeM, k);
    WantedInCells(minP, maxP, cellSizeM, lonM);
    WantedInCells(minP, maxP, next, lonM);
    InLargerCells(dx, lonM, cellSizeM, k);
    InLargerCells(dy, LAT_M, cellSizeM, k);
    SizedIffWanted(minP, maxP, next, lonM);
    PaddingCost(InCells(dx, lonM, cellSizeM), InCells(dy, LAT_M, cellSizeM), root);
  }

  lemma SizedIffWanted(minP: Point, maxP: Point, cellSizeM: real, lonM: real)
    requires Ordered(minP, maxP) && lonM >= 1.0
    ensures ContourGrid(minP, maxP, cellSizeM, lonM).Sized? <==>
            Wanted(minP, maxP, cellSizeM, lonM) <= MAX_CONTOUR_CELLS as real
  {
    SizedIsBounded(minP, maxP, cellSizeM, lonM);
  }

  lemma InLargerCells(extent: real, scale: real, cell: real, k: real)
    requires cell > 0.0 && k > 0.0 && cell * k > 0.0
    ensures InCells(extent, scale, cell * k) == InCells(extent, scale, cell) / k
  {
    RatioOfMultiple(extent * scale, cell, k);
  }

  lemma WantedInCells(minP: Point, maxP: Point, cellSizeM: real, lonM: real)
    requires lonM >= 1.0 && cellSizeM > 0.0
    ensures
      var a, b := InCells(maxP.x - minP.x, lonM, cellSizeM), InCells(maxP.y - minP.y, LAT_M, cellSizeM);
      Wanted(minP, maxP, cellSizeM, lonM) == WithPadding(a, b)
  {
    hide Span, InCells;
    SpanInCells(maxP.x - minP.x, cellSizeM, lonM);
    SpanInCells(maxP.y - minP.y, cellSizeM, LAT_M);
  }

  lemma SpanInCells(extent: real, cell: real, scale: real)
    requires cell > 0.0 && scale > 0.0
    ensures cell / scale > 0.0 && Span(extent, cell / scale) == InCells(extent, scale, cell) + 5.0
  {
    RatioOfScaled(extent, cell, scale);
  }

  lemma PositiveProduct(a: real, b: real)
    requires a > 0.0 && b > 0.0
    ensures a * b > 0.0
  {
  }

  lemma RatioOfMultiple(a: real, cell: real, k: real)
    requires cell > 0.0 && k > 0.0 && cell * k > 0.0
    ensures a / (cell * k) == a / cell / k
  {
    var q := a / cell / k;
    assert q * k == a / cell;
    assert q * (cell * k) == a / cell * cell == a;
    QuotientIs(a, cell * k, q);
  }

  lemma PaddingCost(a: real, b: real, root: real)
    requires root > 0.0 && WithPadding(a, b) == root * root * MAX_CONTOUR_CELLS as real
    ensures
      var k := root * SUGGESTION_MARGIN;
      WithPadding(a / k, b / k) <= MAX_CONTOUR_CELLS as real <==> RoomForPadding(a, b, root)
  {
    var k, limit := root * SUGGESTION_MARGIN, MAX_CONTOUR_CELLS as real;
    ScaledBack(a, k);
    ScaledBack(b, k);
    PositiveProduct(k, k);
    SquareScales(a / k + 5.0, b / k + 5.0, k, k * k, limit);
    Expand(a, b, k, (a / k + 5.0) * k, (b / k + 5.0) * k);
    Expand(a, b, 1.0, a + 5.0, b + 5.0);
    MarginSquared(a + b, root);
  }

  lemma ScaledBack(a: real, k: real)
    requires k > 0.0
    ensures (a / k + 5.0) * k == a + 5.0 * k
  {
    assert a / k * k == a;
  }

  lemma MarginSquared(d: real, root: real)
    ensures
      var k := root * SUGGESTION_MARGIN;
      k * k == 1.21 * (root * root) && d * (SUGGESTION_MARGIN * root - 1.0) == d * k - d
  {
  }

  lemma Expand(a: real, b: real, k: real, u: real, v: real)
    requires u == a + 5.0 * k && v == b + 5.0 * k
    ensures u * v == a * b + 5.0 * ((a + b) * k) + 25.0 * (k * k)
  {
    assert u * v == a * b + a * (5.0 * k) + (5.0 * k) * b + (5.0 * k) * (5.0 * k);
  }

  lemma SquareScales(u: real, v: real, k: real, kk: real, limit: real)
    requires kk == k * k && kk > 0.0
    ensures u * v <= limit <==> (u * k) * (v * k) <= limit * kk
  {
    assert (u * k) * (v * k) == (u * v) * kk;
    SameOrder(u * v, limit, kk);
  }

  // A network that runs one degree due north, asked for with cells of about 8 mm: the suggested
  // size is refused in turn.
  lemma SuggestionRefusedExample()
    ensures
      var north, cell := Point(0.0, 1.0), LAT_M / 13421767.8;
      && Wanted(Point(0.0, 0.0), north, cell, 111320.0) == 4.0 * 4.0 * MAX_CONTOUR_CELLS as real
      && ContourGrid(Point(0.0, 0.0), north, cell, 111320.0).TooFine?
      && ContourGrid(Point(0.0, 0.0), north, Suggestion(cell, 4.0), 111320.0).TooFine?
  {
    var north, cell := Point(0.0, 1.0), LAT_M / 13421767.8;
    RatioOfScaled(0.0, cell, 111320.0);
    RatioOfScaled(1.0, cell, LAT_M);
    QuotientIs(LAT_M, cell, 13421767.8);
    SuggestionAcceptedIff(Point(0.0, 0.0), north, cell, 111320.0, 4.0);
    SizedIsBounded(Point(0.0, 0.0), north, Suggestion(cell, 4.0), 111320.0);
  }

  // ----- the padding

  // A value between the bounds lands at least two cells from either end of its axis.
  lemma AxisPadding(minV: real, maxV: real, cell: real, v: real)
    requires cell > 0.0 && minV <= v <= maxV
    ensures 2 <= Round((v - (minV - PAD * cell)) / cell) <= Span(maxV - minV, cell).Floor - 2
  {
    var w, u := (maxV - minV) / cell, (v - minV) / cell;
    PaddedRatio(minV, cell, v);
    RatioNonNegative(v - minV, cell);
    RatioOrder(v - minV, maxV - minV, cell);
    assert 0.0 <= u <= w;
  }

  lemma PaddedRatio(minV: real, cell: real, v: real)
    requires cell > 0.0
    ensures (v - (minV - PAD * cell)) / cell == (v - minV) / cell + 2.0
  {
    var u := (v - minV) / cell;
    assert u * cell == v - minV;
    assert (u + 2.0) * cell == v - (minV - PAD * cell);
    QuotientIs(v - (minV - PAD * cell), cell, u + 2.0);
  }

  lemma QuotientIs(a: real, b: real, q: real)
    requires b > 0.0 && a == q * b
    ensures a / b == q
  {
  }

  lemma RatioOrder(a: real, b: real, cell: real)
    requires cell > 0.0 && a <= b
    ensures a / cell <= b / cell
  {
    RatioNonNegative(b - a, cell);
    var q, r := a / cell, b / cell;
    assert q * cell == a && r * cell == b;
    assert (r - q) * cell == b - a;
    QuotientIs(b - a, cell, r - q);
  }

  // The extent is half a cell or more past a whole number of cells.
  predicate HalfPast(extent: real, cell: real)
    requires cell > 0.0
  {
    extent / cell - (extent / cell).Floor as real >= 0.5
  }

  // The pad is two cells at the low end, but int() takes what it drops from the high end.
  lemma HighestSample(minV: real, maxV: real, cell: real)
    requires cell > 0.0 && minV <= maxV
    ensures Round((maxV - (minV - PAD * cell)) / cell) == Span(maxV - minV, cell).Floor - 2 <==>
            HalfPast(maxV - minV, cell)
  {
    var w := (maxV - minV) / cell;
    PaddedRatio(minV, cell, maxV);
    RatioNonNegative(maxV - minV, cell);
    HalfPastWhole(w);
    assert Span(maxV - minV, cell) == w + 5.0;
  }

  lemma HalfPastWhole(w: real)
    requires w >= 0.0
    ensures Round(w + 2.0) == (w + 5.0).Floor - 2 <==> w - w.Floor as real >= 0.5
  {
    var k := w.Floor;
    assert (w + 5.0).Floor == k + 5;
    assert Round(w + 2.0) == if w - k as real >= 0.5 then k + 3 else k + 2;
  }

  lemma AxisOrder(minV: real, maxV: real, cell: real, v: real)
    requires cell > 0.0 && v <= maxV
    ensures Round((v - (minV - PAD * cell)) / cell) <= Round((maxV - (minV - PAD * cell)) / cell)
  {
    RatioOrder(v - (minV - PAD * cell), maxV - (minV - PAD * cell), cell);
    RoundOrder((v - (minV - PAD * cell)) / cell, (maxV - (minV - PAD * cell)) / cell);
  }

  lemma RoundOrder(u: real, v: real)
    requires u <= v
    ensures Round(u) <= Round(v)
  {
  }

  // Every marked sample is the cell of a point inside the bounds.
  ghost predicate MarksWithin(m: set<Sample>, f: Frame, minP: Point, maxP: Point) {
    Proper(f) && forall p :: p in m ==> exists v :: InBounds(v, minP, maxP) && f.CellOf(v) == p
  }

  lemma MarksArePadded(minP: Point, maxP: Point, cellSizeM: real, lonM: real, m: set<Sample>)
    requires lonM >= 1.0 && ContourGrid(minP, maxP, cellSizeM, lonM).Sized?
    requires MarksWithin(m, ContourGrid(minP, maxP, cellSizeM, lonM).frame, minP, maxP)
    ensures
      var r := ContourGrid(minP, maxP, cellSizeM, lonM);
      forall p :: p in m ==>
        Padded(p, r.nx, r.ny) && p.x <= r.frame.CellOf(maxP).x && p.y <= r.frame.CellOf(maxP).y
  {
    var f := ContourGrid(minP, maxP, cellSizeM, lonM).frame;
    forall p | p in m
      ensures
        var r := ContourGrid(minP, maxP, cellSizeM, lonM);
        Padded(p, r.nx, r.ny) && p.x <= f.CellOf(maxP).x && p.y <= f.CellOf(maxP).y
    {
      var v :| InBounds(v, minP, maxP) && f.CellOf(v) == p;
      AxisPadding(minP.x, maxP.x, f.cw, v.x);
      AxisPadding(minP.y, maxP.y, f.ch, v.y);
      AxisOrder(minP.x, maxP.x, f.cw, v.x);
      AxisOrder(minP.y, maxP.y, f.ch, v.y);
    }
  }

  // Dilation never marks a sample of the first column or row.
  lemma NearBorderIsClear(minP: Point, maxP: Point, cellSizeM: real, lonM: real, m: set<Sample>)
    requires lonM >= 1.0 && ContourGrid(minP, maxP, cellSizeM, lonM).Sized?
    requires MarksWithin(m, ContourGrid(minP, maxP, cellSizeM, lonM).frame, minP, maxP)
    ensures
      var r := ContourGrid(minP, maxP, cellSizeM, lonM);
      forall q :: q in Dilated(m, r.nx, r.ny) ==> 1 <= q.x && 1 <= q.y
  {
    MarksArePadded(minP, maxP, cellSizeM, lonM, m);
  }

  // But when the easternmost point is marked, the dilated raster touches the last column exactly
  // when the width is half a cell or more past a whole number of cells.
  lemma TouchesLastColumnIff(minP: Point, maxP: Point, cellSizeM: real, lonM: real, m: set<Sample>)
    requires Ordered(minP, maxP) && lonM >= 1.0 && ContourGrid(minP, maxP, cellSizeM, lonM).Sized?
    requires
      var f := ContourGrid(minP, maxP, cellSizeM, lonM).frame;
      MarksWithin(m, f, minP, maxP) && exists p :: p in m && p.x == f.CellOf(maxP).x
    ensures
      var r := ContourGrid(minP, maxP, cellSizeM, lonM);
      (exists q :: q in Dilated(m, r.nx, r.ny) && q.x == r.nx - 1) <==> HalfPast(maxP.x - minP.x, r.frame.cw)
  {
    var r := ContourGrid(minP, maxP, cellSizeM, lonM);
    MarksArePadded(minP, maxP, cellSizeM, lonM, m);
    HighestSample(minP.x, maxP.x, r.frame.cw);
    var p :| p in m && p.x == r.frame.CellOf(maxP).x;
    assert Near(p, Sample(p.x + 1, p.y));
    if HalfPast(maxP.x - minP.x, r.frame.cw) {
      assert Sample(p.x + 1, p.y) in Dilated(m, r.nx, r.ny);
    }
  }

  // The same for the last row and the northernmost point.
  lemma TouchesLastRowIff(minP: Point, maxP: Point, cellSizeM: real, lonM: real, m: set<Sample>)
    requires Ordered(minP, maxP) && lonM >= 1.0 && ContourGrid(minP, maxP, cellSizeM, lonM).Sized?
    requires
      var f := ContourGrid(minP, maxP, cellSizeM, lonM).frame;
      MarksWithin(m, f, minP, maxP) && exists p :: p in m && p.y == f.CellOf(maxP).y
    ensures
      var r := ContourGrid(minP, maxP, cellSizeM, lonM);
      (exists q :: q in Dilated(m, r.nx, r.ny) && q.y == r.ny - 1) <==> HalfPast(maxP.y - minP.y, r.frame.ch)
  {
    var r := ContourGrid(minP, maxP, cellSizeM, lonM);
    MarksArePadded(minP, maxP, cellSizeM, lonM, m);
    HighestSample(minP.y, maxP.y, r.frame.ch);
    var p :| p in m && p.y == r.frame.CellOf(maxP).y;
    assert Near(p, Sample(p.x, p.y + 1));
    if HalfPast(maxP.y - minP.y, r.frame.ch) {
      assert Sample(p.x, p.y + 1) in Dilated(m, r.nx, r.ny);
    }
  }

  // ----- segments on the raster

  predicate Padded(p: Sample, nx: int, ny: int) {
    2 <= p.x <= nx - 2 && 2 <= p.y <= ny - 2
  }

  lemma AlongStaysBetween(a: real, b: real, lo: real, hi: real, i: int, steps: int)
    requires lo <= a <= hi && lo <= b <= hi && 0 <= i <= steps && steps >= 1
    ensures lo <= Along(a, b, i, steps) <= hi
  {
    var t := i as real / steps as real;
    RatioNonNegative(i as real, steps as real);
    RatioAtMost(i as real, steps as real, 1.0);
    Between(a, b, lo, hi, t);
  }

  lemma Between(a: real, b: real, lo: real, hi: real, t: real)
    requires lo <= a <= hi && lo <= b <= hi && 0.0 <= t <= 1.0
    ensures lo <= a + (b - a) * t <= hi
  {
    var d := b - a;
    ProductBetween(d, t);
    SumBetween(a, d, d * t, lo, hi);
  }

  lemma SumBetween(a: real, d: real, p: real, lo: real, hi: real)
    requires lo <= a <= hi && lo <= a + d <= hi
    requires (d >= 0.0 ==> 0.0 <= p <= d) && (d <= 0.0 ==> d <= p <= 0.0)
    ensures lo <= a + p <= hi
  {
  }

  lemma ProductBetween(d: real, t: real)
    requires 0.0 <= t <= 1.0
    ensures d >= 0.0 ==> 0.0 <= d * t <= d
    ensures d <= 0.0 ==> d <= d * t <= 0.0
  {
    assert d * t + d * (1.0 - t) == d;
  }

  // On the sized grid no sample of a segment inside the bounds is dropped, and none comes so close
  // to the border that dilation would be clipped.
  lemma TraceIsPadded(minP: Point, maxP: Point, cellSizeM: real, lonM: real, a: Point, b: Point)
    requires lonM >= 1.0 && ContourGrid(minP, maxP, cellSizeM, lonM).Sized?
    requires InBounds(a, minP, maxP) && InBounds(b, minP, maxP)
    ensures
      var r := ContourGrid(minP, maxP, cellSizeM, lonM);
      forall i :: 0 <= i < |Trace(r.frame, a, b)| ==> Padded(Trace(r.frame, a, b)[i], r.nx, r.ny)
  {
    var r := ContourGrid(minP, maxP, cellSizeM, lonM);
    var cells, n := Trace(r.frame, a, b), Steps(r.frame, a, b);
    forall i | 0 <= i < |cells|
      ensures Padded(cells[i], r.nx, r.ny)
    {
      AlongStaysBetween(a.x, b.x, minP.x, maxP.x, i, n);
      AlongStaysBetween(a.y, b.y, minP.y, maxP.y, i, n);
      var p := Stop(r.frame, a, b, i);
      AxisPadding(minP.x, maxP.x, r.frame.cw, p.x);
      AxisPadding(minP.y, maxP.y, r.frame.ch, p.y);
    }
  }

  // So after dilation the samples near a segment form a corridor connected over sides.
  lemma SegmentCorridor(minP: Point, maxP: Point, cellSizeM: real, lonM: real, a: Point, b: Point, m: set<Sample>,
                        p: Sample, q: Sample)
    requires lonM >= 1.0 && ContourGrid(minP, maxP, cellSizeM, lonM).Sized?
    requires InBounds(a, minP, maxP) && InBounds(b, minP, maxP)
    requires
      var r := ContourGrid(minP, maxP, cellSizeM, lonM);
      var cells := Trace(r.frame, a, b);
      && Clipped(cells, r.nx, r.ny) <= m
      && (exists i :: 0 <= i < |cells| && Near(cells[i], p))
      && (exists j :: 0 <= j < |cells| && Near(cells[j], q))
    ensures
      var r := ContourGrid(minP, maxP, cellSizeM, lonM);
      Walkable(Dilated(m, r.nx, r.ny), p, q)
  {
    var r := ContourGrid(minP, maxP, cellSizeM, lonM);
    var cells := Trace(r.frame, a, b);
    TraceIsPadded(minP, maxP, cellSizeM, lonM, a, b);
    TraceIsConnected(r.frame, a, b);
    forall k | 0 <= k < |cells|
      ensures cells[k] in m && 1 <= cells[k].x < r.nx - 1 && 1 <= cells[k].y < r.ny - 1
    {
      assert Padded(cells[k], r.nx, r.ny);
      assert cells[k] in Clipped(cells, r.nx, r.ny);
    }
    CorridorIsConnected(m, r.nx, r.ny, cells, p, q);
  }

  // ----- the part of the network within a budget

  datatype Segment = Segment(a: Point, b: Point)

  function Fraction(a: Point, b: Point, f: real): Point {
    Point(a.x + (b.x - a.x) * f, a.y + (b.y - a.y) * f)
  }

  // One contour pass: the network, where its nodes lie, what its edges cost, the labels of the
  // search and the budget.
  datatype Reach = Reach(g: Graph, pts: seq<Point>, cost: seq<real>, labels: seq<Cost>, cutoff: real) {
    ghost predicate Valid() {
      Indexed(g) && |pts| == |labels| == g.n && |cost| == |g.edges|
    }

    predicate Reached(v: int) {
      0 <= v < |labels| && AtMost(labels[v], cutoff)
    }

    // The segment of edge e up to the fraction f of it.
    function Part(e: int, f: real): Segment
      requires Valid() && IsEdge(g, e)
    {
      Segment(pts[g.edges[e].from], Fraction(pts[g.edges[e].from], pts[g.edges[e].to], f))
    }

    // What contourForCutoff keeps of edge e: all of it, the part up to the cutoff, or nothing.
    function CutEdge(e: int): seq<Segment>
      requires Valid() && IsEdge(g, e)
    {
      var u, v, c := g.edges[e].from, g.edges[e].to, cost[e];
      if !Reached(u) then []
      else if labels[u].v + c <= cutoff && Reached(v) then [Segment(pts[u], pts[v])]
      else if c > 0.0 && (cutoff - labels[u].v) / c > 0.0 then [Part(e, (cutoff - labels[u].v) / c)]
      else []
    }

    // The fraction of the edge that is kept.
    function KeptFraction(e: int): real
      requires Valid() && IsEdge(g, e) && Reached(g.edges[e].from)
    {
      var cu, c := labels[g.edges[e].from].v, cost[e];
      if cu + c <= cutoff then 1.0 else if c > 0.0 then (cutoff - cu) / c else 0.0
    }
  }

  // The labels are those of a search from the seeds up to maxCut, which is at least the budget.
  ghost predicate LabelsFrom(x: Reach, seeds: seq<Seed>, maxCut: real) {
    && x.Valid() && NonNegative(x.g, x.cost) && 0.0 < x.cutoff <= maxCut
    && forall v :: IsNode(x.g, v) ==>
         Sound(x.g, x.cost, seeds, v, x.labels[v]) && Least(x.g, x.cost, seeds, maxCut, v, x.labels[v])
  }

  // The cost at fraction t of an edge that is entered at cost cu.
  function PartWay(cu: real, c: real, t: real): real {
    cu + t * c
  }

  // With labels of a search up to a larger cutoff, an edge out of a reached node is kept exactly
  // as far as one gets along it within the budget.
  lemma KeptIsReachable(x: Reach, seeds: seq<Seed>, maxCut: real, e: int)
    requires LabelsFrom(x, seeds, maxCut) && IsEdge(x.g, e) && x.Reached(x.g.edges[e].from)
    ensures
      var f := x.KeptFraction(e);
      && 0.0 <= f <= 1.0
      && |x.CutEdge(e)| == (if f > 0.0 then 1 else 0)
      && (f > 0.0 ==>
            var s, pu, pv := x.CutEdge(e)[0], x.pts[x.g.edges[e].from], x.pts[x.g.edges[e].to];
            s.a == pu && s.b.x - pu.x == (pv.x - pu.x) * f && s.b.y - pu.y == (pv.y - pu.y) * f)
      && (forall t :: 0.0 <= t <= 1.0 ==>
            (PartWay(x.labels[x.g.edges[e].from].v, x.cost[e], t) <= x.cutoff <==> t <= f))
  {
    var u, v, c := x.g.edges[e].from, x.g.edges[e].to, x.cost[e];
    var cu := x.labels[u].v;
    if cu + c <= x.cutoff {
      FarEndReached(x, seeds, maxCut, e);
      assert Fraction(x.pts[u], x.pts[v], 1.0) == x.pts[v];
      WholeEdge(cu, c, x.cutoff);
    } else {
      PartEdge(cu, c, x.cutoff);
    }
  }

  // A kept segment begins at the node the edge leaves and ends where the budget does: at the far node
  // when it is reached along the edge, otherwise at the share of the edge that the budget pays for.
  lemma KeptEndsWithBudget(x: Reach, e: int, s: Segment)
    requires x.Valid() && IsEdge(x.g, e) && s in x.CutEdge(e)
    ensures
      var u, v, c := x.g.edges[e].from, x.g.edges[e].to, x.cost[e];
      && s.a == x.pts[u] && AtMost(x.labels[u], x.cutoff)
      && if x.labels[u].v + c <= x.cutoff && AtMost(x.labels[v], x.cutoff) then s.b == x.pts[v]
         else
           && c > 0.0 && x.labels[u].v < x.cutoff
           && (s.b.x - s.a.x) * c == (x.pts[v].x - x.pts[u].x) * (x.cutoff - x.labels[u].v)
           && (s.b.y - s.a.y) * c == (x.pts[v].y - x.pts[u].y) * (x.cutoff - x.labels[u].v)
  {
    var u, v, c := x.g.edges[e].from, x.g.edges[e].to, x.cost[e];
    if !(x.labels[u].v + c <= x.cutoff && AtMost(x.labels[v], x.cutoff)) {
      ShareOfEdge(x.pts[v].x - x.pts[u].x, x.cutoff - x.labels[u].v, c);
      ShareOfEdge(x.pts[v].y - x.pts[u].y, x.cutoff - x.labels[u].v, c);
    }
  }

  lemma ShareOfEdge(d: real, left: real, c: real)
    requires c > 0.0
    ensures d * (left / c) * c == d * left && (left / c > 0.0 ==> left > 0.0)
  {
    assert left / c * c == left;
  }

  lemma WholeEdge(cu: real, c: real, cutoff: real)
    requires c >= 0.0 && cu + c <= cutoff
    ensures forall t :: 0.0 <= t <= 1.0 ==> PartWay(cu, c, t) <= cutoff
  {
    forall t | 0.0 <= t <= 1.0
      ensures PartWay(cu, c, t) <= cutoff
    {
      ProductBetween(c, t);
      assert PartWay(cu, c, t) == cu + c * t;
    }
  }

  lemma PartEdge(cu: real, c: real, cutoff: real)
    requires c > 0.0 && cu <= cutoff < cu + c
    ensures 0.0 <= (cutoff - cu) / c <= 1.0
    ensures forall t :: 0.0 <= t <= 1.0 ==> (PartWay(cu, c, t) <= cutoff <==> t <= (cutoff - cu) / c)
  {
    var f := (cutoff - cu) / c;
    assert f * c == cutoff - cu;
    RatioNonNegative(cutoff - cu, c);
    RatioAtMost(cutoff - cu, c, 1.0);
    forall t | 0.0 <= t <= 1.0
      ensures PartWay(cu, c, t) <= cutoff <==> t <= f
    {
      SameOrder(t, f, c);
    }
  }

  lemma SameOrder(t: real, f: real, c: real)
    requires c > 0.0
    ensures t * c <= f * c <==> t <= f
  {
    assert (f - t) * c == f * c - t * c;
  }

  lemma FarEndReached(x: Reach, seeds: seq<Seed>, maxCut: real, e: int)
    requires LabelsFrom(x, seeds, maxCut) && IsEdge(x.g, e) && x.Reached(x.g.edges[e].from)
    requires x.labels[x.g.edges[e].from].v + x.cost[e] <= x.cutoff
    ensures x.Reached(x.g.edges[e].to)
  {
    var u, v := x.g.edges[e].from, x.g.edges[e].to;
    assert IsNode(x.g, u) && IsNode(x.g, v);
    var k, p :| SeedWalk(x.g, x.cost, seeds, k, p, u, x.labels[u].v);
    WalkOn(x.g, x.cost, seeds, k, p, e, x.labels[u].v);
  }

  // ----- collecting the segments

  datatype Bounds = Nothing | Bounds(minP: Point, maxP: Point)

  function Grow(b: Bounds, p: Point): Bounds {
    if b.Nothing? then Bounds(p, p)
    else Bounds(Point(Min(b.minP.x, p.x), Min(b.minP.y, p.y)), Point(Max(b.maxP.x, p.x), Max(b.maxP.y, p.y)))
  }

  // The least box that holds the points: every side goes through one of them.
  ghost predicate BoxOf(b: Bounds, s: set<Point>) {
    if s == {} then b.Nothing?
    else
      && b.Bounds?
      && (forall p :: p in s ==> InBounds(p, b.minP, b.maxP))
      && (exists p :: p in s && p.x == b.minP.x) && (exists p :: p in s && p.x == b.maxP.x)
      && (exists p :: p in s && p.y == b.minP.y) && (exists p :: p in s && p.y == b.maxP.y)
  }

  lemma BoxIsUnique(b: Bounds, c: Bounds, s: set<Point>)
    requires BoxOf(b, s) && BoxOf(c, s)
    ensures b == c
  {
    if s != {} {
      assert b.minP == c.minP && b.maxP == c.maxP;
    }
  }

  lemma GrowBox(b: Bounds, s: set<Point>, p: Point)
    requires BoxOf(b, s)
    ensures BoxOf(Grow(b, p), s + {p})
  {
    var c := Grow(b, p);
    assert p in s + {p};
    if s != {} {
      var west :| west in s && west.x == b.minP.x;
      var east :| east in s && east.x == b.maxP.x;
      var south :| south in s && south.y == b.minP.y;
      var north :| north in s && north.y == b.maxP.y;
      assert {west, east, south, north} <= s + {p};
      assert c.minP.x == west.x || c.minP.x == p.x;
      assert c.maxP.x == east.x || c.maxP.x == p.x;
      assert c.minP.y == south.y || c.minP.y == p.y;
      assert c.maxP.y == north.y || c.maxP.y == p.y;
    }
  }

  ghost predicate Kept(x: Reach, e: int, s: Segment) {
    x.Valid() && IsEdge(x.g, e) && s in x.CutEdge(e)
  }

  // The segments are exactly the kept parts of the edges.
  ghost predicate KeptSegments(x: Reach, segs: seq<Segment>) {
    forall s :: s in segs <==> exists e :: Kept(x, e, s)
  }

  ghost predicate Collected(x: Reach, done: set<int>, segs: seq<Segment>) {
    && (forall s :: s in segs ==> exists e :: e in done && Kept(x, e, s))
    && (forall e, s :: e in done && Kept(x, e, s) ==> s in segs)
  }

  // The ends of the segments, and the first n nodes as far as they are reached.
  ghost function EndsOf(segs: seq<Segment>): set<Point> {
    (set s | s in segs :: s.a) + (set s | s in segs :: s.b)
  }

  ghost function ReachedPoints(x: Reach, n: nat): set<Point>
    requires n <= |x.pts|
  {
    if n == 0 then {} else ReachedPoints(x, n - 1) + (if x.Reached(n - 1) then {x.pts[n - 1]} else {})
  }

  // How many of the first n nodes are within the cutoff.
  ghost function ReachedCount(x: Reach, n: nat): nat {
    if n == 0 then 0 else ReachedCount(x, n - 1) + (if x.Reached(n - 1) then 1 else 0)
  }

  ghost function ReachedNodes(x: Reach, n: nat): set<int> {
    set v | v in Below(n) && x.Reached(v)
  }

  lemma ReachedNodesNext(x: Reach, n: nat)
    ensures ReachedNodes(x, n + 1) == ReachedNodes(x, n) + (if x.Reached(n) then {n} else {})
    ensures n !in ReachedNodes(x, n)
  {
    hide Below, Reach.Reached;
  }

  // That is the size of the set of these nodes.
  lemma {:induction false} ReachedCountIs(x: Reach, n: nat)
    ensures ReachedCount(x, n) == |ReachedNodes(x, n)|
  {
    hide Below, Reach.Reached;
    if n == 0 {
      assert ReachedNodes(x, 0) == {};
    } else {
      ReachedCountIs(x, n - 1);
      ReachedNodesNext(x, n - 1);
      hide ReachedNodes;
    }
  }

  predicate AllHeld(b: Bounds, segs: seq<Segment>) {
    forall k :: 0 <= k < |segs| ==>
      b.Bounds? && InBounds(segs[k].a, b.minP, b.maxP) && InBounds(segs[k].b, b.minP, b.maxP)
  }

  lemma BoxHolds(b: Bounds, known: set<Point>, segs: seq<Segment>)
    requires BoxOf(b, known + EndsOf(segs))
    ensures AllHeld(b, segs) && (segs != [] ==> b.Bounds?)
  {
    assert segs != [] ==> segs[0].a in EndsOf(segs);
    forall k | 0 <= k < |segs|
      ensures b.Bounds? && InBounds(segs[k].a, b.minP, b.maxP) && InBounds(segs[k].b, b.minP, b.maxP)
    {
      assert segs[k] in segs;
      assert segs[k].a in EndsOf(segs) && segs[k].b in EndsOf(segs);
    }
  }

  lemma CollectOne(x: Reach, done: set<int>, segs: seq<Segment>, e: int)
    requires x.Valid() && IsEdge(x.g, e) && Collected(x, done, segs)
    ensures Collected(x, done + {e}, segs + x.CutEdge(e))
  {
    var more := x.CutEdge(e);
    forall s | s in segs + more
      ensures exists f :: f in done + {e} && Kept(x, f, s)
    {
      if s in more {
        assert Kept(x, e, s);
      } else {
        var f :| f in done && Kept(x, f, s);
        assert f in done + {e};
      }
    }
  }

  lemma GrowSegment(b: Bounds, known: set<Point>, segs: seq<Segment>, p: Point, q: Point)
    requires BoxOf(b, known + EndsOf(segs)) && p in known
    ensures BoxOf(Grow(b, q), known + EndsOf(segs + [Segment(p, q)]))
  {
    hide BoxOf;
    GrowBox(b, known + EndsOf(segs), q);
    EndsNext(segs, Segment(p, q));
    assert known + EndsOf(segs + [Segment(p, q)]) == known + EndsOf(segs) + {q};
  }

  lemma EndsNext(segs: seq<Segment>, s: Segment)
    ensures EndsOf(segs + [s]) == EndsOf(segs) + {s.a, s.b}
  {
    assert forall t :: t in segs + [s] <==> t in segs || t == s;
    assert s in segs + [s];
  }

  lemma GrowNode(x: Reach, b: Bounds, u: nat, segs: seq<Segment>)
    requires u < |x.pts| && x.Reached(u) && BoxOf(b, ReachedPoints(x, u) + EndsOf(segs))
    ensures BoxOf(Grow(b, x.pts[u]), ReachedPoints(x, u + 1) + EndsOf(segs))
    ensures x.pts[u] in ReachedPoints(x, u + 1)
  {
    hide BoxOf, EndsOf;
    GrowBox(b, ReachedPoints(x, u) + EndsOf(segs), x.pts[u]);
    assert ReachedPoints(x, u + 1) + EndsOf(segs) == ReachedPoints(x, u) + EndsOf(segs) + {x.pts[u]};
  }

  // The two loops over nodes and edges: the segments are exactly what is kept of the edges, and
  // the bounds are the least box around them and the reached nodes.
  method CollectSegments(x: Reach, ctxErr: nat -> bool)
      returns (cancelled: bool, reached: nat, segs: seq<Segment>, bounds: Bounds)
    requires x.Valid()
    ensures cancelled ==> exists k :: ctxErr(k)
    ensures !cancelled ==> KeptSegments(x, segs) && BoxOf(bounds, ReachedPoints(x, x.g.n) + EndsOf(segs))
    ensures !cancelled ==> reached == ReachedCount(x, x.g.n)
    ensures !cancelled ==> (reached == 0 ==> segs == [])
  {
    hide Collected, Kept, KeptSegments, BoxOf, EndsOf, Indexed;
    var g := x.g;
    cancelled, reached, segs, bounds := false, 0, [], Nothing;
    ghost var done: set<int> := {};
    CollectNone(x);
    for u := 0 to g.n
      invariant Collected(x, done, segs) && BoxOf(bounds, ReachedPoints(x, u) + EndsOf(segs))
      invariant forall e :: IsEdge(g, e) && 0 <= g.edges[e].from < u && x.Reached(g.edges[e].from) ==> e in done
      invariant reached == ReachedCount(x, u)
      invariant reached == 0 ==> segs == []
    {
      if u % CANCEL_CHECK_INTERVAL == 0 && ctxErr(u / CANCEL_CHECK_INTERVAL) {
        cancelled := true;
        return;
      }
      if !AtMost(x.labels[u], x.cutoff) {
        assert ReachedPoints(x, u + 1) == ReachedPoints(x, u);
        continue;
      }
      reached := reached + 1;
      GrowNode(x, bounds, u, segs);
      bounds := Grow(bounds, x.pts[u]);
      ghost var before := done;
      ghost var known := ReachedPoints(x, u + 1);
      AdjacencyInStep(x);
      for i := 0 to |g.adj[u]|
        invariant Collected(x, done, segs) && BoxOf(bounds, known + EndsOf(segs))
        invariant before <= done && forall j :: 0 <= j < i ==> g.adj[u][j] in done
      {
        var e := g.adj[u][i];
        OutEdge(g, u, i);
        var c, cu := x.cost[e], x.labels[u].v;
        var pu, pv := x.pts[u], x.pts[g.edges[e].to];
        CollectOne(x, done, segs, e);
        done := done + {e};
        assert segs + [] == segs;
        if cu + c <= x.cutoff && AtMost(x.labels[g.edges[e].to], x.cutoff) {
          GrowSegment(bounds, known, segs, pu, pv);
          segs := segs + [Segment(pu, pv)];
          bounds := Grow(bounds, pv);
        } else if c > 0.0 {
          var f := (x.cutoff - cu) / c;
          if f > 0.0 {
            var mid := Fraction(pu, pv, f);
            GrowSegment(bounds, known, segs, pu, mid);
            segs := segs + [Segment(pu, mid)];
            bounds := Grow(bounds, mid);
          }
        }
      }
      AllEdgesOf(x, u, done);
    }
    CollectedAll(x, done, segs);
  }

  lemma CollectNone(x: Reach)
    ensures Collected(x, {}, []) && BoxOf(Nothing, {} + EndsOf([]))
  {
  }

  lemma AdjacencyInStep(x: Reach)
    requires x.Valid()
    ensures |x.g.adj| == x.g.n
  {
  }

  lemma AllEdgesOf(x: Reach, u: int, done: set<int>)
    requires x.Valid() && IsNode(x.g, u) && forall j :: 0 <= j < |x.g.adj[u]| ==> x.g.adj[u][j] in done
    ensures forall e :: IsEdge(x.g, e) && x.g.edges[e].from == u ==> e in done
  {
    forall e | IsEdge(x.g, e) && x.g.edges[e].from == u
      ensures e in done
    {
      assert e in x.g.adj[u];
    }
  }

  lemma CollectedAll(x: Reach, done: set<int>, segs: seq<Segment>)
    requires x.Valid() && Collected(x, done, segs)
    requires forall e :: IsEdge(x.g, e) && 0 <= x.g.edges[e].from < x.g.n && x.Reached(x.g.edges[e].from) ==> e in done
    ensures KeptSegments(x, segs)
  {
  }

  // ----- contourForCutoff

  datatype Outcome = Cancelled | NoContour | Refused | Contour(rings: seq<seq<VKey>>)

  // The samples a segment passes through.
  ghost predicate OnTrace(f: Frame, s: Segment, p: Sample) {
    Proper(f) && p in Trace(f, s.a, s.b)
  }

  ghost predicate MarksOf(m: set<Sample>, f: Frame, segs: seq<Segment>) {
    forall p :: p in m <==> exists s :: s in segs && OnTrace(f, s, p)
  }

  lemma MarkNext(m: set<Sample>, f: Frame, segs: seq<Segment>, next: Segment, more: set<Sample>)
    requires MarksOf(m, f, segs)
    requires forall p :: p in more <==> OnTrace(f, next, p)
    ensures MarksOf(m + more, f, segs + [next])
  {
    hide OnTrace;
    forall p
      ensures p in m + more <==> exists s :: s in segs + [next] && OnTrace(f, s, p)
    {
      if p in m {
        var s :| s in segs && OnTrace(f, s, p);
        assert s in segs + [next];
      }
      assert next in segs + [next];
    }
  }

  lemma NothingDropped(minP: Point, maxP: Point, cellSizeM: real, lonM: real, a: Point, b: Point)
    requires lonM >= 1.0 && ContourGrid(minP, maxP, cellSizeM, lonM).Sized?
    requires InBounds(a, minP, maxP) && InBounds(b, minP, maxP)
    ensures
      var r := ContourGrid(minP, maxP, cellSizeM, lonM);
      forall p :: p in Clipped(Trace(r.frame, a, b), r.nx, r.ny) <==> OnTrace(r.frame, Segment(a, b), p)
  {
    var r := ContourGrid(minP, maxP, cellSizeM, lonM);
    TraceIsPadded(minP, maxP, cellSizeM, lonM, a, b);
    forall p | p in Trace(r.frame, a, b)
      ensures Inside(p, r.nx, r.ny)
    {
      var i :| 0 <= i < |Trace(r.frame, a, b)| && Trace(r.frame, a, b)[i] == p;
      assert Padded(p, r.nx, r.ny);
    }
  }

  // The rings run exactly between the samples within one cell of a segment and the others, each
  // around one piece.
  ghost predicate RingsAround(rings: seq<seq<VKey>>, r: Sizing, segs: seq<Segment>) {
    && r.Sized? && AllClosed(rings) && Apart(rings)
    && exists m ::
         && MarksOf(m, r.frame, segs)
         && (forall p :: OnRing(rings, p) <==> Crossing(Dilated(m, r.nx, r.ny), p))
         && (forall k :: 0 <= k < |rings| ==> AroundOnePiece(Dilated(m, r.nx, r.ny), rings[k]))
  }

  // Rasterizing, dilating and contouring the collected segments; no sample of any is dropped.
  method ContourSegments(segs: seq<Segment>, minP: Point, maxP: Point, cellSizeM: real, lonM: real)
      returns (out: Outcome)
    requires lonM >= 1.0 && AllHeld(Bounds(minP, maxP), segs)
    ensures
      var r := ContourGrid(minP, maxP, cellSizeM, lonM);
      if r.Sized? then out.Contour? && RingsAround(out.rings, r, segs) else out == Refused
  {
    hide OnTrace, Trace, Dilated, OnRing, Crossing, AllClosed, Apart, ContourGrid, MarksOf, Clipped, AroundOnePiece;
    var r := ContourGrid(minP, maxP, cellSizeM, lonM);
    if !r.Sized? {
      return Refused;
    }
    var grid := new Grid(r.nx, r.ny, r.frame);
    NoMarks(r.frame, segs);
    for k := 0 to |segs|
      invariant fresh(grid) && grid.Valid() && fresh(grid.v)
      invariant MarksOf(grid.Marked(), r.frame, segs[..k])
    {
      var s := segs[k];
      ghost var before := grid.Marked();
      NothingDropped(minP, maxP, cellSizeM, lonM, s.a, s.b);
      MarkNext(before, r.frame, segs[..k], s, Clipped(Trace(r.frame, s.a, s.b), r.nx, r.ny));
      assert segs[..k] + [s] == segs[..k + 1];
      grid.MarkSegment(s.a, s.b);
    }
    assert segs[..|segs|] == segs;
    ghost var m := grid.Marked();
    grid.DilateMarks();
    var rings, _, _, _ := grid.Contours();
    out := Contour(rings);
  }

  lemma NoMarks(f: Frame, segs: seq<Segment>)
    ensures MarksOf({}, f, segs[..0])
  {
  }

  // The sizing of the raster for these bounds; scale gives the metres in a degree of longitude.
  function SizingFor(b: Bounds, cellSizeM: real, scale: real -> real): Sizing
    requires b.Bounds?
  {
    ContourGrid(b.minP, b.maxP, cellSizeM, Max(scale((b.minP.y + b.maxP.y) / 2.0), 1.0))
  }

  // Degrees of longitude are measured at the latitude halfway up the box.
  lemma MeasuredHalfway(b: Bounds, cellSizeM: real, scale: real -> real, lat: real)
    requires b.Bounds? && lat - b.minP.y == b.maxP.y - lat
    ensures SizingFor(b, cellSizeM, scale) == ContourGrid(b.minP, b.maxP, cellSizeM, Max(scale(lat), 1.0))
  {
    assert (b.minP.y + b.maxP.y) / 2.0 == lat;
  }

  // The result of an undisturbed pass.
  ghost predicate PassResult(x: Reach, cellSizeM: real, scale: real -> real, out: Outcome, reached: nat,
                             segs: seq<Segment>, b: Bounds)
    requires x.Valid()
  {
    && KeptSegments(x, segs) && BoxOf(b, ReachedPoints(x, x.g.n) + EndsOf(segs))
    && match out
       case Cancelled => false
       case NoContour => segs == [] && reached == ReachedCount(x, x.g.n)
       case Refused => segs != [] && b.Bounds? && !SizingFor(b, cellSizeM, scale).Sized? && reached == 0
       case Contour(rings) =>
         && segs != [] && b.Bounds? && SizingFor(b, cellSizeM, scale).Sized?
         && RingsAround(rings, SizingFor(b, cellSizeM, scale), segs) && reached == ReachedCount(x, x.g.n)
  }

  // One contour: the part of the network within the cutoff is collected, rasterized and contoured.
  method ContourForCutoff(x: Reach, cellSizeM: real, scale: real -> real, ctxErr: nat -> bool)
      returns (out: Outcome, reached: nat, ghost segs: seq<Segment>, ghost bounds: Bounds)
    requires x.Valid()
    ensures out.Cancelled? ==> exists k :: ctxErr(k)
    ensures out.NoContour? || out.Contour? ==> reached == ReachedCount(x, x.g.n)
    ensures !out.Cancelled? ==> PassResult(x, cellSizeM, scale, out, reached, segs, bounds)
  {
    hide KeptSegments, BoxOf, EndsOf, AllHeld, RingsAround, ContourGrid, Indexed;
    var cancelled, drawn, box;
    cancelled, reached, drawn, box := CollectSegments(x, ctxErr);
    segs, bounds := drawn, box;
    if cancelled {
      return Cancelled, 0, segs, bounds;
    }
    BoxHolds(box, ReachedPoints(x, x.g.n), drawn);
    if reached == 0 || |drawn| == 0 {
      return NoContour, reached, segs, bounds;
    }
    var lonM := Max(scale((box.minP.y + box.maxP.y) / 2.0), 1.0);
    out := ContourSegments(drawn, box.minP, box.maxP, cellSizeM, lonM);
    if out.Refused? {
      reached := 0;
    }
  }

  // ----- one search for all budgets

  // The same pass with the labels of another search.
  ghost predicate SamePass(x: Reach, y: Reach) {
    x.Valid() && y == x.(labels := y.labels) && |y.labels| == |x.labels|
  }

  // The labels of a search up to a larger cutoff cut every edge where the labels of a search up
  // to the budget itself do.
  lemma SameCut(x: Reach, y: Reach, seeds: seq<Seed>, maxCut: real)
    requires SamePass(x, y) && LabelsFrom(x, seeds, maxCut) && LabelsFrom(y, seeds, x.cutoff)
    ensures forall v :: IsNode(x.g, v) ==> (x.Reached(v) <==> y.Reached(v))
    ensures forall e :: IsEdge(x.g, e) ==> x.CutEdge(e) == y.CutEdge(e)
  {
    forall v | IsNode(x.g, v)
      ensures x.Reached(v) <==> y.Reached(v)
      ensures x.Reached(v) ==> x.labels[v] == y.labels[v]
    {
      SameLabel(x.g, x.cost, seeds, maxCut, x.cutoff, v, x.labels[v], y.labels[v]);
    }
  }

  lemma SameLabel(g: Graph, cost: seq<real>, seeds: seq<Seed>, maxCut: real, cutoff: real, v: int, a: Cost, b: Cost)
    requires 0.0 < cutoff <= maxCut
    requires Sound(g, cost, seeds, v, a) && Least(g, cost, seeds, maxCut, v, a)
    requires Sound(g, cost, seeds, v, b) && Least(g, cost, seeds, cutoff, v, b)
    ensures (AtMost(a, cutoff) <==> AtMost(b, cutoff)) && (AtMost(a, cutoff) ==> a == b)
  {
    if AtMost(a, cutoff) {
      var k, p :| SeedWalk(g, cost, seeds, k, p, v, a.v);
    }
    if AtMost(b, cutoff) {
      var k, p :| SeedWalk(g, cost, seeds, k, p, v, b.v);
    }
  }

  lemma SamePoints(x: Reach, y: Reach, n: nat)
    requires n <= |x.pts| && x.pts == y.pts
    requires forall v :: 0 <= v < n ==> (x.Reached(v) <==> y.Reached(v))
    ensures ReachedPoints(x, n) == ReachedPoints(y, n) && ReachedCount(x, n) == ReachedCount(y, n)
  {
  }

  // So the whole contour is the one a search up to the budget would give: the same outcome, the
  // same count, the same bounds, and rings through the same points.
  lemma SameContour(x: Reach, y: Reach, seeds: seq<Seed>, maxCut: real, cellSizeM: real, scale: real -> real,
                    a: Outcome, n: nat, segs: seq<Segment>, b: Bounds,
                    a': Outcome, n': nat, segs': seq<Segment>, b': Bounds)
    requires SamePass(x, y) && LabelsFrom(x, seeds, maxCut) && LabelsFrom(y, seeds, x.cutoff)
    requires PassResult(x, cellSizeM, scale, a, n, segs, b) && PassResult(y, cellSizeM, scale, a', n', segs', b')
    ensures n == n' && b == b' && (a.NoContour? <==> a'.NoContour?) && (a.Contour? <==> a'.Contour?)
    ensures a.Contour? ==> forall p :: OnRing(a.rings, p) <==> OnRing(a'.rings, p)
  {
    hide LabelsFrom, BoxOf, RingsAround, ContourGrid, Indexed, KeptSegments, EndsOf, ReachedPoints, ReachedCount,
      Reach.CutEdge, OnRing;
    SameCut(x, y, seeds, maxCut);
    SameSegments(x, y, segs, segs');
    SamePoints(x, y, x.g.n);
    SameEnds(segs, segs');
    BoxIsUnique(b, b', ReachedPoints(x, x.g.n) + EndsOf(segs));
    if a.Contour? {
      SameRings(a.rings, a'.rings, SizingFor(b, cellSizeM, scale), segs, segs');
    }
  }

  lemma SameSegments(x: Reach, y: Reach, segs: seq<Segment>, segs': seq<Segment>)
    requires SamePass(x, y) && KeptSegments(x, segs) && KeptSegments(y, segs')
    requires forall e :: IsEdge(x.g, e) ==> x.CutEdge(e) == y.CutEdge(e)
    ensures forall s :: s in segs <==> s in segs'
  {
    assert forall e, s :: Kept(x, e, s) <==> Kept(y, e, s);
  }

  lemma SameEnds(segs: seq<Segment>, segs': seq<Segment>)
    requires forall s :: s in segs <==> s in segs'
    ensures EndsOf(segs) == EndsOf(segs') && (segs == [] <==> segs' == [])
  {
    assert segs != [] ==> segs[0] in segs;
    assert segs' != [] ==> segs'[0] in segs';
  }

  lemma SameRings(rings: seq<seq<VKey>>, rings': seq<seq<VKey>>, r: Sizing, segs: seq<Segment>, segs': seq<Segment>)
    requires forall s :: s in segs <==> s in segs'
    requires RingsAround(rings, r, segs) && RingsAround(rings', r, segs')
    ensures forall p :: OnRing(rings, p) <==> OnRing(rings', p)
  {
    hide OnRing, AllClosed, Apart, Crossing, Dilated, OnTrace;
    var m :| MarksOf(m, r.frame, segs) && forall p :: OnRing(rings, p) <==> Crossing(Dilated(m, r.nx, r.ny), p);
    var m' :| MarksOf(m', r.frame, segs') && forall p :: OnRing(rings', p) <==> Crossing(Dilated(m', r.nx, r.ny), p);
    assert m == m';
  }

  // ----- the whole corridor of one origin

  // The last edge of a walk within the budget is kept whole.
  lemma LastEdgeKept(x: Reach, seeds: seq<Seed>, maxCut: real, k: int, p: seq<int>, t: int, total: real)
    requires LabelsFrom(x, seeds, maxCut) && SeedWalk(x.g, x.cost, seeds, k, p, t, total) && total <= x.cutoff
    requires p != []
    ensures
      var e := p[|p| - 1];
      && IsEdge(x.g, e) && x.g.edges[e].to == t
      && SeedWalk(x.g, x.cost, seeds, k, p[..|p| - 1], x.g.edges[e].from, total - x.cost[e])
      && total - x.cost[e] <= x.cutoff
      && x.CutEdge(e) == [Segment(x.pts[x.g.edges[e].from], x.pts[t])]
  {
    var e := p[|p| - 1];
    var u := x.g.edges[e].from;
    assert SeedWalk(x.g, x.cost, seeds, k, p[..|p| - 1], u, total - x.cost[e]);
    assert IsNode(x.g, u) && IsNode(x.g, t);
    assert AtMost(x.labels[u], total - x.cost[e]);
    FarEndReached(x, seeds, maxCut, e);
  }

  // A walk within the budget that goes anywhere leaves its origin along a kept segment.
  lemma {:induction false} OriginIsEnd(x: Reach, seeds: seq<Seed>, maxCut: real, k: int, p: seq<int>, t: int,
                                       total: real)
    requires LabelsFrom(x, seeds, maxCut) && SeedWalk(x.g, x.cost, seeds, k, p, t, total) && total <= x.cutoff
    requires p != []
    ensures IsNode(x.g, seeds[k].node)
    ensures exists e, s :: Kept(x, e, s) && s.a == x.pts[seeds[k].node]
    decreases |p|
  {
    var e := p[|p| - 1];
    LastEdgeKept(x, seeds, maxCut, k, p, t, total);
    var s := Segment(x.pts[x.g.edges[e].from], x.pts[t]);
    assert s in x.CutEdge(e);
    assert Kept(x, e, s);
    if |p| > 1 {
      OriginIsEnd(x, seeds, maxCut, k, p[..|p| - 1], x.g.edges[e].from, total - x.cost[e]);
    }
  }

  ghost predicate NearTrace(f: Frame, s: Segment, p: Sample) {
    Proper(f) && exists i :: 0 <= i < |Trace(f, s.a, s.b)| && Near(Trace(f, s.a, s.b)[i], p)
  }

  ghost predicate BothWays(d: set<Sample>, p: Sample, q: Sample) {
    Walkable(d, p, q) && Walkable(d, q, p)
  }

  lemma BothWaysTrans(d: set<Sample>, p: Sample, q: Sample, r: Sample)
    requires BothWays(d, p, q) && BothWays(d, q, r)
    ensures BothWays(d, p, r)
  {
    WalkableTrans(d, p, q, r);
    WalkableTrans(d, r, q, p);
  }

  // From its first end one can walk to everything near a segment and back, inside d.
  ghost predicate Crossable(f: Frame, d: set<Sample>, s: Segment) {
    Proper(f) && forall p :: NearTrace(f, s, p) ==> BothWays(d, f.CellOf(s.a), p)
  }

  lemma EndsAreNear(f: Frame, s: Segment)
    requires Proper(f)
    ensures NearTrace(f, s, f.CellOf(s.a)) && NearTrace(f, s, f.CellOf(s.b))
    ensures OnTrace(f, s, f.CellOf(s.a)) && OnTrace(f, s, f.CellOf(s.b))
  {
    TraceIsConnected(f, s.a, s.b);
    var cells := Trace(f, s.a, s.b);
    assert Near(cells[0], f.CellOf(s.a)) && Near(cells[Steps(f, s.a, s.b)], f.CellOf(s.b));
  }

  lemma KeptIsCrossable(b: Bounds, cellSizeM: real, lonM: real, segs: seq<Segment>, m: set<Sample>, s: Segment)
    requires b.Bounds? && lonM >= 1.0 && AllHeld(b, segs) && s in segs
    requires ContourGrid(b.minP, b.maxP, cellSizeM, lonM).Sized?
    requires MarksOf(m, ContourGrid(b.minP, b.maxP, cellSizeM, lonM).frame, segs)
    ensures
      var r := ContourGrid(b.minP, b.maxP, cellSizeM, lonM);
      Crossable(r.frame, Dilated(m, r.nx, r.ny), s)
  {
    hide ContourGrid, Dilated, Trace, Walkable;
    var r := ContourGrid(b.minP, b.maxP, cellSizeM, lonM);
    var k :| 0 <= k < |segs| && segs[k] == s;
    var cells := Clipped(Trace(r.frame, s.a, s.b), r.nx, r.ny);
    assert forall c :: c in cells ==> OnTrace(r.frame, s, c);
    EndsAreNear(r.frame, s);
    var c := r.frame.CellOf(s.a);
    forall p | NearTrace(r.frame, s, p)
      ensures BothWays(Dilated(m, r.nx, r.ny), c, p)
    {
      SegmentCorridor(b.minP, b.maxP, cellSizeM, lonM, s.a, s.b, m, c, p);
      SegmentCorridor(b.minP, b.maxP, cellSizeM, lonM, s.a, s.b, m, p, c);
    }
  }

  // Along a walk within the budget one gets back to the origin inside the corridor.
  lemma {:induction false} BackToOrigin(x: Reach, o: int, maxCut: real, segs: seq<Segment>, f: Frame, d: set<Sample>,
                                        p: seq<int>, t: int, total: real)
    requires LabelsFrom(x, [Seed(o, 0.0)], maxCut) && KeptSegments(x, segs) && Proper(f)
    requires forall s :: s in segs ==> Crossable(f, d, s)
    requires SeedWalk(x.g, x.cost, [Seed(o, 0.0)], 0, p, t, total) && total <= x.cutoff && p != []
    ensures IsNode(x.g, o) && IsNode(x.g, t) && BothWays(d, f.CellOf(x.pts[t]), f.CellOf(x.pts[o]))
    decreases |p|
  {
    hide Crossable, BothWays;
    var e := p[|p| - 1];
    LastEdgeKept(x, [Seed(o, 0.0)], maxCut, 0, p, t, total);
    var u := x.g.edges[e].from;
    CrossKept(x, segs, f, d, e, Segment(x.pts[u], x.pts[t]));
    BothWaysSwap(d, f.CellOf(x.pts[u]), f.CellOf(x.pts[t]));
    if |p| > 1 {
      BackToOrigin(x, o, maxCut, segs, f, d, p[..|p| - 1], u, total - x.cost[e]);
      BothWaysTrans(d, f.CellOf(x.pts[t]), f.CellOf(x.pts[u]), f.CellOf(x.pts[o]));
    }
  }

  lemma BothWaysSwap(d: set<Sample>, p: Sample, q: Sample)
    ensures BothWays(d, p, q) <==> BothWays(d, q, p)
  {
  }

  lemma CrossKept(x: Reach, segs: seq<Segment>, f: Frame, d: set<Sample>, e: int, s: Segment)
    requires x.Valid() && KeptSegments(x, segs) && Proper(f) && IsEdge(x.g, e)
    requires forall s :: s in segs ==> Crossable(f, d, s)
    requires x.CutEdge(e) == [s]
    ensures BothWays(d, f.CellOf(s.a), f.CellOf(s.b))
  {
    hide BothWays, NearTrace, OnTrace, Reach.CutEdge;
    EndsAreNear(f, s);
    assert Kept(x, e, s);
    assert s in segs && Crossable(f, d, s);
  }

  lemma ToOrigin(x: Reach, o: int, maxCut: real, segs: seq<Segment>, f: Frame, d: set<Sample>, s: Segment, q: Sample)
    requires LabelsFrom(x, [Seed(o, 0.0)], maxCut) && KeptSegments(x, segs)
    requires forall s :: s in segs ==> Crossable(f, d, s)
    requires s in segs && NearTrace(f, s, q)
    ensures IsNode(x.g, o) && BothWays(d, q, f.CellOf(x.pts[o]))
  {
    hide BothWays;
    var e :| Kept(x, e, s);
    var u := x.g.edges[e].from;
    assert s.a == x.pts[u] && IsNode(x.g, u);
    BothWaysSwap(d, f.CellOf(s.a), q);
    var k, p :| SeedWalk(x.g, x.cost, [Seed(o, 0.0)], k, p, u, x.labels[u].v);
    assert k == 0;
    if p != [] {
      BackToOrigin(x, o, maxCut, segs, f, d, p, u, x.labels[u].v);
      BothWaysTrans(d, q, f.CellOf(x.pts[u]), f.CellOf(x.pts[o]));
    }
  }

  // What is drawn for one origin is one piece: inside the dilated raster one can walk over sides
  // from any sample to any other.
  lemma CorridorIsOnePiece(x: Reach, o: int, maxCut: real, segs: seq<Segment>, b: Bounds, cellSizeM: real, lonM: real,
                           m: set<Sample>)
    requires LabelsFrom(x, [Seed(o, 0.0)], maxCut) && KeptSegments(x, segs)
    requires b.Bounds? && lonM >= 1.0 && AllHeld(b, segs) && ContourGrid(b.minP, b.maxP, cellSizeM, lonM).Sized?
    requires MarksOf(m, ContourGrid(b.minP, b.maxP, cellSizeM, lonM).frame, segs)
    ensures
      var r := ContourGrid(b.minP, b.maxP, cellSizeM, lonM);
      var d := Dilated(m, r.nx, r.ny);
      forall p, q :: p in d && q in d ==> Walkable(d, p, q)
  {
    hide ContourGrid, Walkable, Trace;
    var r := ContourGrid(b.minP, b.maxP, cellSizeM, lonM);
    var d := Dilated(m, r.nx, r.ny);
    forall s | s in segs
      ensures Crossable(r.frame, d, s)
    {
      KeptIsCrossable(b, cellSizeM, lonM, segs, m, s);
    }
    forall p, q | p in d && q in d
      ensures Walkable(d, p, q)
    {
      var s := SegmentNear(m, r, segs, p);
      var s' := SegmentNear(m, r, segs, q);
      ToOrigin(x, o, maxCut, segs, r.frame, d, s, p);
      ToOrigin(x, o, maxCut, segs, r.frame, d, s', q);
      BothWaysSwap(d, q, r.frame.CellOf(x.pts[o]));
      BothWaysTrans(d, p, r.frame.CellOf(x.pts[o]), q);
    }
  }

  lemma SegmentNear(m: set<Sample>, r: Sizing, segs: seq<Segment>, q: Sample) returns (s: Segment)
    requires r.Sized? && MarksOf(m, r.frame, segs) && q in Dilated(m, r.nx, r.ny)
    ensures s in segs && NearTrace(r.frame, s, q)
  {
    var p :| p in m && Near(p, q);
    s :| s in segs && OnTrace(r.frame, s, p);
    var i :| 0 <= i < |Trace(r.frame, s.a, s.b)| && Trace(r.frame, s.a, s.b)[i] == p;
  }

  // ----- the border of the raster of one origin

  // Every reached node is an end of a kept segment, so the box is that of the segments alone.
  lemma ReachedAreEnds(x: Reach, o: int, maxCut: real, segs: seq<Segment>, n: nat)
    requires LabelsFrom(x, [Seed(o, 0.0)], maxCut) && KeptSegments(x, segs) && segs != [] && n <= x.g.n
    ensures ReachedPoints(x, n) <= EndsOf(segs)
  {
    hide LabelsFrom, KeptSegments, EndsOf;
    if n > 0 {
      ReachedAreEnds(x, o, maxCut, segs, n - 1);
      if x.Reached(n - 1) {
        NodeIsEnd(x, o, maxCut, segs, n - 1);
      }
    }
  }

  lemma NodeIsEnd(x: Reach, o: int, maxCut: real, segs: seq<Segment>, v: int)
    requires LabelsFrom(x, [Seed(o, 0.0)], maxCut) && KeptSegments(x, segs) && segs != [] && IsNode(x.g, v)
    requires x.Reached(v)
    ensures x.pts[v] in EndsOf(segs)
  {
    var seeds := [Seed(o, 0.0)];
    var k, p :| SeedWalk(x.g, x.cost, seeds, k, p, v, x.labels[v].v);
    if p != [] {
      LastEdgeKept(x, seeds, maxCut, k, p, v, x.labels[v].v);
      var e := p[|p| - 1];
      var s := Segment(x.pts[x.g.edges[e].from], x.pts[v]);
      assert s in x.CutEdge(e);
      assert Kept(x, e, s);
    } else {
      assert segs[0] in segs;
      var e :| Kept(x, e, segs[0]);
      var u := x.g.edges[e].from;
      assert IsNode(x.g, u);
      var j, q :| SeedWalk(x.g, x.cost, seeds, j, q, u, x.labels[u].v);
      if q != [] {
        OriginIsEnd(x, seeds, maxCut, j, q, u, x.labels[u].v);
        var f, s :| Kept(x, f, s) && s.a == x.pts[seeds[j].node];
        assert s in segs;
      }
    }
  }

  lemma TraceStaysWithin(f: Frame, b: Bounds, s: Segment, p: Sample)
    requires b.Bounds? && InBounds(s.a, b.minP, b.maxP) && InBounds(s.b, b.minP, b.maxP) && OnTrace(f, s, p)
    ensures exists v :: InBounds(v, b.minP, b.maxP) && f.CellOf(v) == p
  {
    var n := Steps(f, s.a, s.b);
    var i :| 0 <= i <= n && Trace(f, s.a, s.b)[i] == p;
    AlongStaysBetween(s.a.x, s.b.x, b.minP.x, b.maxP.x, i, n);
    AlongStaysBetween(s.a.y, s.b.y, b.minP.y, b.maxP.y, i, n);
    assert InBounds(Stop(f, s.a, s.b, i), b.minP, b.maxP);
  }

  lemma MarksStayWithin(f: Frame, b: Bounds, segs: seq<Segment>, m: set<Sample>)
    requires Proper(f) && AllHeld(b, segs) && b.Bounds? && MarksOf(m, f, segs)
    ensures MarksWithin(m, f, b.minP, b.maxP)
  {
    hide OnTrace;
    forall p | p in m
      ensures exists v :: InBounds(v, b.minP, b.maxP) && f.CellOf(v) == p
    {
      var s :| s in segs && OnTrace(f, s, p);
      TraceStaysWithin(f, b, s, p);
    }
  }

  lemma EndsAreMarked(f: Frame, segs: seq<Segment>, m: set<Sample>)
    requires Proper(f) && MarksOf(m, f, segs)
    ensures forall v :: v in EndsOf(segs) ==> f.CellOf(v) in m
  {
    hide OnTrace;
    forall v | v in EndsOf(segs)
      ensures f.CellOf(v) in m
    {
      var s :| s in segs && (s.a == v || s.b == v);
      EndsAreNear(f, s);
    }
  }

  lemma BoxOfEnds(x: Reach, o: int, maxCut: real, segs: seq<Segment>, b: Bounds)
    requires LabelsFrom(x, [Seed(o, 0.0)], maxCut) && KeptSegments(x, segs) && segs != []
    requires BoxOf(b, ReachedPoints(x, x.g.n) + EndsOf(segs))
    ensures BoxOf(b, EndsOf(segs)) && EndsOf(segs) != {} && b.Bounds? && AllHeld(b, segs)
  {
    hide BoxOf, EndsOf;
    ReachedAreEnds(x, o, maxCut, segs, x.g.n);
    assert ReachedPoints(x, x.g.n) + EndsOf(segs) == EndsOf(segs) == {} + EndsOf(segs);
    BoxHolds(b, {}, segs);
    SomeEnd(segs);
  }

  lemma SomeEnd(segs: seq<Segment>)
    requires segs != []
    ensures EndsOf(segs) != {}
  {
    assert segs[0].a in EndsOf(segs);
  }

  // A contour pass from one origin: the dilated raster never touches the first column or row, and
  // touches the last ones exactly when the width or the height is half a cell or more past a whole
  // number of cells.
  lemma ContourTouchesBorderIff(x: Reach, o: int, maxCut: real, segs: seq<Segment>, b: Bounds,
                                cellSizeM: real, lonM: real, m: set<Sample>)
    requires LabelsFrom(x, [Seed(o, 0.0)], maxCut) && KeptSegments(x, segs) && segs != []
    requires BoxOf(b, ReachedPoints(x, x.g.n) + EndsOf(segs)) && b.Bounds?
    requires lonM >= 1.0 && ContourGrid(b.minP, b.maxP, cellSizeM, lonM).Sized?
    requires MarksOf(m, ContourGrid(b.minP, b.maxP, cellSizeM, lonM).frame, segs)
    ensures
      var r := ContourGrid(b.minP, b.maxP, cellSizeM, lonM);
      var d := Dilated(m, r.nx, r.ny);
      && (forall q :: q in d ==> 1 <= q.x && 1 <= q.y)
      && ((exists q :: q in d && q.x == r.nx - 1) <==> HalfPast(b.maxP.x - b.minP.x, r.frame.cw))
      && ((exists q :: q in d && q.y == r.ny - 1) <==> HalfPast(b.maxP.y - b.minP.y, r.frame.ch))
  {
    hide ContourGrid, Dilated, HalfPast, LabelsFrom, KeptSegments, MarksOf, MarksWithin, AllHeld, EndsOf;
    BoxOfEnds(x, o, maxCut, segs, b);
    var f := ContourGrid(b.minP, b.maxP, cellSizeM, lonM).frame;
    MarksStayWithin(f, b, segs, m);
    EndsAreMarked(f, segs, m);
    NearBorderIsClear(b.minP, b.maxP, cellSizeM, lonM, m);
    var east :| east in EndsOf(segs) && east.x == b.maxP.x;
    var north :| north in EndsOf(segs) && north.y == b.maxP.y;
    assert f.CellOf(east).x == f.CellOf(b.maxP).x && f.CellOf(north).y == f.CellOf(b.maxP).y;
    TouchesLastColumnIff(b.minP, b.maxP, cellSizeM, lonM, m);
    TouchesLastRowIff(b.minP, b.maxP, cellSizeM, lonM, m);
  }

  // A street half a cell long: its raster has five columns, and dilation marks the last of them.
  lemma TouchesBorderExample(m: set<Sample>)
    requires
      var r := ContourGrid(Point(0.0, 0.0), Point(0.5, 0.0), LAT_M, LAT_M);
      r.Sized? && MarksOf(m, r.frame, [Segment(Point(0.0, 0.0), Point(0.5, 0.0))])
    ensures
      var r := ContourGrid(Point(0.0, 0.0), Point(0.5, 0.0), LAT_M, LAT_M);
      r == Sized(5, 5, Frame(-2.0, -2.0, 1.0, 1.0)) && Sample(4, 2) in Dilated(m, r.nx, r.ny)
  {
    var a, b := Point(0.0, 0.0), Point(0.5, 0.0);
    var r := ContourGrid(a, b, LAT_M, LAT_M);
    EndsAreNear(r.frame, Segment(a, b));
    assert r.frame.CellOf(b) == Sample(3, 2);
    assert Segment(a, b) in [Segment(a, b)];
    assert Near(Sample(3, 2), Sample(4, 2));
  }
}
