/** The segments that marching squares draws around the marked samples of a raster:
    the scan of binaryGrid.contours in internal/algo/routing/marching.go. */
module MarchingSquares {

  // A sample of the raster. A raster is the set of its marked samples; at() answers false for
  // every sample outside the raster, which is what membership answers too.
  datatype Sample = Sample(x: int, y: int)

  // A contour vertex on the doubled lattice: the midpoint between two adjacent samples.
  datatype VKey = VKey(x: int, y: int)

  datatype Seg = Seg(a: VKey, b: VKey)

  predicate Ends(s: Seg, v: VKey) {
    s.a == v || s.b == v
  }

  ghost predicate InBox(m: set<Sample>, nx: int, ny: int) {
    forall p :: p in m ==> 0 <= p.x < nx && 0 <= p.y < ny
  }

  // The midpoints of the four sides of the 2x2 block whose first sample is (x, y).
  function Top(x: int, y: int): VKey { VKey(2 * x + 1, 2 * y) }
  function Bottom(x: int, y: int): VKey { VKey(2 * x + 1, 2 * y + 2) }
  function Left(x: int, y: int): VKey { VKey(2 * x, 2 * y + 1) }
  function Right(x: int, y: int): VKey { VKey(2 * x + 2, 2 * y + 1) }

  predicate IsSide(x: int, y: int, v: VKey) {
    v == Top(x, y) || v == Bottom(x, y) || v == Left(x, y) || v == Right(x, y)
  }

  function Code(tl: bool, tr: bool, br: bool, bl: bool): (code: nat)
    ensures code < 16
  {
    (if tl then 1 else 0) + (if tr then 2 else 0) + (if br then 4 else 0) + (if bl then 8 else 0)
  }

  // The switch over the sixteen corner patterns.
  function SegsOfCode(code: nat, x: int, y: int): seq<Seg> {
    var T, B, L, R := Top(x, y), Bottom(x, y), Left(x, y), Right(x, y);
    if code == 1 || code == 14 then [Seg(L, T)]
    else if code == 2 || code == 13 then [Seg(T, R)]
    else if code == 3 || code == 12 then [Seg(L, R)]
    else if code == 4 || code == 11 then [Seg(R, B)]
    else if code == 5 then [Seg(L, T), Seg(R, B)]
    else if code == 6 || code == 9 then [Seg(T, B)]
    else if code == 7 || code == 8 then [Seg(B, L)]
    else if code == 10 then [Seg(T, R), Seg(B, L)]
    else []
  }

  ghost function CellSegs(m: set<Sample>, x: int, y: int): seq<Seg> {
    SegsOfCode(Code(Sample(x, y) in m, Sample(x + 1, y) in m, Sample(x + 1, y + 1) in m, Sample(x, y + 1) in m), x, y)
  }

  // The two samples a midpoint lies between, one marked and the other not.
  ghost predicate Crossing(m: set<Sample>, v: VKey) {
    if v.x % 2 == 1 && v.y % 2 == 0 then
      (Sample(v.x / 2, v.y / 2) in m) != (Sample(v.x / 2 + 1, v.y / 2) in m)
    else if v.x % 2 == 0 && v.y % 2 == 1 then
      (Sample(v.x / 2, v.y / 2) in m) != (Sample(v.x / 2, v.y / 2 + 1) in m)
    else
      false
  }

  // The two samples beside a midpoint.
  function FirstBeside(v: VKey): Sample {
    Sample(v.x / 2, v.y / 2)
  }

  function SecondBeside(v: VKey): Sample {
    if v.x % 2 == 1 then Sample(v.x / 2 + 1, v.y / 2) else Sample(v.x / 2, v.y / 2 + 1)
  }

  // The marked one of them, and the other.
  ghost function MarkedBeside(m: set<Sample>, v: VKey): Sample {
    if FirstBeside(v) in m then FirstBeside(v) else SecondBeside(v)
  }

  ghost function UnmarkedBeside(m: set<Sample>, v: VKey): Sample {
    if FirstBeside(v) in m then SecondBeside(v) else FirstBeside(v)
  }

  lemma SegsJoinSides(m: set<Sample>, x: int, y: int, s: Seg)
    requires s in CellSegs(m, x, y)
    ensures s.a != s.b && IsSide(x, y, s.a) && IsSide(x, y, s.b)
    ensures Crossing(m, s.a) && Crossing(m, s.b)
  {
  }

  // A side of a block whose two samples differ lies on exactly one of the block's segments.
  lemma SideHasOneSeg(m: set<Sample>, x: int, y: int, v: VKey)
    requires IsSide(x, y, v) && Crossing(m, v)
    ensures exists s :: s in CellSegs(m, x, y) && Ends(s, v)
  {
    var segs := CellSegs(m, x, y);
    if |segs| == 1 {
      assert segs[0] in segs;
    } else {
      assert segs[0] in segs && segs[1] in segs;
    }
  }

  lemma SideHasNoMore(m: set<Sample>, x: int, y: int, v: VKey, s: Seg, t: Seg)
    requires s in CellSegs(m, x, y) && t in CellSegs(m, x, y) && Ends(s, v) && Ends(t, v)
    ensures s == t
  {
  }

  // ----- the whole scan

  // Segment i was drawn in block cells[i], and no block draws a segment twice.
  ghost predicate Field(m: set<Sample>, segs: seq<Seg>, cells: seq<Sample>) {
    && |cells| == |segs|
    && (forall i :: 0 <= i < |segs| ==> segs[i] in CellSegs(m, cells[i].x, cells[i].y))
    && (forall i, j :: 0 <= i < j < |segs| && segs[i] == segs[j] ==> cells[i] != cells[j])
  }

  predicate Drawn(segs: seq<Seg>, cells: seq<Sample>, i: int, x: int, y: int, s: Seg)
    requires |cells| == |segs|
  {
    0 <= i < |segs| && cells[i] == Sample(x, y) && segs[i] == s
  }

  // Every segment of every block of the scan is there.
  ghost predicate Complete(m: set<Sample>, nx: int, ny: int, segs: seq<Seg>, cells: seq<Sample>)
    requires |cells| == |segs|
  {
    forall x, y, s :: -1 <= x < nx && -1 <= y < ny && s in CellSegs(m, x, y) ==>
      exists i :: Drawn(segs, cells, i, x, y, s)
  }

  // Which of the two colours of a chessboard a block has.
  predicate Dark(c: Sample) {
    (c.x + c.y) % 2 == 1
  }

  // Two segments that meet lie in blocks that share a side, so in blocks of different colours.
  lemma MeetingSegs(m: set<Sample>, segs: seq<Seg>, cells: seq<Sample>, i: int, j: int, v: VKey)
    requires Field(m, segs, cells) && 0 <= i < |segs| && 0 <= j < |segs| && i != j
    requires Ends(segs[i], v) && Ends(segs[j], v)
    ensures Dark(cells[i]) != Dark(cells[j])
  {
    var c, d := cells[i], cells[j];
    SegsJoinSides(m, c.x, c.y, segs[i]);
    SegsJoinSides(m, d.x, d.y, segs[j]);
    if c == d {
      SideHasNoMore(m, c.x, c.y, v, segs[i], segs[j]);
      assert false;
    }
    SharedSide(c, d, v);
  }

  lemma SharedSide(c: Sample, d: Sample, v: VKey)
    requires c != d && IsSide(c.x, c.y, v) && IsSide(d.x, d.y, v)
    ensures Dark(c) != Dark(d)
  {
  }

  // The blocks on either side of a midpoint.
  function FirstBlock(v: VKey): Sample {
    Sample(v.x / 2, v.y / 2)
  }

  function SecondBlock(v: VKey): Sample {
    if v.y % 2 == 0 then Sample(v.x / 2, v.y / 2 - 1) else Sample(v.x / 2 - 1, v.y / 2)
  }

  lemma BlocksOfMidpoint(m: set<Sample>, nx: int, ny: int, v: VKey)
    requires InBox(m, nx, ny) && Crossing(m, v)
    ensures var c := FirstBlock(v); IsSide(c.x, c.y, v) && -1 <= c.x < nx && -1 <= c.y < ny
    ensures var c := SecondBlock(v); IsSide(c.x, c.y, v) && -1 <= c.x < nx && -1 <= c.y < ny
    ensures forall c: Sample :: IsSide(c.x, c.y, v) ==> c == FirstBlock(v) || c == SecondBlock(v)
  {
  }

  // Segment j is the only other segment that ends where segment i does.
  ghost predicate OnlyOther(segs: seq<Seg>, i: int, v: VKey, j: int) {
    && 0 <= j < |segs| && j != i && Ends(segs[j], v)
    && (forall k :: 0 <= k < |segs| && Ends(segs[k], v) ==> k == i || k == j)
  }

  lemma SegInBlock(m: set<Sample>, nx: int, ny: int, segs: seq<Seg>, cells: seq<Sample>, c: Sample, v: VKey)
      returns (j: int)
    requires Field(m, segs, cells) && Complete(m, nx, ny, segs, cells)
    requires Crossing(m, v) && IsSide(c.x, c.y, v) && -1 <= c.x < nx && -1 <= c.y < ny
    ensures 0 <= j < |segs| && cells[j] == c && Ends(segs[j], v)
  {
    SideHasOneSeg(m, c.x, c.y, v);
    var s :| s in CellSegs(m, c.x, c.y) && Ends(s, v);
    j :| Drawn(segs, cells, j, c.x, c.y, s);
  }

  lemma OneSegInBlock(m: set<Sample>, segs: seq<Seg>, cells: seq<Sample>, i: int, k: int, v: VKey)
    requires Field(m, segs, cells) && 0 <= i < |segs| && 0 <= k < |segs|
    requires cells[i] == cells[k] && Ends(segs[i], v) && Ends(segs[k], v)
    ensures i == k
  {
    SideHasNoMore(m, cells[i].x, cells[i].y, v, segs[i], segs[k]);
  }

  lemma EndIsMidpointOfBlock(m: set<Sample>, nx: int, ny: int, segs: seq<Seg>, cells: seq<Sample>, i: int, v: VKey)
    requires InBox(m, nx, ny) && Field(m, segs, cells) && 0 <= i < |segs| && Ends(segs[i], v)
    ensures Crossing(m, v) && (cells[i] == FirstBlock(v) || cells[i] == SecondBlock(v))
  {
    SegsJoinSides(m, cells[i].x, cells[i].y, segs[i]);
    BlocksOfMidpoint(m, nx, ny, v);
  }

  // The degree argument: every midpoint a segment ends at lies on exactly two segments, one in
  // each of the two blocks that share that side.
  lemma DegreeIsTwo(m: set<Sample>, nx: int, ny: int, segs: seq<Seg>, cells: seq<Sample>, i: int, v: VKey)
      returns (j: int)
    requires InBox(m, nx, ny) && Field(m, segs, cells) && Complete(m, nx, ny, segs, cells)
    requires 0 <= i < |segs| && Ends(segs[i], v)
    ensures OnlyOther(segs, i, v, j)
  {
    EndIsMidpointOfBlock(m, nx, ny, segs, cells, i, v);
    BlocksOfMidpoint(m, nx, ny, v);
    assert FirstBlock(v) != SecondBlock(v);
    j := SegInBlock(m, nx, ny, segs, cells, if cells[i] == FirstBlock(v) then SecondBlock(v) else FirstBlock(v), v);
    forall k | 0 <= k < |segs| && Ends(segs[k], v)
      ensures k == i || k == j
    {
      EndIsMidpointOfBlock(m, nx, ny, segs, cells, k, v);
      OneSegInBlock(m, segs, cells, if cells[k] == cells[i] then i else j, k, v);
    }
  }

  predicate Joins(s: Seg, v: VKey, w: VKey) {
    s == Seg(v, w) || s == Seg(w, v)
  }

  // No two segments join the same two midpoints.
  lemma NoDoubleSegs(m: set<Sample>, segs: seq<Seg>, cells: seq<Sample>, i: int, j: int)
    requires Field(m, segs, cells) && 0 <= i < |segs| && 0 <= j < |segs| && i != j
    ensures !Joins(segs[i], segs[j].a, segs[j].b)
  {
    var c, d, v, w := cells[i], cells[j], segs[j].a, segs[j].b;
    SegsJoinSides(m, c.x, c.y, segs[i]);
    SegsJoinSides(m, d.x, d.y, segs[j]);
    if Joins(segs[i], v, w) {
      if c == d {
        SideHasNoMore(m, c.x, c.y, v, segs[i], segs[j]);
      } else {
        OneSharedSide(c, d, v, w);
      }
    }
  }

  lemma OneSharedSide(c: Sample, d: Sample, v: VKey, w: VKey)
    requires IsSide(c.x, c.y, v) && IsSide(c.x, c.y, w) && IsSide(d.x, d.y, v) && IsSide(d.x, d.y, w)
    requires v != w
    ensures c == d
  {
  }

  // Every midpoint between a marked and an unmarked sample is on a segment, and no other is.
  lemma SegsEndAtCrossings(m: set<Sample>, nx: int, ny: int, segs: seq<Seg>, cells: seq<Sample>, v: VKey)
    requires InBox(m, nx, ny) && Field(m, segs, cells) && Complete(m, nx, ny, segs, cells)
    ensures Crossing(m, v) <==> exists i :: 0 <= i < |segs| && Ends(segs[i], v)
  {
    if Crossing(m, v) {
      BlocksOfMidpoint(m, nx, ny, v);
      var c := FirstBlock(v);
      SideHasOneSeg(m, c.x, c.y, v);
      var s :| s in CellSegs(m, c.x, c.y) && Ends(s, v);
      var i :| Drawn(segs, cells, i, c.x, c.y, s);
      assert Ends(segs[i], v);
    }
    if i :| 0 <= i < |segs| && Ends(segs[i], v) {
      SegsJoinSides(m, cells[i].x, cells[i].y, segs[i]);
    }
  }

  // Blocks the scan has passed when it stands at block (x, y).
  predicate Passed(cx: int, cy: int, x: int, y: int) {
    cy < y || (cy == y && cx < x)
  }

  ghost predicate ScannedTo(m: set<Sample>, nx: int, ny: int, segs: seq<Seg>, cells: seq<Sample>, x: int, y: int) {
    && Field(m, segs, cells)
    && (forall i :: 0 <= i < |cells| ==> Passed(cells[i].x, cells[i].y, x, y))
    && (forall cx, cy, s :: -1 <= cx < nx && -1 <= cy < ny && Passed(cx, cy, x, y) && s in CellSegs(m, cx, cy) ==>
          exists i :: Drawn(segs, cells, i, cx, cy, s))
  }

  ghost function Here(x: int, y: int, n: nat): (cells: seq<Sample>)
    ensures |cells| == n && forall i :: 0 <= i < n ==> cells[i] == Sample(x, y)
  {
    seq(n, _ => Sample(x, y))
  }

  lemma ScanBlock(m: set<Sample>, nx: int, ny: int, segs: seq<Seg>, cells: seq<Sample>, x: int, y: int)
    requires ScannedTo(m, nx, ny, segs, cells, x, y) && -1 <= x < nx
    ensures
      var more := CellSegs(m, x, y);
      ScannedTo(m, nx, ny, segs + more, cells + Here(x, y, |more|), x + 1, y)
  {
    var more := CellSegs(m, x, y);
    var segs', cells' := segs + more, cells + Here(x, y, |more|);
    assert |more| == 2 ==> more[0] != more[1];
    assert |more| <= 2;
    forall i | 0 <= i < |segs'|
      ensures segs'[i] in CellSegs(m, cells'[i].x, cells'[i].y)
    {
      if i >= |segs| {
        assert more[i - |segs|] in more;
      }
    }
    assert Field(m, segs', cells');
    forall cx, cy, s | -1 <= cx < nx && -1 <= cy < ny && Passed(cx, cy, x + 1, y) && s in CellSegs(m, cx, cy)
      ensures exists i :: Drawn(segs', cells', i, cx, cy, s)
    {
      if cx == x && cy == y {
        var k :| 0 <= k < |more| && more[k] == s;
        assert Drawn(segs', cells', |segs| + k, cx, cy, s);
      } else {
        var i :| Drawn(segs, cells, i, cx, cy, s);
        assert Drawn(segs', cells', i, cx, cy, s);
      }
    }
  }

  lemma NextRow(m: set<Sample>, nx: int, ny: int, segs: seq<Seg>, cells: seq<Sample>, y: int)
    requires ScannedTo(m, nx, ny, segs, cells, nx, y)
    ensures ScannedTo(m, nx, ny, segs, cells, -1, y + 1)
  {
  }

  lemma ScanDone(m: set<Sample>, nx: int, ny: int, segs: seq<Seg>, cells: seq<Sample>)
    requires ScannedTo(m, nx, ny, segs, cells, -1, ny)
    ensures Field(m, segs, cells) && Complete(m, nx, ny, segs, cells)
  {
  }
}
