/** Hilbert tile ids of PMTiles archives: zxyToID in internal/source/pmtiles/pmtiles.go. */
module TileId {
  import Numbers

  // Go's fixed-width unsigned types wrap around at these moduli.
  const U32 := 0x1_0000_0000
  const U64 := 0x1_0000_0000_0000_0000

  function Pow2(k: nat): (p: nat)
    ensures p >= 1
  {
    if k == 0 then 1 else 2 * Pow2(k - 1)
  }

  // The number of tiles in a 2^k by 2^k grid.
  function Pow4(k: nat): (p: nat)
    ensures p >= 1
  {
    if k == 0 then 1 else 4 * Pow4(k - 1)
  }

  // The first id of zoom z: the number of tiles in all lower zooms.
  function Base(z: nat): nat {
    if z == 0 then 0 else Base(z - 1) + Pow4(z - 1)
  }

  // A tile: its column and row.
  datatype Pos = Pos(x: int, y: int)

  // The curve visits the quadrants of a square of side 2s in the order top left, bottom left,
  // bottom right, top right.
  function Quadrant(s: nat, x: int, y: int): (q: nat)
    ensures q <= 3
  {
    if x < s then (if y < s then 0 else 1) else (if y < s then 3 else 2)
  }

  // The curve inside a quadrant is mirrored at one diagonal in the first and at the other
  // diagonal in the last. Place goes from the quadrant's own coordinates to the square's,
  // Unplace back.
  function Place(s: nat, q: nat, p: Pos): Pos {
    match q
    case 0 => Pos(p.y, p.x)
    case 1 => Pos(p.x, s + p.y)
    case 2 => Pos(s + p.x, s + p.y)
    case _ => Pos(2 * s - 1 - p.y, s - 1 - p.x)
  }

  function Unplace(s: nat, x: int, y: int): Pos {
    match Quadrant(s, x, y)
    case 0 => Pos(y, x)
    case 1 => Pos(x, y - s)
    case 2 => Pos(x - s, y - s)
    case _ => Pos(s - 1 - y, 2 * s - 1 - x)
  }

  lemma PlaceUnplace(s: nat, x: int, y: int)
    ensures Place(s, Quadrant(s, x, y), Unplace(s, x, y)) == Pos(x, y)
  {
  }

  lemma UnplacePlace(s: nat, q: nat, p: Pos)
    requires q <= 3 && 0 <= p.x < s && 0 <= p.y < s
    ensures
      var Pos(x, y) := Place(s, q, p);
      Quadrant(s, x, y) == q && Unplace(s, x, y) == p
  {
  }

  // q quarters of a square.
  function Quarters(q: nat, quarter: nat): nat {
    if q == 0 then 0 else if q == 1 then quarter else if q == 2 then 2 * quarter else 3 * quarter
  }

  // The position of (x, y) along the Hilbert curve that fills the 2^k by 2^k square.
  function Dist(k: nat, x: int, y: int): (d: nat)
    ensures d < Pow4(k)
  {
    if k == 0 then 0 else
      var p := Unplace(Pow2(k - 1), x, y);
      Quarters(Quadrant(Pow2(k - 1), x, y), Pow4(k - 1)) + Dist(k - 1, p.x, p.y)
  }

  // The quadrant that holds position d of a square with four times quarter tiles.
  function QuadrantAt(d: nat, quarter: nat): (q: nat)
    ensures q <= 3
  {
    if d < quarter then 0 else if d < 2 * quarter then 1 else if d < 3 * quarter then 2 else 3
  }

  // The tile at position d along the curve, straight from the picture of the curve.
  function Point(k: nat, d: nat): (p: Pos)
    ensures 0 <= p.x < Pow2(k) && 0 <= p.y < Pow2(k)
  {
    if k == 0 then Pos(0, 0) else
      var q := QuadrantAt(d, Pow4(k - 1));
      Place(Pow2(k - 1), q, Point(k - 1, d - Quarters(q, Pow4(k - 1))))
  }

  lemma {:induction false} DistThenPoint(k: nat, x: int, y: int)
    requires 0 <= x < Pow2(k) && 0 <= y < Pow2(k)
    ensures Point(k, Dist(k, x, y)) == Pos(x, y)
  {
    if k > 0 {
      var s := Pow2(k - 1);
      PlaceUnplace(s, x, y);
      var p := Unplace(s, x, y);
      DistThenPoint(k - 1, p.x, p.y);
      assert QuadrantAt(Dist(k, x, y), Pow4(k - 1)) == Quadrant(s, x, y);
    }
  }

  lemma {:induction false} PointThenDist(k: nat, d: nat)
    requires d < Pow4(k)
    ensures var p := Point(k, d); Dist(k, p.x, p.y) == d
  {
    if k > 0 {
      var quarter := Pow4(k - 1);
      var q := QuadrantAt(d, quarter);
      var r := d - Quarters(q, quarter);
      PointThenDist(k - 1, r);
      UnplacePlace(Pow2(k - 1), q, Point(k - 1, r));
    }
  }

  // The curve enters every square at its first corner and leaves it at the end of the same side.
  lemma {:induction false} CurveEnds(k: nat)
    ensures Point(k, 0) == Pos(0, 0)
    ensures Point(k, Pow4(k) - 1) == Pos(Pow2(k) - 1, 0)
  {
    if k > 0 {
      CurveEnds(k - 1);
    }
  }

  // Two tiles that share a side.
  predicate Neighbours(a: Pos, b: Pos) {
    || (a.x == b.x && (a.y + 1 == b.y || b.y + 1 == a.y))
    || (a.y == b.y && (a.x + 1 == b.x || b.x + 1 == a.x))
  }

  lemma PlaceKeepsNeighbours(s: nat, q: nat, a: Pos, b: Pos)
    requires Neighbours(a, b)
    ensures Neighbours(Place(s, q, a), Place(s, q, b))
  {
  }

  // Where the curve leaves one quadrant it enters the next.
  lemma PlaceJoinsQuadrants(s: nat, q: nat)
    requires s > 0 && q < 3
    ensures Neighbours(Place(s, q, Pos(s - 1, 0)), Place(s, q + 1, Pos(0, 0)))
  {
  }

  // The sides of a quadrant and the number of tiles in it, one level down.
  predicate Halves(k: nat, s: nat, quarter: nat) {
    k > 0 && s == Pow2(k - 1) && quarter == Pow4(k - 1)
  }

  lemma PointInQuadrant(k: nat, s: nat, quarter: nat, d: nat, q: nat, r: nat)
    requires Halves(k, s, quarter) && q <= 3 && r < quarter && d == Quarters(q, quarter) + r
    ensures Point(k, d) == Place(s, q, Point(k - 1, r))
  {
  }

  lemma SplitPosition(d: nat, quarter: nat) returns (q: nat, r: nat)
    requires d + 1 < 4 * quarter
    ensures q <= 3 && r < quarter && d == Quarters(q, quarter) + r
    ensures r + 1 < quarter || (q < 3 && d + 1 == Quarters(q + 1, quarter))
  {
    q := QuadrantAt(d, quarter);
    r := d - Quarters(q, quarter);
  }

  lemma StepInsideQuadrant(k: nat, s: nat, quarter: nat, d: nat, q: nat, r: nat)
    requires Halves(k, s, quarter) && q <= 3 && r + 1 < quarter && d == Quarters(q, quarter) + r
    requires Neighbours(Point(k - 1, r), Point(k - 1, r + 1))
    ensures Neighbours(Point(k, d), Point(k, d + 1))
  {
    PointInQuadrant(k, s, quarter, d, q, r);
    PointInQuadrant(k, s, quarter, d + 1, q, r + 1);
    PlaceKeepsNeighbours(s, q, Point(k - 1, r), Point(k - 1, r + 1));
  }

  lemma QuadrantEnds(k: nat, s: nat, quarter: nat)
    requires Halves(k, s, quarter)
    ensures Point(k - 1, 0) == Pos(0, 0)
    ensures Point(k - 1, quarter - 1) == Pos(s - 1, 0)
  {
    CurveEnds(k - 1);
  }

  lemma StepToNextQuadrant(k: nat, s: nat, quarter: nat, d: nat, q: nat)
    requires Halves(k, s, quarter) && q < 3 && d == Quarters(q, quarter) + quarter - 1
    ensures Neighbours(Point(k, d), Point(k, d + 1))
  {
    QuadrantEnds(k, s, quarter);
    PointInQuadrant(k, s, quarter, d, q, quarter - 1);
    PointInQuadrant(k, s, quarter, d + 1, q + 1, 0);
    PlaceJoinsQuadrants(s, q);
  }

  // Consecutive positions are tiles that share a side, at every level of the recursion.
  lemma {:induction false} CurveIsContinuous(k: nat, d: nat)
    requires d + 1 < Pow4(k)
    ensures Neighbours(Point(k, d), Point(k, d + 1))
  {
    var s, quarter := Pow2(k - 1), Pow4(k - 1);
    var q, r := SplitPosition(d, quarter);
    if r + 1 < quarter {
      CurveIsContinuous(k - 1, r);
      StepInsideQuadrant(k, s, quarter, d, q, r);
    } else {
      StepToNextQuadrant(k, s, quarter, d, q);
    }
  }

  // ----- machine words

  // The distance that the low k bits of two words stand for.
  function Rest(k: nat, x: nat, y: nat): nat {
    Dist(k, x % Pow2(k), y % Pow2(k))
  }

  // The id of a tile; only the low z bits of x and y take part.
  function Id(z: nat, x: nat, y: nat): nat {
    Base(z) + Rest(z, x, y)
  }

  lemma {:induction false} BaseClosedForm(z: nat)
    ensures 3 * Base(z) == Pow4(z) - 1
    ensures Base(z + 1) == Base(z) + Pow4(z)
  {
    if z > 0 {
      BaseClosedForm(z - 1);
    }
  }

  lemma {:induction false} Pow2Split(k: nat, m: nat)
    requires k <= m
    ensures Pow2(m) == Pow2(k) * Pow2(m - k)
  {
    if k < m {
      Pow2Split(k, m - 1);
      assert Pow2(m) == 2 * (Pow2(k) * Pow2(m - 1 - k));
    }
  }

  lemma {:induction false} Pow4IsSquare(k: nat)
    ensures Pow4(k) == Pow2(k) * Pow2(k)
  {
    if k > 0 {
      Pow4IsSquare(k - 1);
      assert Pow2(k) * Pow2(k) == 4 * (Pow2(k - 1) * Pow2(k - 1));
    }
  }

  // The bit x & s of a word, and what the word holds below that bit.
  lemma BitAndRest(x: nat, s: nat)
    requires s > 0
    ensures x % (2 * s) < 2 * s
    ensures (x / s) % 2 == 1 <==> x % (2 * s) >= s
    ensures x % s == if (x / s) % 2 == 1 then x % (2 * s) - s else x % (2 * s)
  {
    var q, b, r := x / s / 2, (x / s) % 2, x % s;
    assert x == s * (2 * q + b) + r;
    assert s * (2 * q) == 2 * s * q;
    assert x == 2 * s * q + (s * b + r);
    Numbers.ModIs(x, 2 * s, q, s * b + r);
  }

  lemma FlipModulo(n: nat, x: nat, s: nat, m: nat)
    requires s > 0 && m > 0 && n % s == 0 && m % s == 0
    ensures (n - 1 - x) % m % s == s - 1 - x % s
  {
    var a, b, q, r := n / s, m / s, x / s, x % s;
    var v := n - 1 - x;
    var w := v / m;
    assert x == s * q + r;
    assert v == m * w + v % m;
    assert m * w == s * (b * w);
    assert s * (a - q - 1 - b * w) == s * a - s * q - s - s * (b * w);
    Numbers.ModIs(v % m, s, a - q - 1 - b * w, s - 1 - r);
  }

  // n - 1 - x in 32 bits complements every bit of x below n, even when x >= n.
  lemma FlipLowBits(x: nat, z: nat, k: nat)
    requires k <= z <= 31 && x < U32
    ensures (Pow2(z) - 1 - x) % U32 % Pow2(k) == Pow2(k) - 1 - x % Pow2(k)
  {
    hide Pow2;
    Pow2Of32();
    Pow2Divides(k, z);
    Pow2Divides(k, 32);
    FlipModulo(Pow2(z), x, Pow2(k), U32);
  }

  lemma Pow2Divides(k: nat, m: nat)
    requires k <= m
    ensures Pow2(m) % Pow2(k) == 0
  {
    Pow2Split(k, m);
    Numbers.ModIs(Pow2(m), Pow2(k), Pow2(m - k), 0);
  }

  lemma Pow2Of32()
    ensures Pow2(32) == U32
  {
    assert Pow2(8) == 256;
    Pow2Split(8, 16);
    Pow2Split(16, 32);
  }

  function Square(s: nat): nat {
    s * s
  }

  // (3*rx) ^ ry on the bits rx and ry.
  function XorOfBits(rx: nat, ry: nat): (v: nat)
    requires rx <= 1 && ry <= 1
    ensures v <= 3
  {
    if ry == 0 then 3 * rx else if rx == 0 then 1 else 2
  }

  // One iteration of the loop moves one quadrant of the curve into the total.
  lemma OneStep(z: nat, k: nat, n: nat, s: nat, x: nat, y: nat, rx: nat, ry: nat, x': nat, y': nat)
    requires 0 < k <= z <= 31 && x < U32 && y < U32 && n == Pow2(z) && s == Pow2(k - 1)
    requires rx == (x / s) % 2 && ry == (y / s) % 2
    requires Pos(x', y') ==
             if ry == 1 then Pos(x, y)
             else if rx == 1 then Pos((n - 1 - y) % U32, (n - 1 - x) % U32)
             else Pos(y, x)
    ensures Rest(k, x, y) == Square(s) * XorOfBits(rx, ry) + Rest(k - 1, x', y')
  {
    hide Dist, Pow2, Square, Quarters, Quadrant, Unplace, XorOfBits, Halves;
    HalvesOf(k, s);
    DistInQuadrant(k, s, Square(s), x % (2 * s), y % (2 * s));
    QuartersOfBits(x, y, s, Square(s));
    UnplaceByBits(x, y, s, rx, ry);
    FlipLowBits(x, z, k - 1);
    FlipLowBits(y, z, k - 1);
  }

  lemma HalvesOf(k: nat, s: nat)
    requires k > 0 && s == Pow2(k - 1)
    ensures s > 0 && Pow2(k) == 2 * s && Halves(k, s, Square(s))
  {
    Pow4IsSquare(k - 1);
  }

  lemma UnplaceByBits(x: nat, y: nat, s: nat, rx: nat, ry: nat)
    requires s > 0 && rx == (x / s) % 2 && ry == (y / s) % 2
    ensures Unplace(s, x % (2 * s), y % (2 * s)) ==
            if ry == 1 then Pos(x % s, y % s)
            else if rx == 1 then Pos(s - 1 - y % s, s - 1 - x % s)
            else Pos(y % s, x % s)
  {
    BitAndRest(x, s);
    BitAndRest(y, s);
  }

  lemma DistInQuadrant(k: nat, s: nat, quarter: nat, x: int, y: int)
    requires Halves(k, s, quarter)
    ensures Dist(k, x, y) == Quarters(Quadrant(s, x, y), quarter) + Dist(k - 1, Unplace(s, x, y).x, Unplace(s, x, y).y)
  {
  }

  lemma QuartersOfBits(x: nat, y: nat, s: nat, quarter: nat)
    requires s > 0
    ensures x % (2 * s) < 2 * s && y % (2 * s) < 2 * s
    ensures Quarters(Quadrant(s, x % (2 * s), y % (2 * s)), quarter) == quarter * XorOfBits((x / s) % 2, (y / s) % 2)
  {
    BitAndRest(x, s);
    BitAndRest(y, s);
  }

  // One round of the loop, in the 32- and 64-bit arithmetic of the original: what it adds to the
  // total is exactly what it takes off the distance that is left, and nothing wraps.
  method Round(z: nat, ghost k: nat, n: nat, step: nat, x: nat, y: nat, d: nat) returns (x': nat, y': nat, d': nat)
    requires 0 < k <= z <= 31 && x < U32 && y < U32 && n == Pow2(z) && step == Pow2(k - 1)
    requires d + Rest(k, x, y) < U64
    ensures x' < U32 && y' < U32
    ensures d' + Rest(k - 1, x', y') == d + Rest(k, x, y)
  {
    var rx := (x / step) % 2;
    var ry := (y / step) % 2;
    d' := (d + Square(step) % U64 * XorOfBits(rx, ry) % U64) % U64;
    x', y' := x, y;
    if ry == 0 {
      if rx == 1 {
        x' := (n - 1 - x') % U32;
        y' := (n - 1 - y') % U32;
      }
      x', y' := y', x';
    }
    OneStep(z, k, n, step, x, y, rx, ry, x', y');
    NoWrap(Square(step), XorOfBits(rx, ry), d, Rest(k - 1, x', y'));
  }

  // The loop: one round for every power of two below n.
  method CurveDistance(z: nat, n: nat, x: nat, y: nat) returns (d: nat)
    requires z <= 31 && x < U32 && y < U32 && n == Pow2(z)
    requires Rest(z, x, y) < U64
    ensures d == Rest(z, x, y)
  {
    ghost var target := Rest(z, x, y);
    d := 0;
    var step := n / 2;
    var x: nat, y: nat := x, y;
    ghost var k := z;
    while step > 0
      invariant 0 <= k <= z && x < U32 && y < U32
      invariant step == HalfPow2(k)
      invariant d + Rest(k, x, y) == target
      decreases k
    {
      HalfPow2Steps(k);
      x, y, d := Round(z, k, n, step, x, y, d);
      step := step / 2;
      k := k - 1;
    }
    HalfPow2Steps(k);
    NothingLeft(x, y);
  }

  // zxyToID. Tile has already turned away z > 31.
  method ZxyToId(z: nat, x: nat, y: nat) returns (id: nat)
    requires z <= 31 && x < U32 && y < U32
    ensures id == Id(z, x, y)
    ensures id < U64
  {
    hide Pow2, Pow4, Rest, Id;
    WordBounds(z);
    IdSplits(z, x, y);
    var acc := (Pow4(z) - 1) / 3;
    var n := Pow2(z);
    var d := CurveDistance(z, n, x, y);
    id := (acc + d) % U64;
  }

  // 2^k halved, as the loop halves it: zero is what stops the loop.
  function HalfPow2(k: nat): nat {
    if k == 0 then 0 else Pow2(k - 1)
  }

  lemma HalfPow2Steps(k: nat)
    ensures HalfPow2(k) == 0 <==> k == 0
    ensures HalfPow2(k) / 2 == if k == 0 then 0 else HalfPow2(k - 1)
  {
  }

  lemma NothingLeft(x: nat, y: nat)
    ensures Rest(0, x, y) == 0
  {
  }

  lemma NoWrap(square: nat, v: nat, d: nat, rest: nat)
    requires v <= 3 && d + (square * v + rest) < U64
    ensures (d + square % U64 * v % U64) % U64 == d + square * v
  {
    if v > 0 {
      assert square <= square * v;
      SmallModulo(square, U64);
    }
    SmallModulo(square * v, U64);
    SmallModulo(d + square * v, U64);
  }

  lemma WordBounds(z: nat)
    requires z <= 31
    ensures Pow2(z) < U32
    ensures (Pow4(z) - 1) / 3 + Pow4(z) < U64
  {
    Pow2Of32();
    Pow2Split(z, 31);
    Pow2Split(31, 32);
    Pow4IsSquare(z);
    BaseClosedForm(z);
    SquareBound(Pow2(z), Pow2(31 - z));
  }

  lemma IdSplits(z: nat, x: nat, y: nat)
    ensures Id(z, x, y) == (Pow4(z) - 1) / 3 + Rest(z, x, y)
    ensures Rest(z, x, y) < Pow4(z)
  {
    BaseClosedForm(z);
  }

  lemma SquareBound(p: nat, q: nat)
    requires q >= 1 && p * q == 0x8000_0000
    ensures p < U32 && p * p < 0x4000_0000_0000_0001
  {
    assert p <= p * q;
    assert p * p <= p * (p * q) <= (p * q) * (p * q);
  }

  // ----- what the ids mean

  // Ids of zoom z fill the interval from Base(z) up to Base(z+1), the lower zooms lie below it.
  lemma IdRange(z: nat, x: nat, y: nat)
    ensures Base(z) <= Id(z, x, y) < Base(z + 1)
    ensures Base(z) == (Pow4(z) - 1) / 3
  {
    BaseClosedForm(z);
  }

  lemma {:induction false} BaseMonotone(z: nat, w: nat)
    requires z <= w
    ensures Base(z) <= Base(w)
  {
    if z < w {
      BaseMonotone(z, w - 1);
    }
  }

  // Two words collide exactly when they name the same tile of the same zoom: never across zooms,
  // and inside one zoom exactly for columns and rows that agree modulo 2^z.
  lemma IdsCollideIff(z: nat, x: nat, y: nat, z': nat, x': nat, y': nat)
    ensures Id(z, x, y) == Id(z', x', y') <==>
            z == z' && x % Pow2(z) == x' % Pow2(z) && y % Pow2(z) == y' % Pow2(z)
  {
    IdRange(z, x, y);
    IdRange(z', x', y');
    hide *;
    if z < z' {
      BaseMonotone(z + 1, z');
    } else if z' < z {
      BaseMonotone(z' + 1, z);
    } else {
      IdsCollideInZoom(z, x, y, x', y');
    }
  }

  lemma IdsCollideInZoom(z: nat, x: nat, y: nat, x': nat, y': nat)
    ensures Id(z, x, y) == Id(z, x', y') <==> x % Pow2(z) == x' % Pow2(z) && y % Pow2(z) == y' % Pow2(z)
  {
    hide Dist, Point, Base, Pow2, Pow4;
    DistThenPoint(z, x % Pow2(z), y % Pow2(z));
    DistThenPoint(z, x' % Pow2(z), y' % Pow2(z));
  }

  // Every id of a zoom is the id of exactly one tile of the 2^z by 2^z grid.
  lemma IdsAreOnto(z: nat, id: nat) returns (x: nat, y: nat)
    requires Base(z) <= id < Base(z + 1)
    ensures x < Pow2(z) && y < Pow2(z) && Id(z, x, y) == id
    ensures forall x', y' :: 0 <= x' < Pow2(z) && 0 <= y' < Pow2(z) && Id(z, x', y') == id ==> x' == x && y' == y
  {
    BaseClosedForm(z);
    PointThenDist(z, id - Base(z));
    var p := Point(z, id - Base(z));
    x, y := p.x, p.y;
    SmallModulo(x, Pow2(z));
    SmallModulo(y, Pow2(z));
    forall x', y' | 0 <= x' < Pow2(z) && 0 <= y' < Pow2(z) && Id(z, x', y') == id
      ensures x' == x && y' == y
    {
      IdsCollideIff(z, x, y, z, x', y');
      SmallModulo(x', Pow2(z));
      SmallModulo(y', Pow2(z));
    }
  }

  lemma SmallModulo(v: nat, m: nat)
    requires v < m
    ensures v % m == v
  {
  }

  // Tiles with consecutive ids share a side.
  lemma ConsecutiveIdsAreNeighbours(z: nat, x: nat, y: nat, x': nat, y': nat)
    requires x < Pow2(z) && y < Pow2(z) && x' < Pow2(z) && y' < Pow2(z)
    requires Id(z, x, y) + 1 == Id(z, x', y')
    ensures Neighbours(Pos(x, y), Pos(x', y'))
  {
    SmallModulo(x, Pow2(z));
    SmallModulo(y, Pow2(z));
    SmallModulo(x', Pow2(z));
    SmallModulo(y', Pow2(z));
    DistThenPoint(z, x, y);
    DistThenPoint(z, x', y');
    CurveIsContinuous(z, Dist(z, x, y));
  }
}
