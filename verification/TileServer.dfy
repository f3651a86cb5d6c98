/** Serving tiles: parseTile and serveTile in internal/server/tiles.go, Valid in
    internal/tilemath/tilemath.go. */
module TileServer {
  import opened Options
  import opened Varint
  import opened Directory
  import Lookup
  import ArchiveLayout
  import Names
  import DiskTier
  import TileId

  const MAX_ZOOM := 24

  datatype Tile = Tile(z: nat, x: nat, y: nat) {
    predicate Valid() {
      z <= MAX_ZOOM && x < TileId.Pow2(z) && y < TileId.Pow2(z)
    }

    function Id(): nat {
      TileId.Id(z, x, y)
    }
  }

  // A tile of the grid; archives hold no others.
  predicate InGrid(t: Tile) {
    t.z <= 31 && t.x < TileId.Pow2(t.z) && t.y < TileId.Pow2(t.z)
  }

  // The guard keeps the ids apart: tiles of the grid with one id are one tile.
  lemma AdmittedIdsDiffer(s: Tile, t: Tile)
    requires InGrid(s) && InGrid(t)
    ensures s.Id() == t.Id() <==> s == t
  {
    TileId.IdsCollideIff(s.z, s.x, s.y, t.z, t.x, t.y);
    TileId.SmallModulo(s.x, TileId.Pow2(s.z));
    TileId.SmallModulo(s.y, TileId.Pow2(s.z));
    TileId.SmallModulo(t.x, TileId.Pow2(t.z));
    TileId.SmallModulo(t.y, TileId.Pow2(t.z));
  }

  // ----- numbers in paths and keys

  predicate Digit(c: char) {
    '0' <= c <= '9'
  }

  function Value(s: string): nat
    requires forall i :: 0 <= i < |s| ==> Digit(s[i])
  {
    if s == "" then 0
    else
      assert Digit(s[|s| - 1]);
      10 * Value(s[..|s| - 1]) + (s[|s| - 1] as int - '0' as int)
  }

  // strconv.ParseUint to base 10 and 32 bits.
  function ParseUint(s: string): Option<nat> {
    if s == "" || (exists i :: 0 <= i < |s| && !Digit(s[i])) || Value(s) >= TileId.U32 then None
    else Some(Value(s))
  }

  // A number as %d writes it.
  function Decimal(n: nat): (s: string)
    ensures s != "" && forall i :: 0 <= i < |s| ==> Digit(s[i])
  {
    (if n < 10 then "" else Decimal(n / 10)) + [('0' as int + n % 10) as char]
  }

  lemma {:induction false} ValueOfDecimal(n: nat)
    ensures Value(Decimal(n)) == n
    decreases n
  {
    var s := Decimal(n);
    assert s[..|s| - 1] == if n < 10 then "" else Decimal(n / 10);
    if n >= 10 {
      ValueOfDecimal(n / 10);
    }
  }

  // parseTile: three numbers that name a tile of the grid.
  function ParseTile(zs: string, xs: string, ys: string): (t: Option<Tile>)
    ensures t.Some? ==> t.value.Valid()
  {
    var z, x, y := ParseUint(zs), ParseUint(xs), ParseUint(ys);
    if z.None? || x.None? || y.None? || !Tile(z.value, x.value, y.value).Valid() then None
    else Some(Tile(z.value, x.value, y.value))
  }

  // A request can be written for every tile of the grid, and for no other.
  lemma EveryTileCanBeAsked(t: Tile)
    ensures ParseTile(Decimal(t.z), Decimal(t.x), Decimal(t.y)) == if t.Valid() then Some(t) else None
  {
    ValueOfDecimal(t.z);
    ValueOfDecimal(t.x);
    ValueOfDecimal(t.y);
    if t.Valid() {
      TileId.WordBounds(t.z);
    }
  }

  // What is admitted are the tiles of the grid up to the greatest zoom that is served.
  lemma AdmittedIsInGrid(zs: string, xs: string, ys: string)
    ensures ParseTile(zs, xs, ys).Some? ==>
      InGrid(ParseTile(zs, xs, ys).value) && ParseTile(zs, xs, ys).value.z <= 24
  {
  }

  lemma ValidIff(t: Tile)
    ensures t.Valid() <==> InGrid(t) && t.z <= 24
  {
  }

  // Decimal digits, the most significant first, and nothing else; numbers of 32 bits are read as they are
  // written, larger ones are not.
  lemma NumberExample()
    ensures ParseUint("307") == Some(307) && Decimal(307) == "307"
    ensures ParseUint("") == None && ParseUint("+1") == None
  {
    assert "307"[..2] == "30" && "30"[..1] == "3" && "3"[..0] == "";
    assert !Digit("+1"[0]);
  }

  lemma NumberIsRead(n: nat)
    ensures ParseUint(Decimal(n)) == if n < 4294967296 then Some(n) else None
  {
    ValueOfDecimal(n);
    hide Decimal, Value;
  }

  // ----- cache keys

  function Key(layer: string, t: Tile): string {
    layer + "/" + (Decimal(t.z) + "/" + (Decimal(t.x) + "/" + Decimal(t.y)))
  }

  lemma KeyExample()
    ensures Key("roads", Tile(3, 7, 5)) == "roads/3/7/5"
  {
    assert Decimal(3) == "3" && Decimal(7) == "7" && Decimal(5) == "5";
  }

  lemma SplitIsUnique(a: string, b: string, c: string, d: string)
    requires a + "/" + b == c + "/" + d && '/' !in a && '/' !in c
    ensures a == c && b == d
  {
    var s := a + "/" + b;
    assert s[|a|] == '/' && s[|c|] == '/';
    assert forall i :: 0 <= i < |a| ==> s[i] == a[i] && s[i] != '/';
    assert forall i :: 0 <= i < |c| ==> s[i] == c[i] && s[i] != '/';
    assert |a| == |c|;
    assert s[..|a|] == a && s[..|c|] == c;
    assert s[|a| + 1..] == b && s[|c| + 1..] == d;
  }

  lemma NoSlash(n: nat)
    ensures '/' !in Decimal(n)
  {
  }

  // Names of layers have no slash, so a key belongs to one tile of one layer.
  lemma KeysDiffer(layer: string, s: Tile, layer': string, t: Tile)
    requires '/' !in layer && '/' !in layer'
    ensures Key(layer, s) == Key(layer', t) <==> layer == layer' && s == t
  {
    if Key(layer, s) == Key(layer', t) {
      NoSlash(s.z);
      NoSlash(t.z);
      NoSlash(s.x);
      NoSlash(t.x);
      SplitIsUnique(layer, Decimal(s.z) + "/" + (Decimal(s.x) + "/" + Decimal(s.y)),
                    layer', Decimal(t.z) + "/" + (Decimal(t.x) + "/" + Decimal(t.y)));
      SplitIsUnique(Decimal(s.z), Decimal(s.x) + "/" + Decimal(s.y), Decimal(t.z), Decimal(t.x) + "/" + Decimal(t.y));
      SplitIsUnique(Decimal(s.x), Decimal(s.y), Decimal(t.x), Decimal(t.y));
      ValueOfDecimal(s.z);
      ValueOfDecimal(t.z);
      ValueOfDecimal(s.x);
      ValueOfDecimal(t.x);
      ValueOfDecimal(s.y);
      ValueOfDecimal(t.y);
    }
  }

  // The names a configuration admits have no slash, and the tiles of a layer can be kept on disk
  // exactly when its name is neither of the two that stand for directories.
  lemma LayerKeysAreSafe(layer: string, t: Tile)
    requires Names.NameOk(layer)
    ensures '/' !in layer
    ensures DiskTier.SafeKey(Key(layer, t)) <==> layer != "." && layer != ".."
  {
    NoSlash(t.z);
    NoSlash(t.x);
    NoSlash(t.y);
    NumbersAreSafe(t.z);
    NumbersAreSafe(t.x);
    NumbersAreSafe(t.y);
    hide Decimal, DiskTier.SafeKey;
    var z, x, y := Decimal(t.z), Decimal(t.x), Decimal(t.y);
    DiskTier.SafeKeyIff(layer, z + "/" + (x + "/" + y));
    DiskTier.SafeKeyIff(z, x + "/" + y);
    DiskTier.SafeKeyIff(x, y);
    DiskTier.SafeKeyIff(y, "");
  }

  lemma NumbersAreSafe(n: nat)
    ensures DiskTier.SafeSegment(Decimal(n))
  {
    var s := Decimal(n);
    assert Digit(s[0]);
  }

  // ----- sources

  // What answers for a layer: a PMTiles archive, or any other source.
  datatype Store = PMTiles(a: Lookup.Archive, root: seq<Entry>) | Other(tile: Tile -> Lookup.TileBytes)

  datatype Layer = Layer(store: Store, minZoom: nat, maxZoom: nat, cacheable: bool) {
    predicate Zooms(t: Tile) {
      minZoom <= t.z <= maxZoom
    }

    // What the source answers for a tile.
    function Content(t: Tile): Lookup.TileBytes {
      match store
      case PMTiles(a, root) => Lookup.TileOf(a, root, t.z, t.x, t.y)
      case Other(tile) => tile(t)
    }
  }

  // The tiles are those of the plan: each is put down by a run that spans its id, and a run puts down
  // nothing but tiles of the set.
  ghost predicate PlanOf(nodes: seq<ArchiveLayout.Node>, tiles: map<Tile, seq<Byte>>) {
    && (forall t :: t in tiles ==>
          InGrid(t) && exists run :: run in ArchiveLayout.Runs(nodes) && ArchiveLayout.Spans(run, t.Id()) &&
                                     run.data == tiles[t])
    && (forall run, id :: run in ArchiveLayout.Runs(nodes) && ArchiveLayout.Spans(run, id) ==>
          exists t :: t in tiles && t.Id() == id)
  }

  function InMap(tiles: map<Tile, seq<Byte>>, t: Tile): Lookup.TileBytes {
    if t in tiles then Lookup.Bytes(tiles[t]) else Lookup.Missing
  }

  // The layer is an archive in which a plan for these tiles is laid out.
  ghost predicate ArchiveOf(l: Layer, tiles: map<Tile, seq<Byte>>) {
    && l.store.PMTiles? && |l.store.a.file| <= Lookup.MAX_INT
    && exists nodes, lo, hi :: ArchiveLayout.Plan(nodes, lo, hi, Lookup.MAX_DEPTH) &&
                               ArchiveLayout.LaidOut(l.store.a, nodes, l.store.root) && PlanOf(nodes, tiles)
  }

  // An archive in which a plan for some tiles is laid out answers for every tile of the grid with the
  // tile that was asked for, never another one, and with none for a tile that is not among them.
  lemma AnswerIsTheTile(l: Layer, tiles: map<Tile, seq<Byte>>, t: Tile)
    requires ArchiveOf(l, tiles) && InGrid(t)
    ensures l.Content(t) == InMap(tiles, t)
  {
    hide ArchiveLayout.Plan, ArchiveLayout.LaidOut, ArchiveLayout.PutDown, Lookup.TileOf, TileId.Id, PlanOf, InMap;
    var nodes, lo, hi :| ArchiveLayout.Plan(nodes, lo, hi, Lookup.MAX_DEPTH) &&
                         ArchiveLayout.LaidOut(l.store.a, nodes, l.store.root) && PlanOf(nodes, tiles);
    ArchiveLayout.TileIsWhatWasPutDown(l.store.a, nodes, l.store.root, lo, hi, Lookup.MAX_DEPTH, t.z, t.x, t.y);
    PutDownIsInMap(nodes, tiles, t, l.Content(t));
  }

  lemma PutDownIsInMap(nodes: seq<ArchiveLayout.Node>, tiles: map<Tile, seq<Byte>>, t: Tile, r: Lookup.TileBytes)
    requires PlanOf(nodes, tiles) && InGrid(t) && ArchiveLayout.PutDown(nodes, t.Id(), r)
    ensures r == InMap(tiles, t)
  {
    hide ArchiveLayout.Runs, ArchiveLayout.Spans, Tile.Id, InGrid;
    if t !in tiles {
      forall run | run in ArchiveLayout.Runs(nodes)
        ensures !ArchiveLayout.Spans(run, t.Id())
      {
        if ArchiveLayout.Spans(run, t.Id()) {
          var s :| s in tiles && s.Id() == t.Id();
          AdmittedIdsDiffer(s, t);
        }
      }
    }
  }

  // ----- an archive for every set of tiles

  lemma IdIsSmall(t: Tile)
    requires InGrid(t)
    ensures t.Id() < TWO_64 - 1
  {
    TileId.IdRange(t.z, t.x, t.y);
    TileId.BaseMonotone(t.z + 1, 32);
    TileId.BaseClosedForm(32);
    Pow4Of32();
    hide *;
  }

  lemma Pow4Of32()
    ensures TileId.Pow4(32) == TWO_64
  {
    assert TileId.Pow4(0) == 1 && TileId.Pow4(4) == 256;
    assert TileId.Pow4(8) == 65536 && TileId.Pow4(12) == 16777216 && TileId.Pow4(16) == 4294967296;
    assert TileId.Pow4(20) == 1099511627776 && TileId.Pow4(24) == 281474976710656;
    assert TileId.Pow4(28) == 72057594037927936;
  }

  // One directory with a run for every tile, in the order of their ids.
  ghost predicate FlatPlanOf(nodes: seq<ArchiveLayout.Node>, tiles: map<Tile, seq<Byte>>) {
    && |nodes| == |tiles| && InOrder(nodes)
    && (forall i :: 0 <= i < |nodes| ==> HasTile(tiles, nodes[i]))
    && (forall t :: t in tiles ==> HasRun(tiles, t, nodes))
  }

  ghost predicate HasRun(tiles: map<Tile, seq<Byte>>, t: Tile, nodes: seq<ArchiveLayout.Node>) {
    exists i :: 0 <= i < |nodes| && IsTileOf(tiles, t, nodes[i])
  }

  ghost predicate InOrder(nodes: seq<ArchiveLayout.Node>) {
    forall i, j :: 0 <= i < j < |nodes| ==> nodes[i].id < nodes[j].id
  }

  ghost predicate IsTileOf(tiles: map<Tile, seq<Byte>>, t: Tile, run: ArchiveLayout.Node) {
    t in tiles && run == ArchiveLayout.Run(t.Id(), 1, tiles[t])
  }

  ghost predicate HasTile(tiles: map<Tile, seq<Byte>>, run: ArchiveLayout.Node) {
    exists t :: IsTileOf(tiles, t, run)
  }

  // The tile of the greatest id.
  lemma {:induction false} LastTile(tiles: set<Tile>) returns (last: Tile)
    requires tiles != {}
    ensures last in tiles && forall t :: t in tiles ==> t.Id() <= last.Id()
    decreases tiles
  {
    hide Tile.Id;
    last :| last in tiles;
    var others := tiles - {last};
    assert forall t :: t in tiles ==> t == last || t in others;
    if others != {} {
      var next := LastTile(others);
      if next.Id() > last.Id() {
        last := next;
      }
    }
  }

  lemma {:induction false} FlatPlan(tiles: map<Tile, seq<Byte>>) returns (nodes: seq<ArchiveLayout.Node>)
    requires forall t :: t in tiles ==> InGrid(t)
    ensures FlatPlanOf(nodes, tiles)
    decreases |tiles|
  {
    hide Tile.Id, InGrid;
    nodes := [];
    if tiles.Keys != {} {
      var last := LastTile(tiles.Keys);
      var others := tiles - {last};
      assert others.Keys == tiles.Keys - {last};
      var front := FlatPlan(others);
      nodes := front + [ArchiveLayout.Run(last.Id(), 1, tiles[last])];
      OneMoreTile(tiles, last, others, front);
    }
  }

  lemma OneMoreTile(tiles: map<Tile, seq<Byte>>, last: Tile, others: map<Tile, seq<Byte>>,
                    front: seq<ArchiveLayout.Node>)
    requires (forall t :: t in tiles ==> InGrid(t) && t.Id() <= last.Id()) && last in tiles && others == tiles - {last}
    requires FlatPlanOf(front, others)
    ensures FlatPlanOf(front + [ArchiveLayout.Run(last.Id(), 1, tiles[last])], tiles)
  {
    hide Tile.Id, InGrid, InOrder, IsTileOf, HasTile, HasRun;
    var run := ArchiveLayout.Run(last.Id(), 1, tiles[last]);
    assert tiles.Keys == others.Keys + {last};
    LastIsTile(tiles, last, front);
    forall i | 0 <= i < |front|
      ensures front[i].id < run.id && HasTile(tiles, front[i])
    {
      OtherTile(tiles, last, others, front[i]);
    }
    LastInOrder(front, run);
    forall t | t in tiles
      ensures HasRun(tiles, t, front + [run])
    {
      if t != last {
        StillHasRun(tiles, others, t, front, run);
      }
    }
  }

  lemma LastIsTile(tiles: map<Tile, seq<Byte>>, last: Tile, front: seq<ArchiveLayout.Node>)
    requires last in tiles
    ensures
      var run := ArchiveLayout.Run(last.Id(), 1, tiles[last]);
      HasTile(tiles, run) && HasRun(tiles, last, front + [run])
  {
    hide Tile.Id;
    var run := ArchiveLayout.Run(last.Id(), 1, tiles[last]);
    assert IsTileOf(tiles, last, run) && (front + [run])[|front|] == run;
  }

  lemma StillHasRun(tiles: map<Tile, seq<Byte>>, others: map<Tile, seq<Byte>>, t: Tile,
                    front: seq<ArchiveLayout.Node>, run: ArchiveLayout.Node)
    requires t in others && HasRun(others, t, front) && t in tiles && tiles[t] == others[t]
    ensures HasRun(tiles, t, front + [run])
  {
    hide Tile.Id;
    var i :| 0 <= i < |front| && IsTileOf(others, t, front[i]);
    assert (front + [run])[i] == front[i] && IsTileOf(tiles, t, front[i]);
  }

  lemma StillTile(tiles: map<Tile, seq<Byte>>, others: map<Tile, seq<Byte>>, t: Tile, run: ArchiveLayout.Node)
    requires IsTileOf(others, t, run) && t in tiles && tiles[t] == others[t]
    ensures IsTileOf(tiles, t, run)
  {
    hide Tile.Id;
  }

  lemma OtherTile(tiles: map<Tile, seq<Byte>>, last: Tile, others: map<Tile, seq<Byte>>, run: ArchiveLayout.Node)
    requires (forall t :: t in tiles ==> InGrid(t) && t.Id() <= last.Id()) && last in tiles && others == tiles - {last}
    requires HasTile(others, run)
    ensures run.id < last.Id() && HasTile(tiles, run)
  {
    hide Tile.Id, InGrid;
    var t :| IsTileOf(others, t, run);
    assert t in tiles;
    AdmittedIdsDiffer(t, last);
    StillTile(tiles, others, t, run);
  }

  lemma LastInOrder(front: seq<ArchiveLayout.Node>, run: ArchiveLayout.Node)
    requires InOrder(front) && forall i :: 0 <= i < |front| ==> front[i].id < run.id
    ensures InOrder(front + [run])
  {
  }

  lemma {:induction false} FlatRuns(nodes: seq<ArchiveLayout.Node>)
    requires forall i :: 0 <= i < |nodes| ==> nodes[i].Run?
    ensures ArchiveLayout.Runs(nodes) == nodes
    decreases |nodes|
  {
    if nodes != [] {
      FlatRuns(nodes[..|nodes| - 1]);
    }
  }

  lemma FlatIsPlan(nodes: seq<ArchiveLayout.Node>, tiles: map<Tile, seq<Byte>>)
    requires FlatPlanOf(nodes, tiles) && 1 <= |tiles| <= MAX_ENTRIES
    requires forall t :: t in tiles ==> InGrid(t) && tiles[t] != []
    ensures ArchiveLayout.Plan(nodes, 0, TWO_64 - 1, 1)
  {
    hide Tile.Id, InGrid, IsTileOf, HasTile, InOrder, ArchiveLayout.PlanNode, ArchiveLayout.Until;
    forall i | 0 <= i < |nodes|
      ensures nodes[i].id < ArchiveLayout.Until(nodes, TWO_64 - 1, i) <= TWO_64 - 1
      ensures ArchiveLayout.PlanNode(nodes[i], ArchiveLayout.Until(nodes, TWO_64 - 1, i), 1)
    {
      FlatNode(nodes, tiles, i);
    }
  }

  lemma FlatIsPlanOf(nodes: seq<ArchiveLayout.Node>, tiles: map<Tile, seq<Byte>>)
    requires FlatPlanOf(nodes, tiles) && forall t :: t in tiles ==> InGrid(t)
    ensures PlanOf(nodes, tiles)
  {
    hide Tile.Id, InGrid, IsTileOf, HasTile, InOrder, ArchiveLayout.Runs, ArchiveLayout.Spans;
    forall i | 0 <= i < |nodes|
      ensures nodes[i].Run?
    {
      var _ := TileOfRun(tiles, nodes[i]);
    }
    FlatRuns(nodes);
    forall run, id | run in nodes && ArchiveLayout.Spans(run, id)
      ensures exists t :: t in tiles && t.Id() == id
    {
      assert HasTile(tiles, run);
      var t := TileOfRun(tiles, run);
    }
    forall t | t in tiles
      ensures exists run :: run in nodes && ArchiveLayout.Spans(run, t.Id()) && run.data == tiles[t]
    {
      var i :| 0 <= i < |nodes| && IsTileOf(tiles, t, nodes[i]);
      TileRun(tiles, t, nodes[i]);
      assert nodes[i] in nodes;
    }
  }

  lemma TileRun(tiles: map<Tile, seq<Byte>>, t: Tile, run: ArchiveLayout.Node)
    requires IsTileOf(tiles, t, run)
    ensures ArchiveLayout.Spans(run, t.Id()) && run.data == tiles[t]
  {
    hide Tile.Id;
  }

  lemma TileOfRun(tiles: map<Tile, seq<Byte>>, run: ArchiveLayout.Node) returns (t: Tile)
    requires HasTile(tiles, run)
    ensures t in tiles && run == ArchiveLayout.Run(t.Id(), 1, tiles[t])
    ensures forall id :: ArchiveLayout.Spans(run, id) ==> id == t.Id()
  {
    hide Tile.Id;
    t :| IsTileOf(tiles, t, run);
  }

  lemma FlatNode(nodes: seq<ArchiveLayout.Node>, tiles: map<Tile, seq<Byte>>, i: nat)
    requires InOrder(nodes) && (forall k :: 0 <= k < |nodes| ==> HasTile(tiles, nodes[k])) && i < |nodes|
    requires forall t :: t in tiles ==> InGrid(t) && tiles[t] != []
    ensures nodes[i].Run? && nodes[i].id < ArchiveLayout.Until(nodes, TWO_64 - 1, i) <= TWO_64 - 1
    ensures ArchiveLayout.PlanNode(nodes[i], ArchiveLayout.Until(nodes, TWO_64 - 1, i), 1)
  {
    hide Tile.Id, InGrid, HasTile;
    var t := TileOfRun(tiles, nodes[i]);
    IdIsSmall(t);
    if i + 1 < |nodes| {
      var u := TileOfRun(tiles, nodes[i + 1]);
      IdIsSmall(u);
    }
  }

  // For every set of tiles there is a plan whose archive, when it is written and opened, answers with
  // exactly these tiles, whatever the packing of its directories.
  lemma EveryTileSetIsServed(tiles: map<Tile, seq<Byte>>) returns (nodes: seq<ArchiveLayout.Node>)
    requires 1 <= |tiles| <= MAX_ENTRIES && forall t :: t in tiles ==> InGrid(t) && tiles[t] != []
    ensures ArchiveLayout.Sorted(nodes)
    ensures forall head, meta, pack, decompress, t ::
              ArchiveLayout.Unpacks(decompress, pack) && InGrid(t) ==>
                ServedFrom(ArchiveLayout.Write(head, meta, nodes, pack, decompress), tiles, t)
  {
    hide Tile.Id, InGrid, ArchiveLayout.Plan, ArchiveLayout.Sorted, ArchiveLayout.Unpacks, ArchiveLayout.Write, PlanOf,
      ArchiveLayout.PutDown, Lookup.TileOf, Lookup.ReadDirectory, InMap;
    nodes := FlatPlan(tiles);
    FlatIsPlan(nodes, tiles);
    FlatIsPlanOf(nodes, tiles);
    ArchiveLayout.PlanIsSorted(nodes, 0, TWO_64 - 1, 1);
    forall head, meta, pack, decompress, t | ArchiveLayout.Unpacks(decompress, pack) && InGrid(t)
      ensures ServedFrom(ArchiveLayout.Write(head, meta, nodes, pack, decompress), tiles, t)
    {
      var f := ArchiveLayout.Write(head, meta, nodes, pack, decompress);
      if |f.a.file| <= Lookup.MAX_INT {
        GridZoom(t);
        ArchiveLayout.WriteThenRead(head, meta, nodes, 0, TWO_64 - 1, 1, pack, decompress, t.z, t.x, t.y);
        var root := Lookup.ReadDirectory(f.a, f.rootOffset, f.rootLength).value;
        PutDownIsInMap(nodes, tiles, t, Lookup.TileOf(f.a, root, t.z, t.x, t.y));
      }
    }
  }

  lemma GridZoom(t: Tile)
    requires InGrid(t)
    ensures t.z <= 31 && t.Id() == TileId.Id(t.z, t.x, t.y)
  {
  }

  // Unless the file is too large, the root directory opens and the answer for the tile is its bytes, or
  // none if it has none.
  ghost predicate ServedFrom(f: ArchiveLayout.Written, tiles: map<Tile, seq<Byte>>, t: Tile) {
    |f.a.file| <= Lookup.MAX_INT ==>
      var root := Lookup.ReadDirectory(f.a, f.rootOffset, f.rootLength);
      root.Ok? && Lookup.TileOf(f.a, root.value, t.z, t.x, t.y) == InMap(tiles, t)
  }

  // ----- requests under way

  datatype Reply = BadRequest | NotFound | NoContent | Failure | Data(bytes: seq<Byte>)

  function ReplyFor(r: Lookup.TileBytes): Reply {
    match r
    case Missing => NoContent
    case Broken => Failure
    case Bytes(data) => Data(data)
  }

  // A value that the cache may return for a key.
  datatype Cached = Cached(key: string, data: seq<Byte>)

  // How far a request has got: it has taken the source of its layer, has found nothing in the cache,
  // has read the tile.
  datatype Phase = Taken | Missed | HasRead(r: Lookup.TileBytes)

  datatype Flight = Flight(layer: string, t: Tile, l: Layer, phase: Phase) {
    predicate Ok() {
      '/' !in layer && t.Valid() && l.Zooms(t) && (phase.HasRead? ==> phase.r == l.Content(t))
    }

    // It will leave its tile in the cache, unless it finds one there.
    predicate Stores() {
      l.cacheable && l.Content(t).Bytes?
    }
  }

  // The steps of serveTile. found is what the cache answers. Lose is whatever takes values from the
  // cache.
  datatype Step =
    | Take(id: nat, layer: string, zs: string, xs: string, ys: string)
    | Look(id: nat, found: Option<seq<Byte>>)
    | Read(id: nat)
    | Store(id: nat)
    | Lose(gone: set<Cached>)

  // The sources of the layers, everything that the tiers of the cache and the lookups inside it
  // still hold, and the requests under way.
  datatype State = State(layers: map<string, Layer>, held: set<Cached>, flights: map<nat, Flight>) {
    ghost predicate Ok() {
      && (forall name :: name in layers ==> '/' !in name)
      && (forall id :: id in flights ==> flights[id].Ok())
    }

    // What a request deserves: what the source of its layer holds now.
    function Deserved(layer: string, t: Option<Tile>): Reply {
      if t.None? then BadRequest
      else if layer !in layers then NotFound
      else if !layers[layer].Zooms(t.value) then NoContent
      else ReplyFor(layers[layer].Content(t.value))
    }

    predicate Enabled(step: Step) {
      match step
      case Take(id, layer, zs, xs, ys) => id !in flights
      case Look(id, found) =>
        && id in flights && flights[id].phase.Taken?
        && (found.Some? ==> Cached(Key(flights[id].layer, flights[id].t), found.value) in held)
      case Read(id) => id in flights && flights[id].phase.Missed?
      case Store(id) => id in flights && flights[id].phase.HasRead?
      case Lose(gone) => true
    }

    function WithFlight(id: nat, f: Flight): State {
      State(layers, held, flights[id := f])
    }

    function Landed(id: nat): State {
      State(layers, held, flights - {id})
    }

    // The state after a step, and the reply if the step gives one.
    function Do(step: Step): (State, Option<Reply>)
      requires Enabled(step)
    {
      match step
      case Take(id, layer, zs, xs, ys) =>
        var t := ParseTile(zs, xs, ys);
        if t.None? || layer !in layers || !layers[layer].Zooms(t.value) then (this, Some(Deserved(layer, t)))
        else (WithFlight(id, Flight(layer, t.value, layers[layer], Taken)), None)
      case Look(id, found) =>
        if found.Some? then (Landed(id), Some(Data(found.value)))
        else (WithFlight(id, flights[id].(phase := Missed)), None)
      case Read(id) =>
        (WithFlight(id, flights[id].(phase := HasRead(flights[id].l.Content(flights[id].t)))), None)
      case Store(id) =>
        var f := flights[id];
        var kept := if f.l.cacheable && f.phase.r.Bytes? then {Cached(Key(f.layer, f.t), f.phase.r.data)} else {};
        (State(layers, held + kept, flights - {id}), Some(ReplyFor(f.phase.r)))
      case Lose(gone) => (State(layers, held - gone, flights), None)
    }

    // A request that has taken the source its layer has now is answered with what that source holds.
    ghost predicate RightReply(step: Step)
      requires Enabled(step)
    {
      var r := Do(step).1;
      && (step.Take? && r.Some? ==> r.value == Deserved(step.layer, ParseTile(step.zs, step.xs, step.ys)))
      && ((step.Look? || step.Store?) && r.Some? ==>
            var f := flights[step.id];
            f.layer in layers && layers[f.layer] == f.l ==> r.value == Deserved(f.layer, Some(f.t)))
    }

    // No value in the cache, and none that a request under way will store, differs from what the
    // source of its layer holds.
    ghost predicate Fresh() {
      && (forall c, layer, t: Tile :: c in held && c.key == Key(layer, t) ==> Agrees(layer, t, c.data))
      && (forall id :: id in flights && flights[id].Stores() ==>
            Agrees(flights[id].layer, flights[id].t, flights[id].l.Content(flights[id].t).data))
    }

    // As far as the tile can be asked for, its bytes are those the source holds.
    ghost predicate Agrees(layer: string, t: Tile, data: seq<Byte>) {
      layer in layers && t.Valid() && layers[layer].Zooms(t) ==> layers[layer].Content(t) == Lookup.Bytes(data)
    }

    // A new source under a name. Cache and requests under way are left as they are.
    function Replaced(name: string, l: Layer): State {
      State(layers[name := l], held, flights)
    }

    function Removed(name: string): State {
      State(layers - {name}, held, flights)
    }
  }

  // Which answer stands for what.
  lemma DeservedMeans(s: State, layer: string, t: Option<Tile>)
    ensures
      var r := s.Deserved(layer, t);
      var asked := t.Some? && layer in s.layers && s.layers[layer].minZoom <= t.value.z <= s.layers[layer].maxZoom;
      && (r == BadRequest <==> t.None?)
      && (r == NotFound <==> t.Some? && layer !in s.layers)
      && (r == Failure <==> asked && s.layers[layer].Content(t.value) == Lookup.Broken)
      && (r == NoContent <==>
            t.Some? && layer in s.layers && (asked ==> s.layers[layer].Content(t.value) == Lookup.Missing))
      && (forall bytes :: r == Data(bytes) <==> asked && s.layers[layer].Content(t.value) == Lookup.Bytes(bytes))
  {
    hide Layer.Content;
  }

  ghost predicate RunRight(s: State, steps: seq<Step>)
    decreases |steps|
  {
    steps != [] && s.Enabled(steps[0]) ==> s.RightReply(steps[0]) && RunRight(s.Do(steps[0]).0, steps[1..])
  }

  // From here on, as long as no source is replaced, every reply is right.
  ghost predicate AlwaysRight(s: State) {
    forall steps :: RunRight(s, steps)
  }

  lemma RightOn(s: State, step: Step)
    requires AlwaysRight(s) && s.Enabled(step)
    ensures s.RightReply(step) && AlwaysRight(s.Do(step).0)
  {
    assert RunRight(s, [step]);
    forall steps
      ensures RunRight(s.Do(step).0, steps)
    {
      assert RunRight(s, [step] + steps);
      assert ([step] + steps)[1..] == steps;
    }
  }

  lemma StepKeepsOk(s: State, step: Step)
    requires s.Ok() && s.Enabled(step)
    ensures s.Do(step).0.Ok()
  {
  }

  lemma StepKeepsFresh(s: State, step: Step)
    requires s.Ok() && s.Fresh() && s.Enabled(step)
    ensures s.Do(step).0.Fresh() && s.RightReply(step)
  {
    hide Key, ParseTile, Layer.Content, Tile.Valid;
    match step
    case Take(id, layer, zs, xs, ys) => TakeKeepsFresh(s, step);
    case Look(id, found) => LookKeepsFresh(s, step);
    case Read(id) => LookKeepsFresh(s, step);
    case Store(id) => StoreKeepsFresh(s, id);
    case Lose(gone) =>
  }

  lemma TakeKeepsFresh(s: State, step: Step)
    requires s.Ok() && s.Fresh() && s.Enabled(step) && step.Take?
    ensures s.Do(step).0.Fresh() && s.RightReply(step)
  {
    hide Key, ParseTile, Layer.Content, Tile.Valid;
    var s' := s.Do(step).0;
    forall id | id in s'.flights && s'.flights[id].Stores()
      ensures s'.Agrees(s'.flights[id].layer, s'.flights[id].t, s'.flights[id].l.Content(s'.flights[id].t).data)
    {
      if id in s.flights {
        assert s.flights[id].Stores();
      }
    }
  }

  lemma LookKeepsFresh(s: State, step: Step)
    requires s.Ok() && s.Fresh() && s.Enabled(step) && (step.Look? || step.Read?)
    ensures s.Do(step).0.Fresh() && s.RightReply(step)
  {
    hide Key, Layer.Content;
    var s' := s.Do(step).0;
    forall id | id in s'.flights && s'.flights[id].Stores()
      ensures s'.Agrees(s'.flights[id].layer, s'.flights[id].t, s'.flights[id].l.Content(s'.flights[id].t).data)
    {
      assert s.flights[id].Stores();
    }
    assert s.flights[step.id].Ok();
  }

  lemma StoreKeepsFresh(s: State, id: nat)
    requires s.Ok() && s.Fresh() && s.Enabled(Store(id))
    ensures s.Do(Store(id)).0.Fresh() && s.RightReply(Store(id))
  {
    hide Key, Layer.Content, Tile.Valid;
    var s', f := s.Do(Store(id)).0, s.flights[id];
    assert f.Ok();
    forall c, layer, t: Tile | c in s'.held && c.key == Key(layer, t)
      ensures s'.Agrees(layer, t, c.data)
    {
      if c in s.held {
        assert s.Agrees(layer, t, c.data);
      } else if layer in s.layers {
        KeysDiffer(layer, t, f.layer, f.t);
        assert s.flights[id].Stores();
      }
    }
    forall i | i in s'.flights && s'.flights[i].Stores()
      ensures s'.Agrees(s'.flights[i].layer, s'.flights[i].t, s'.flights[i].l.Content(s'.flights[i].t).data)
    {
      assert s.flights[i].Stores();
    }
  }

  lemma {:induction false} FreshRunsRight(s: State, steps: seq<Step>)
    requires s.Ok() && s.Fresh()
    ensures RunRight(s, steps)
    decreases |steps|
  {
    hide State.Ok, State.Fresh, State.Enabled, State.RightReply, State.Do;
    if steps != [] && s.Enabled(steps[0]) {
      StepKeepsOk(s, steps[0]);
      StepKeepsFresh(s, steps[0]);
      FreshRunsRight(s.Do(steps[0]).0, steps[1..]);
    }
  }

  lemma {:induction false} UnusedId(ids: set<nat>) returns (id: nat)
    ensures id !in ids
  {
    id := Above(ids);
  }

  // A number above all of these.
  lemma {:induction false} Above(ids: set<nat>) returns (n: nat)
    ensures forall i :: i in ids ==> i < n
    decreases ids
  {
    if ids == {} {
      n := 0;
    } else {
      var i :| i in ids;
      assert forall j :: j in ids ==> j == i || j in ids - {i};
      n := Above(ids - {i});
      if n <= i {
        n := i + 1;
      }
    }
  }

  // A value in the cache that differs from what the source holds can be returned.
  lemma HeldShows(s: State, c: Cached, layer: string, t: Tile)
    requires s.Ok() && AlwaysRight(s) && c in s.held && c.key == Key(layer, t)
    ensures s.Agrees(layer, t, c.data)
  {
    if layer in s.layers && t.Valid() && s.layers[layer].Zooms(t) {
      var id := UnusedId(s.flights.Keys);
      EveryTileCanBeAsked(t);
      var take := Take(id, layer, Decimal(t.z), Decimal(t.x), Decimal(t.y));
      hide Key, Layer.Content, ParseTile, Decimal, AlwaysRight;
      RightOn(s, take);
      var s' := s.Do(take).0;
      RightOn(s', Look(id, Some(c.data)));
    }
  }

  // What a request under way will store can be returned after that.
  lemma FlightShows(s: State, id: nat)
    requires s.Ok() && AlwaysRight(s) && id in s.flights && s.flights[id].Stores()
    ensures s.Agrees(s.flights[id].layer, s.flights[id].t, s.flights[id].l.Content(s.flights[id].t).data)
    decreases match s.flights[id].phase { case Taken => 2 case Missed => 1 case HasRead(_) => 0 }
  {
    hide Key, Layer.Content, AlwaysRight, Tile.Valid;
    var f := s.flights[id];
    assert f.Ok();
    var step := match f.phase { case Taken => Look(id, None) case Missed => Read(id) case HasRead(_) => Store(id) };
    assert s.Enabled(step);
    RightOn(s, step);
    StepKeepsOk(s, step);
    var s' := s.Do(step).0;
    if f.phase.HasRead? {
      HeldShows(s', Cached(Key(f.layer, f.t), f.phase.r.data), f.layer, f.t);
    } else {
      FlightShows(s', id);
    }
  }

  // Every reply from here on is right exactly when nothing that the cache holds, and nothing that a
  // request under way will store, is out of date.
  lemma AlwaysRightIff(s: State)
    requires s.Ok()
    ensures AlwaysRight(s) <==> s.Fresh()
  {
    if s.Fresh() {
      forall steps
        ensures RunRight(s, steps)
      {
        FreshRunsRight(s, steps);
      }
    }
    if AlwaysRight(s) {
      hide AlwaysRight, State.Agrees, Flight.Stores;
      forall c, layer, t: Tile | c in s.held && c.key == Key(layer, t)
        ensures s.Agrees(layer, t, c.data)
      {
        HeldShows(s, c, layer, t);
      }
      forall id | id in s.flights && s.flights[id].Stores()
        ensures s.flights[id].l.Content(s.flights[id].t).Bytes?
        ensures s.Agrees(s.flights[id].layer, s.flights[id].t, s.flights[id].l.Content(s.flights[id].t).data)
      {
        FlightShows(s, id);
      }
    }
  }

  // ----- replacing a source

  // The new source holds the same tile.
  predicate SameTile(l: Layer, t: Tile, data: seq<Byte>) {
    t.Valid() && l.Zooms(t) ==> l.Content(t) == Lookup.Bytes(data)
  }

  lemma ReplaceKeepsOk(s: State, name: string, l: Layer)
    requires s.Ok() && '/' !in name
    ensures s.Replaced(name, l).Ok()
  {
  }

  // Replacing a source keeps every reply right exactly when each tile that is cached for the name,
  // and each that a request under way will still store for it, is the new source's tile.
  lemma ReplaceStaysRightIff(s: State, name: string, l: Layer)
    requires s.Ok() && '/' !in name && AlwaysRight(s)
    ensures
      AlwaysRight(s.Replaced(name, l)) <==>
      && (forall c, t: Tile :: c in s.held && c.key == Key(name, t) ==> SameTile(l, t, c.data))
      && (forall id :: id in s.flights && s.flights[id].layer == name && s.flights[id].Stores() ==>
            SameTile(l, s.flights[id].t, s.flights[id].l.Content(s.flights[id].t).data))
  {
    hide AlwaysRight, Key, Layer.Content, State.Ok;
    ReplaceKeepsOk(s, name, l);
    AlwaysRightIff(s);
    AlwaysRightIff(s.Replaced(name, l));
    assert forall t: Tile, data :: s.Replaced(name, l).Agrees(name, t, data) <==> SameTile(l, t, data);
  }

  // Nothing for this name and these zooms is in the cache or about to be put there.
  ghost predicate NothingKept(s: State, name: string, lo: nat, hi: nat) {
    && (forall c, t: Tile :: c in s.held && c.key == Key(name, t) ==> !(t.Valid() && lo <= t.z <= hi))
    && (forall id :: id in s.flights && s.flights[id].layer == name && s.flights[id].Stores() ==>
          !(lo <= s.flights[id].t.z <= hi))
  }

  // Whatever the new source holds, every reply stays right: exactly when nothing is kept.
  lemma AnyReplacementIsRightIff(s: State, name: string, lo: nat, hi: nat, cacheable: bool)
    requires s.Ok() && '/' !in name && AlwaysRight(s)
    ensures
      (forall store :: AlwaysRight(s.Replaced(name, Layer(store, lo, hi, cacheable)))) <==> NothingKept(s, name, lo, hi)
  {
    hide AlwaysRight, Key, State.Ok, State.Replaced, Flight.Stores, Tile.Valid;
    if NothingKept(s, name, lo, hi) {
      forall store
        ensures AlwaysRight(s.Replaced(name, Layer(store, lo, hi, cacheable)))
      {
        ReplaceStaysRightIff(s, name, Layer(store, lo, hi, cacheable));
      }
    } else {
      EmptySourceIsWrong(s, name, Layer(Other((t: Tile) => Lookup.Missing), lo, hi, cacheable));
    }
  }

  lemma EmptySourceIsWrong(s: State, name: string, l: Layer)
    requires s.Ok() && '/' !in name && AlwaysRight(s) && !NothingKept(s, name, l.minZoom, l.maxZoom)
    requires forall t: Tile :: l.Content(t) == Lookup.Missing
    ensures !AlwaysRight(s.Replaced(name, l))
  {
    hide AlwaysRight, Key, State.Replaced, Tile.Valid, Layer.Content;
    ReplaceStaysRightIff(s, name, l);
    if c, t: Tile :| c in s.held && c.key == Key(name, t) && t.Valid() && l.minZoom <= t.z <= l.maxZoom {
      assert !SameTile(l, t, c.data);
    } else {
      var id :| id in s.flights && s.flights[id].layer == name && s.flights[id].Stores() &&
                l.minZoom <= s.flights[id].t.z <= l.maxZoom;
      assert s.flights[id].Ok();
      assert !SameTile(l, s.flights[id].t, s.flights[id].l.Content(s.flights[id].t).data);
    }
  }

  // Taking a source away makes no reply wrong, but it does not help either: with the name comes
  // back what was kept for it.
  lemma RemoveStaysRight(s: State, name: string)
    requires s.Ok() && AlwaysRight(s)
    ensures AlwaysRight(s.Removed(name))
  {
    hide AlwaysRight, Key, Layer.Content;
    AlwaysRightIff(s);
    AlwaysRightIff(s.Removed(name));
  }

  lemma RemoveForgetsNothing(s: State, name: string, l: Layer)
    ensures s.Removed(name).Replaced(name, l) == s.Replaced(name, l)
  {
  }

  // A source with one tile for everything.
  function Everywhere(data: seq<Byte>): Layer {
    Layer(Other((t: Tile) => Lookup.Bytes(data)), 0, 0, true)
  }

  lemma RequestForOrigin()
    ensures ParseTile("0", "0", "0") == Some(Tile(0, 0, 0))
  {
    assert Value("0"[..0]) == 0;
  }

  // Nothing is cached and one request is under way when the source is replaced: it stores the old
  // tile, and later requests get that.
  lemma LateStoreExample()
    ensures
      var s := State(map["a" := Everywhere([1])], {}, map[]).Do(Take(0, "a", "0", "0", "0")).0;
      s.held == {} && AlwaysRight(s) && !AlwaysRight(s.Replaced("a", Everywhere([2])))
  {
    hide AlwaysRight, Key, ParseTile;
    RequestForOrigin();
    var t := Tile(0, 0, 0);
    var s := State(map["a" := Everywhere([1])], {}, map[]).Do(Take(0, "a", "0", "0", "0")).0;
    assert s == State(map["a" := Everywhere([1])], {}, map[0 := Flight("a", t, Everywhere([1]), Taken)]);
    AlwaysRightIff(s);
    ReplaceStaysRightIff(s, "a", Everywhere([2]));
    assert s.flights[0].Stores() && !SameTile(Everywhere([2]), t, [1]);
  }

  // A tile is cached when the source is replaced.
  lemma StaleTileExample()
    ensures
      var s := State(map["a" := Everywhere([1])], {Cached(Key("a", Tile(0, 0, 0)), [1])}, map[]);
      AlwaysRight(s) && !AlwaysRight(s.Replaced("a", Everywhere([2])))
  {
    hide AlwaysRight, Key;
    var t := Tile(0, 0, 0);
    var s := State(map["a" := Everywhere([1])], {Cached(Key("a", t), [1])}, map[]);
    forall c, layer, u: Tile | c in s.held && c.key == Key(layer, u)
      ensures s.Agrees(layer, u, c.data)
    {
    }
    AlwaysRightIff(s);
    ReplaceStaysRightIff(s, "a", Everywhere([2]));
    assert Cached(Key("a", t), [1]) in s.held && !SameTile(Everywhere([2]), t, [1]);
  }

  // ----- the server

  class Handler {
    var layers: map<string, Layer>
    var held: set<Cached>
    var flights: map<nat, Flight>

    function Now(): State
      reads this
    {
      State(layers, held, flights)
    }

    ghost predicate Valid()
      reads this
    {
      Now().Ok()
    }

    // The tile cache may hold something from the start: its files outlive the process.
    constructor (held: set<Cached>)
      ensures Valid() && Now() == State(map[], held, map[])
    {
      this.layers, this.held, this.flights := map[], held, map[];
    }

    method Replace(name: string, l: Layer)
      requires Valid() && '/' !in name
      modifies this
      ensures Valid() && Now() == old(Now()).Replaced(name, l)
    {
      layers := layers[name := l];
    }

    method Remove(name: string)
      requires Valid()
      modifies this
      ensures Valid() && Now() == old(Now()).Removed(name)
    {
      layers := layers - {name};
    }

    // The cache drops values, or is purged.
    method Drop(gone: set<Cached>)
      requires Valid()
      modifies this
      ensures Valid() && (Now(), None) == old(Now()).Do(Lose(gone))
    {
      held := held - gone;
    }

    // A request up to its look into the cache: its tile, its layer's source, the zoom range.
    method Begin(id: nat, layer: string, zs: string, xs: string, ys: string) returns (r: Option<Reply>)
      requires Valid() && Now().Enabled(Take(id, layer, zs, xs, ys))
      modifies this
      ensures Valid() && (Now(), r) == old(Now()).Do(Take(id, layer, zs, xs, ys))
    {
      hide ParseTile;
      var t := ParseTile(zs, xs, ys);
      if t.None? {
        return Some(BadRequest);
      }
      if layer !in layers {
        return Some(NotFound);
      }
      var l := layers[layer];
      if t.value.z < l.minZoom || t.value.z > l.maxZoom {
        return Some(NoContent);
      }
      flights := flights[id := Flight(layer, t.value, l, Taken)];
      r := None;
    }

    method LookInCache(id: nat, found: Option<seq<Byte>>) returns (r: Option<Reply>)
      requires Valid() && Now().Enabled(Look(id, found))
      modifies this
      ensures Valid() && (Now(), r) == old(Now()).Do(Look(id, found))
    {
      if found.Some? {
        flights := flights - {id};
        return Some(Data(found.value));
      }
      flights := flights[id := flights[id].(phase := Missed)];
      r := None;
    }

    method ReadTile(id: nat)
      requires Valid() && Now().Enabled(Read(id))
      modifies this
      ensures Valid() && (Now(), None) == old(Now()).Do(Read(id))
    {
      hide Layer.Content;
      var f := flights[id];
      assert f.Ok();
      var r := SourceTile(f.l, f.t);
      flights := flights[id := f.(phase := HasRead(r))];
    }

    method Finish(id: nat) returns (r: Reply)
      requires Valid() && Now().Enabled(Store(id))
      modifies this
      ensures Valid() && (Now(), Some(r)) == old(Now()).Do(Store(id))
    {
      var f := flights[id];
      var kept: set<Cached> := {};
      match f.phase.r {
        case Missing => r := NoContent;
        case Broken => r := Failure;
        case Bytes(data) =>
          if f.l.cacheable {
            kept := {Cached(Key(f.layer, f.t), data)};
          }
          r := Data(data);
      }
      held := held + kept;
      flights := flights - {id};
    }

    // serveTile from its first step to its last. cached is what the cache answers for the tile.
    method Serve(id: nat, layer: string, zs: string, xs: string, ys: string, cached: Option<seq<Byte>>)
        returns (r: Reply)
      requires Valid() && id !in flights
      requires cached.Some? ==>
        ParseTile(zs, xs, ys).None? || Cached(Key(layer, ParseTile(zs, xs, ys).value), cached.value) in held
      modifies this
      ensures Valid() && layers == old(layers) && flights == old(flights)
      ensures AlwaysRight(old(Now())) ==> AlwaysRight(Now()) && r == old(Now()).Deserved(layer, ParseTile(zs, xs, ys))
    {
      hide ParseTile, AlwaysRight, Key, Layer.Content, State.Ok;
      ghost var right := AlwaysRight(Now());
      if right {
        RightOn(Now(), Take(id, layer, zs, xs, ys));
      }
      var answer := Begin(id, layer, zs, xs, ys);
      if answer.Some? {
        return answer.value;
      }
      if right {
        RightOn(Now(), Look(id, cached));
      }
      answer := LookInCache(id, cached);
      if answer.Some? {
        return answer.value;
      }
      if right {
        RightOn(Now(), Read(id));
      }
      ReadTile(id);
      if right {
        RightOn(Now(), Store(id));
      }
      r := Finish(id);
    }
  }

  // Tile of a layer's source.
  method SourceTile(l: Layer, t: Tile) returns (r: Lookup.TileBytes)
    requires t.Valid()
    ensures r == l.Content(t)
    ensures forall tiles :: ArchiveOf(l, tiles) ==> r == InMap(tiles, t)
  {
    hide ArchiveOf, InMap, Lookup.TileOf;
    ValidIff(t);
    forall tiles | ArchiveOf(l, tiles)
      ensures l.Content(t) == InMap(tiles, t)
    {
      AnswerIsTheTile(l, tiles, t);
    }
    match l.store {
      case PMTiles(a, root) =>
        TileId.WordBounds(t.z);
        r := Lookup.Tile(a, root, t.z, t.x, t.y);
      case Other(tile) =>
        r := tile(t);
    }
  }
}
