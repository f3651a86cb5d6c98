/** What the reader in internal/source/pmtiles/pmtiles.go is for: the tiles that were put down in an
    archive, under directories of any shape, are the ones that Tile reads back. The layout is that of
    sections 2 to 4 of the PMTiles version 3 specification. */
module ArchiveLayout {
  import opened Options
  import opened Varint
  import opened Directory
  import opened Lookup
  import TileId

  // What is put down: tiles of consecutive ids that all have these bytes, or a leaf directory.
  datatype Node =
    | Run(id: nat, count: nat, data: seq<Byte>)
    | Sub(id: nat, nodes: seq<Node>)

  // Where the node after the i-th begins; the last one ends where its directory does.
  function Until(nodes: seq<Node>, hi: nat, i: nat): nat
    requires i < |nodes|
  {
    if i + 1 < |nodes| then nodes[i + 1].id else hi
  }

  // A directory for the ids from lo up to hi, with at most d levels: nodes in order, runs that do not
  // overlap, tiles of at least one byte, no directory that is empty or too large.
  ghost predicate Plan(nodes: seq<Node>, lo: nat, hi: nat, d: nat)
    decreases d, 1
  {
    && d > 0 && hi < TWO_64 && 1 <= |nodes| <= MAX_ENTRIES
    && (forall i :: 0 <= i < |nodes| ==>
          lo <= nodes[i].id < Until(nodes, hi, i) <= hi && PlanNode(nodes[i], Until(nodes, hi, i), d))
  }

  ghost predicate PlanNode(node: Node, hi: nat, d: nat)
    requires d > 0
    decreases d, 0
  {
    match node
    case Run(id, count, data) => count > 0 && id + count <= hi && data != []
    case Sub(id, nodes) => Plan(nodes, id, hi, d - 1)
  }

  // The runs of a plan, from left to right.
  function Runs(nodes: seq<Node>): seq<Node>
    decreases nodes
  {
    if nodes == [] then [] else
      var last := nodes[|nodes| - 1];
      Runs(nodes[..|nodes| - 1]) + match last case Run(_, _, _) => [last] case Sub(_, below) => Runs(below)
  }

  predicate Spans(run: Node, id: nat) {
    run.Run? && run.id <= id < run.id + run.count
  }

  // What there is for an id: the bytes of the run that spans it, or no tile.
  ghost predicate PutDown(nodes: seq<Node>, id: nat, r: TileBytes) {
    && (forall run :: run in Runs(nodes) && Spans(run, id) ==> r == Bytes(run.data))
    && ((forall run :: run in Runs(nodes) ==> !Spans(run, id)) ==> r == Missing)
  }

  // ----- sections of a file

  // Whatever stands before and after it, a section is read as it was put down.
  lemma SectionIsRead(pre: seq<Byte>, data: seq<Byte>, post: seq<Byte>)
    requires |pre| < 0x8000_0000_0000_0000 && |data| < 0x8000_0000_0000_0000
    ensures Section(pre + data + post, |pre|, |data|) == Ok(data)
  {
  }

  // A section is refused exactly when it runs past the end of the file or cannot be addressed.
  lemma SectionRefusedIff(file: seq<Byte>, offset: nat, length: nat)
    ensures Section(file, offset, length).Err? <==>
            offset + length > |file| || offset >= 0x8000_0000_0000_0000 || length >= 0x8000_0000_0000_0000
  {
  }

  lemma HeldIsRead(file: seq<Byte>, at: nat, piece: seq<Byte>)
    requires |file| <= MAX_INT && Holds(file, at, piece)
    ensures Section(file, at % TWO_64, |piece|) == Ok(piece)
  {
    assert at < TWO_64;
    var pre, post := file[..at], file[at + |piece|..];
    assert file == pre + piece + post;
    SectionIsRead(pre, piece, post);
  }

  // ----- a plan laid out in a file

  // The packed encoding of the directory stands there.
  ghost predicate DirectoryAt(a: Archive, es: seq<Entry>, at: nat, length: nat) {
    && Ascending(es) && length > 0 && at + length <= |a.file|
    && a.decompress(a.file[at..at + length]) == Ok(EncodeDirectory(es))
  }

  // The entries point to where the tiles and the leaf directories of the plan stand.
  ghost predicate LaidOut(a: Archive, nodes: seq<Node>, es: seq<Entry>)
    decreases nodes
  {
    |es| == |nodes| && forall i :: 0 <= i < |nodes| ==> LaidAs(a, nodes[i], es[i])
  }

  ghost predicate LaidAs(a: Archive, node: Node, e: Entry)
    decreases node
  {
    e.tileID == node.id &&
    match node
    case Run(_, count, data) =>
      e.runLength == count && e.length == |data| && Holds(a.file, a.tileDataOffset + e.offset, data)
    case Sub(_, nodes) =>
      e.runLength == 0 && exists es :: DirectoryAt(a, es, a.leafOffset + e.offset, e.length) && LaidOut(a, nodes, es)
  }

  lemma LaidEntry(a: Archive, node: Node, e: Entry, hi: nat, d: nat)
    requires |a.file| <= MAX_INT && d > 0 && PlanNode(node, hi, d) && LaidAs(a, node, e) && node.id < hi < TWO_64
    ensures FieldsFit(e) && e.offset + 1 < TWO_64
  {
    hide Plan, LaidOut;
    if node.Sub? {
      var es :| DirectoryAt(a, es, a.leafOffset + e.offset, e.length) && LaidOut(a, node.nodes, es);
    }
  }

  lemma LaidIsEncodable(a: Archive, nodes: seq<Node>, es: seq<Entry>, lo: nat, hi: nat, d: nat)
    requires |a.file| <= MAX_INT && Plan(nodes, lo, hi, d) && LaidOut(a, nodes, es)
    ensures Encodable(es)
  {
    hide PlanNode, FieldsFit;
    forall i | 0 <= i < |es|
      ensures FieldsFit(es[i]) && es[i].offset + 1 < TWO_64
    {
      LaidEntry(a, nodes[i], es[i], Until(nodes, hi, i), d);
    }
    forall i | 0 < i < |es|
      ensures es[i - 1].tileID <= es[i].tileID
    {
      assert LaidAs(a, nodes[i - 1], es[i - 1]) && LaidAs(a, nodes[i], es[i]);
      assert nodes[i - 1].id < Until(nodes, hi, i - 1);
    }
  }

  // What the reader makes of the entries: the runs with their bytes, and the leaf directories.
  ghost predicate Matches(a: Archive, run: Node, e: Entry) {
    run.Run? && e.tileID == run.id && e.runLength == run.count > 0 && StoredFor(a, e) == Bytes(run.data)
  }

  ghost predicate Readable(a: Archive, nodes: seq<Node>, es: seq<Entry>, d: nat)
    decreases d, 1
  {
    d > 0 && |es| == |nodes| && forall i :: 0 <= i < |nodes| ==> ReadAs(a, nodes[i], es[i], d)
  }

  ghost predicate ReadAs(a: Archive, node: Node, e: Entry, d: nat)
    requires d > 0
    decreases d, 0
  {
    match node
    case Run(_, _, _) => Matches(a, node, e)
    case Sub(id, nodes) =>
      e.tileID == id && e.runLength == 0 && Leaf(a, e).Ok? && Readable(a, nodes, Leaf(a, e).value, d - 1)
  }

  lemma LeafIsRead(a: Archive, e: Entry, es: seq<Entry>)
    requires |a.file| <= MAX_INT && Encodable(es) && DirectoryAt(a, es, a.leafOffset + e.offset, e.length)
    ensures Leaf(a, e) == Ok(es)
  {
    hide EncodeDirectory, Decode;
    var at := a.leafOffset + e.offset;
    HeldIsRead(a.file, at, a.file[at..at + e.length]);
    DecodeInvertsEncode(es);
  }

  lemma {:induction false} LaidIsReadable(a: Archive, nodes: seq<Node>, es: seq<Entry>, lo: nat, hi: nat, d: nat)
    requires |a.file| <= MAX_INT && Plan(nodes, lo, hi, d) && LaidOut(a, nodes, es)
    ensures Readable(a, nodes, es, d)
    decreases d
  {
    hide Leaf, DirectoryAt, Section, Holds;
    forall i | 0 <= i < |nodes|
      ensures ReadAs(a, nodes[i], es[i], d)
    {
      assert PlanNode(nodes[i], Until(nodes, hi, i), d) && LaidAs(a, nodes[i], es[i]);
      match nodes[i]
      case Run(id, count, data) =>
        HeldIsRead(a.file, a.tileDataOffset + es[i].offset, data);
      case Sub(id, below) =>
        var leaf :| DirectoryAt(a, leaf, a.leafOffset + es[i].offset, es[i].length) && LaidOut(a, below, leaf);
        LaidIsEncodable(a, below, leaf, id, Until(nodes, hi, i), d - 1);
        LeafIsRead(a, es[i], leaf);
        LaidIsReadable(a, below, leaf, id, Until(nodes, hi, i), d - 1);
    }
  }

  lemma {:induction false} ReadableIsWellFormed(a: Archive, nodes: seq<Node>, es: seq<Entry>, lo: nat, hi: nat, d: nat)
    requires Plan(nodes, lo, hi, d) && Readable(a, nodes, es, d)
    ensures WellFormed(a, es, lo, hi, d)
    decreases d
  {
    hide Leaf, StoredFor;
    forall i | 0 <= i < |es|
      ensures lo <= es[i].tileID < End(es, hi, i) <= hi && es[i].tileID + es[i].runLength <= End(es, hi, i)
      ensures es[i].runLength == 0 ==>
        Leaf(a, es[i]).Ok? && WellFormed(a, Leaf(a, es[i]).value, es[i].tileID, End(es, hi, i), d - 1)
    {
      assert ReadAs(a, nodes[i], es[i], d) && PlanNode(nodes[i], Until(nodes, hi, i), d);
      assert i + 1 < |es| ==> ReadAs(a, nodes[i + 1], es[i + 1], d);
      assert Until(nodes, hi, i) == End(es, hi, i);
      if nodes[i].Sub? {
        ReadableIsWellFormed(a, nodes[i].nodes, Leaf(a, es[i]).value, nodes[i].id, Until(nodes, hi, i), d - 1);
      }
    }
  }

  // The runs of the plan and those of the directories, one for one.
  ghost predicate Listed(a: Archive, runs: seq<Node>, es: seq<Entry>) {
    |runs| == |es| && forall i :: 0 <= i < |runs| ==> Matches(a, runs[i], es[i])
  }

  lemma {:induction false} RunsAreListed(a: Archive, nodes: seq<Node>, es: seq<Entry>, d: nat)
    requires Readable(a, nodes, es, d)
    ensures Listed(a, Runs(nodes), Flatten(a, es, d))
    decreases d, |nodes|
  {
    hide Leaf, Matches;
    if nodes != [] {
      var n := |nodes| - 1;
      assert ReadAs(a, nodes[n], es[n], d);
      RunsAreListed(a, nodes[..n], es[..n], d);
      if nodes[n].Sub? {
        RunsAreListed(a, nodes[n].nodes, Leaf(a, es[n]).value, d - 1);
      } else {
        MatchesRuns(a, nodes[n], es[n]);
      }
    }
  }

  lemma MatchesRuns(a: Archive, run: Node, e: Entry)
    requires Matches(a, run, e)
    ensures e.runLength > 0
  {
  }

  // For a file with a plan laid out in it, Tile returns exactly the bytes put down for the tile's id,
  // and no tile for an id with none.
  lemma TileIsWhatWasPutDown(a: Archive, nodes: seq<Node>, root: seq<Entry>, lo: nat, hi: nat, d: nat,
                             z: nat, x: nat, y: nat)
    requires |a.file| <= MAX_INT && Plan(nodes, lo, hi, d) && d <= MAX_DEPTH && LaidOut(a, nodes, root) && z <= 31
    ensures PutDown(nodes, TileId.Id(z, x, y), TileOf(a, root, z, x, y))
  {
    hide Plan, LaidOut, Readable, WellFormed, Flatten, Runs, Descend, StoredFor, TileId.Id;
    var id := TileId.Id(z, x, y);
    LaidIsReadable(a, nodes, root, lo, hi, d);
    ReadableIsWellFormed(a, nodes, root, lo, hi, d);
    RunsAreListed(a, nodes, root, d);
    var runs, found := Runs(nodes), Flatten(a, root, d);
    var answer := Descend(a, root, id, MAX_DEPTH);
    forall run | run in runs && Spans(run, id)
      ensures TileOf(a, root, z, x, y) == Bytes(run.data)
    {
      var i :| 0 <= i < |runs| && runs[i] == run;
      assert Matches(a, runs[i], found[i]);
      LookupIsScan(a, root, lo, hi, d, id, found[i]);
    }
    LookupIsScan(a, root, lo, hi, d, id, Entry(0, 0, 0, 0));
    if answer.Found? {
      LookupIsScan(a, root, lo, hi, d, id, answer.e);
      var i :| 0 <= i < |found| && found[i] == answer.e;
      assert Matches(a, runs[i], found[i]);
      assert runs[i] in runs && Spans(runs[i], id);
    }
  }

  // ----- writing an archive

  // Directories in order, all the way down.
  ghost predicate Sorted(nodes: seq<Node>)
    decreases nodes
  {
    && (forall i :: 0 < i < |nodes| ==> nodes[i - 1].id <= nodes[i].id)
    && (forall i :: 0 <= i < |nodes| && nodes[i].Sub? ==> Sorted(nodes[i].nodes))
  }

  lemma {:induction false} PlanIsSorted(nodes: seq<Node>, lo: nat, hi: nat, d: nat)
    requires Plan(nodes, lo, hi, d)
    ensures Sorted(nodes)
    decreases d
  {
    forall i | 0 < i < |nodes|
      ensures nodes[i - 1].id <= nodes[i].id
    {
      assert nodes[i - 1].id < Until(nodes, hi, i - 1);
    }
    forall i | 0 <= i < |nodes| && nodes[i].Sub?
      ensures Sorted(nodes[i].nodes)
    {
      assert PlanNode(nodes[i], Until(nodes, hi, i), d);
      PlanIsSorted(nodes[i].nodes, nodes[i].id, Until(nodes, hi, i), d - 1);
    }
  }

  // The two sections that grow while a plan is put down.
  datatype Sections = Sections(leaves: seq<Byte>, tiles: seq<Byte>)

  type Pack = seq<Byte> -> seq<Byte>

  // One node after the other, a leaf directory after what it points to.
  ghost function Put(nodes: seq<Node>, pack: Pack, w: Sections): (r: (seq<Entry>, Sections))
    requires Sorted(nodes)
    ensures |r.0| == |nodes| && forall i :: 0 <= i < |nodes| ==> r.0[i].tileID == nodes[i].id
    ensures w.leaves <= r.1.leaves && w.tiles <= r.1.tiles
    decreases nodes
  {
    if nodes == [] then ([], w) else
      var n := |nodes| - 1;
      var (es, w1) := Put(nodes[..n], pack, w);
      var (e, w2) := PutNode(nodes[n], pack, w1);
      (es + [e], w2)
  }

  ghost function PutNode(node: Node, pack: Pack, w: Sections): (r: (Entry, Sections))
    requires node.Sub? ==> Sorted(node.nodes)
    ensures r.0.tileID == node.id && w.leaves <= r.1.leaves && w.tiles <= r.1.tiles
    decreases node
  {
    match node
    case Run(id, count, data) => (Entry(id, |w.tiles|, |data|, count), Sections(w.leaves, w.tiles + data))
    case Sub(id, nodes) =>
      var (es, w1) := Put(nodes, pack, w);
      var packed := pack(EncodeDirectory(es));
      (Entry(id, |w1.leaves|, |packed|, 0), Sections(w1.leaves + packed, w1.tiles))
  }

  ghost predicate Unpacks(decompress: seq<Byte> -> Result<seq<Byte>>, pack: Pack) {
    forall s :: s != [] ==> pack(s) != [] && decompress(pack(s)) == Ok(s)
  }

  // The sections stand in the file where its header says.
  ghost predicate InFile(a: Archive, w: Sections) {
    Holds(a.file, a.leafOffset, w.leaves) && Holds(a.file, a.tileDataOffset, w.tiles)
  }

  lemma HoldsPart(s: seq<Byte>, at: nat, whole: seq<Byte>, part: seq<Byte>)
    requires Holds(s, at, whole) && part <= whole
    ensures Holds(s, at, part)
  {
    assert whole == part + whole[|part|..];
    HoldsParts(s, at, part, whole[|part|..]);
  }

  lemma InFileBefore(a: Archive, w: Sections, w': Sections)
    requires InFile(a, w') && w.leaves <= w'.leaves && w.tiles <= w'.tiles
    ensures InFile(a, w)
  {
    HoldsPart(a.file, a.leafOffset, w'.leaves, w.leaves);
    HoldsPart(a.file, a.tileDataOffset, w'.tiles, w.tiles);
  }

  lemma {:induction false} PutLaysOut(a: Archive, nodes: seq<Node>, pack: Pack, w: Sections)
    requires Sorted(nodes) && Unpacks(a.decompress, pack) && InFile(a, Put(nodes, pack, w).1)
    ensures LaidOut(a, nodes, Put(nodes, pack, w).0)
    decreases nodes
  {
    hide LaidAs, Unpacks, InFile, PutNode;
    if nodes != [] {
      var n := |nodes| - 1;
      var (es, w1) := Put(nodes[..n], pack, w);
      var (e, w2) := PutNode(nodes[n], pack, w1);
      InFileBefore(a, w1, w2);
      PutLaysOut(a, nodes[..n], pack, w);
      PutNodeLaysOut(a, nodes[n], pack, w1);
    }
  }

  lemma {:induction false} PutNodeLaysOut(a: Archive, node: Node, pack: Pack, w: Sections)
    requires (node.Sub? ==> Sorted(node.nodes)) && Unpacks(a.decompress, pack) && InFile(a, PutNode(node, pack, w).1)
    ensures LaidAs(a, node, PutNode(node, pack, w).0)
    decreases node
  {
    hide LaidOut, EncodeDirectory, Put, Sorted;
    match node
    case Run(id, count, data) =>
      HoldsParts(a.file, a.tileDataOffset, w.tiles, data);
    case Sub(id, nodes) =>
      var (es, w1) := Put(nodes, pack, w);
      InFileBefore(a, w1, PutNode(node, pack, w).1);
      PutLaysOut(a, nodes, pack, w);
      PutAscends(nodes, pack, w);
      EncodingIsNotEmpty(es);
      HoldsParts(a.file, a.leafOffset, w1.leaves, pack(EncodeDirectory(es)));
      assert DirectoryAt(a, es, a.leafOffset + |w1.leaves|, |pack(EncodeDirectory(es))|);
  }

  lemma PutAscends(nodes: seq<Node>, pack: Pack, w: Sections)
    requires Sorted(nodes)
    ensures Ascending(Put(nodes, pack, w).0)
  {
    var es := Put(nodes, pack, w).0;
    assert |es| == |nodes| && forall i :: 0 <= i < |nodes| ==> es[i].tileID == nodes[i].id;
    hide Put;
  }

  lemma EncodingIsNotEmpty(es: seq<Entry>)
    requires Ascending(es)
    ensures EncodeDirectory(es) != []
  {
  }

  // The whole file: a header, the root directory, metadata, the leaf directories, the tiles.
  datatype Written = Written(a: Archive, root: seq<Entry>, rootOffset: nat, rootLength: nat)

  ghost function Write(head: seq<Byte>, meta: seq<Byte>, nodes: seq<Node>, pack: Pack,
                       decompress: seq<Byte> -> Result<seq<Byte>>): Written
    requires Sorted(nodes)
  {
    var (root, w) := Put(nodes, pack, Sections([], []));
    var packed := pack(EncodeDirectory(root));
    var pre := head + packed + meta;
    Written(Archive(pre + w.leaves + w.tiles, |pre|, |pre| + |w.leaves|, decompress), root, |head|, |packed|)
  }

  lemma WrittenIsInFile(pre: seq<Byte>, w: Sections, decompress: seq<Byte> -> Result<seq<Byte>>)
    ensures InFile(Archive(pre + w.leaves + w.tiles, |pre|, |pre| + |w.leaves|, decompress), w)
  {
    var file := pre + w.leaves + w.tiles;
    assert file[|pre|..|pre| + |w.leaves|] == w.leaves;
    assert file[|pre| + |w.leaves|..|pre| + |w.leaves| + |w.tiles|] == w.tiles;
  }

  // A directory that stands in a file is read.
  lemma DirectoryIsRead(a: Archive, pre: seq<Byte>, es: seq<Entry>, pack: Pack, post: seq<Byte>)
    requires Encodable(es) && Unpacks(a.decompress, pack) && |a.file| <= MAX_INT
    requires a.file == pre + pack(EncodeDirectory(es)) + post
    ensures ReadDirectory(a, |pre|, |pack(EncodeDirectory(es))|) == Ok(es)
  {
    hide Encodable, EncodeDirectory, Decode, Section;
    EncodableAscends(es);
    SectionIsRead(pre, pack(EncodeDirectory(es)), post);
    EncodingIsNotEmpty(es);
    DecodeInvertsEncode(es);
  }

  lemma EncodableAscends(es: seq<Entry>)
    requires Encodable(es)
    ensures Ascending(es)
  {
  }

  // What is written is laid out, and its root directory is read.
  lemma WrittenIsLaidOut(head: seq<Byte>, meta: seq<Byte>, nodes: seq<Node>, lo: nat, hi: nat, d: nat, pack: Pack,
                         decompress: seq<Byte> -> Result<seq<Byte>>)
    requires Plan(nodes, lo, hi, d) && Unpacks(decompress, pack) && Sorted(nodes)
    requires |Write(head, meta, nodes, pack, decompress).a.file| <= MAX_INT
    ensures
      var f := Write(head, meta, nodes, pack, decompress);
      LaidOut(f.a, nodes, f.root) && f.a.decompress == decompress &&
      ReadDirectory(f.a, f.rootOffset, f.rootLength) == Ok(f.root)
  {
    hide Plan, Put, EncodeDirectory, LaidOut, Sorted, Unpacks, InFile, Encodable, ReadDirectory, Ascending;
    var (root, w) := Put(nodes, pack, Sections([], []));
    PutAscends(nodes, pack, Sections([], []));
    var f := Write(head, meta, nodes, pack, decompress);
    var packed := pack(EncodeDirectory(root));
    WrittenIsInFile(head + packed + meta, w, decompress);
    PutLaysOut(f.a, nodes, pack, Sections([], []));
    LaidIsEncodable(f.a, nodes, root, lo, hi, d);
    assert f.a.file == head + packed + (meta + w.leaves + w.tiles);
    DirectoryIsRead(f.a, head, root, pack, meta + w.leaves + w.tiles);
  }

  // So writing an archive, opening it and asking for tiles gives what was put down, and nothing else.
  lemma WriteThenRead(head: seq<Byte>, meta: seq<Byte>, nodes: seq<Node>, lo: nat, hi: nat, d: nat, pack: Pack,
                      decompress: seq<Byte> -> Result<seq<Byte>>, z: nat, x: nat, y: nat)
    requires Plan(nodes, lo, hi, d) && d <= MAX_DEPTH && Unpacks(decompress, pack) && Sorted(nodes) && z <= 31
    requires |Write(head, meta, nodes, pack, decompress).a.file| <= MAX_INT
    ensures
      var f := Write(head, meta, nodes, pack, decompress);
      var root := ReadDirectory(f.a, f.rootOffset, f.rootLength);
      root.Ok? && PutDown(nodes, TileId.Id(z, x, y), TileOf(f.a, root.value, z, x, y))
  {
    hide Plan, LaidOut, Sorted, PutDown, Write, Unpacks, ReadDirectory, TileOf, TileId.Id;
    WrittenIsLaidOut(head, meta, nodes, lo, hi, d, pack, decompress);
    var f := Write(head, meta, nodes, pack, decompress);
    TileIsWhatWasPutDown(f.a, nodes, f.root, lo, hi, d, z, x, y);
  }

  // The first tile of an archive whose tile data begin at byte 200 and whose only entry has 100 bytes.
  lemma FirstTileExample(a: Archive)
    requires 300 <= |a.file| <= MAX_INT && a.tileDataOffset == 200
    ensures TileOf(a, [Entry(0, 0, 100, 1)], 0, 0, 0) == Bytes(a.file[200..300])
  {
    hide LaidOut, LaidAs, Plan, TileOf, MAX_INT, TileId.Id, Runs, PutDown, Spans;
    var data := a.file[200..300];
    var run := Run(0, 1, data);
    RunIsLaid(a, data);
    OneRun(a, run, Entry(0, 0, 100, 1));
    TileIsWhatWasPutDown(a, [run], [Entry(0, 0, 100, 1)], 0, 1, 1, 0, 0, 0);
    SpannedIs([run], 0, TileOf(a, [Entry(0, 0, 100, 1)], 0, 0, 0), run);
  }

  lemma RunIsLaid(a: Archive, data: seq<Byte>)
    requires a.tileDataOffset == 200 && |data| == 100 && Holds(a.file, 200, data)
    ensures LaidAs(a, Run(0, 1, data), Entry(0, 0, 100, 1))
  {
    hide Holds;
  }

  lemma SpannedIs(nodes: seq<Node>, id: nat, r: TileBytes, run: Node)
    requires PutDown(nodes, id, r) && run in Runs(nodes) && Spans(run, id)
    ensures r == Bytes(run.data)
  {
    hide Runs, Spans;
  }

  lemma OneRun(a: Archive, run: Node, e: Entry)
    requires run.Run? && run.id == 0 && run.count == 1 && run.data != [] && LaidAs(a, run, e)
    ensures Plan([run], 0, 1, 1) && LaidOut(a, [run], [e]) && run in Runs([run]) && Spans(run, 0)
    ensures TileId.Id(0, 0, 0) == 0
  {
    hide LaidAs, Holds;
    assert Runs([run][..0]) == [];
    assert PlanNode(run, 1, 1);
  }
}
