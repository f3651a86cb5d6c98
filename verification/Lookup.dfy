/** Finding a tile: findEntry, tileEntry and Tile in internal/source/pmtiles/pmtiles.go. */
module Lookup {
  import opened Options
  import opened Varint
  import opened Directory
  import TileId

  // ----- findEntry

  function Middle(lo: nat, hi: nat): (h: nat)
    requires lo < hi
    ensures lo <= h < hi
  {
    (lo + hi) / 2
  }

  // Where the loop of sort.Search ends up when it has narrowed the place down to lo .. hi.
  function SearchFrom(es: seq<Entry>, id: nat, lo: nat, hi: nat): (i: nat)
    requires lo <= hi <= |es|
    ensures lo <= i <= hi
    decreases hi - lo
  {
    if lo == hi then lo else
      var h := Middle(lo, hi);
      if es[h].tileID > id then SearchFrom(es, id, lo, h) else SearchFrom(es, id, h + 1, hi)
  }

  function Find(es: seq<Entry>, id: nat): Option<Entry> {
    var i := SearchFrom(es, id, 0, |es|) - 1;
    if i < 0 then None
    else if es[i].runLength == 0 || id < (es[i].tileID + es[i].runLength) % TWO_64 then Some(es[i])
    else None
  }

  // The last entry at or below the id.
  predicate LastBelow(es: seq<Entry>, id: nat, i: int) {
    0 <= i < |es| && es[i].tileID <= id && (i + 1 < |es| ==> es[i + 1].tileID > id)
  }

  // A leaf directory, or a run that has not ended.
  predicate Open(e: Entry, id: nat) {
    e.runLength == 0 || id < (e.tileID + e.runLength) % TWO_64
  }

  ghost predicate FindsLast(es: seq<Entry>, id: nat, r: Option<Entry>) {
    match r
    case Some(e) => exists i :: LastBelow(es, id, i) && es[i] == e && Open(e, id)
    case None => forall i :: LastBelow(es, id, i) ==> !Open(es[i], id)
  }

  // findEntry, with the loop of sort.Search.
  method FindEntry(es: seq<Entry>, id: nat) returns (r: Option<Entry>)
    ensures r == Find(es, id)
    ensures Ascending(es) ==> FindsLast(es, id, r)
  {
    FindIsLast(es, id);
    var lo, hi := 0, |es|;
    while lo < hi
      invariant 0 <= lo <= hi <= |es| && SearchFrom(es, id, lo, hi) == SearchFrom(es, id, 0, |es|)
    {
      var h := Middle(lo, hi);
      if !(es[h].tileID > id) {
        lo := h + 1;
      } else {
        hi := h;
      }
    }
    var i := lo - 1;
    if i < 0 {
      return None;
    }
    var e := es[i];
    if e.runLength == 0 || id < (e.tileID + e.runLength) % TWO_64 {
      return Some(e);
    }
    return None;
  }

  lemma {:induction false} AscendingFar(es: seq<Entry>, i: nat, j: nat)
    requires Ascending(es) && i <= j < |es|
    ensures es[i].tileID <= es[j].tileID
    decreases j - i
  {
    if i < j {
      AscendingFar(es, i, j - 1);
    }
  }

  // The binary search ends between an entry at or below the id and one above it.
  lemma {:induction false} SearchSplits(es: seq<Entry>, id: nat, lo: nat, hi: nat)
    requires lo <= hi <= |es|
    requires lo > 0 ==> es[lo - 1].tileID <= id
    requires hi < |es| ==> es[hi].tileID > id
    ensures
      var i := SearchFrom(es, id, lo, hi);
      (i > 0 ==> es[i - 1].tileID <= id) && (i < |es| ==> es[i].tileID > id)
    decreases hi - lo
  {
    hide SearchFrom;
    SearchHalves(es, id, lo, hi);
    if lo < hi {
      var h := Middle(lo, hi);
      if es[h].tileID > id {
        SearchSplits(es, id, lo, h);
      } else {
        SearchSplits(es, id, h + 1, hi);
      }
    }
  }

  lemma SearchHalves(es: seq<Entry>, id: nat, lo: nat, hi: nat)
    requires lo <= hi <= |es|
    ensures
      if lo == hi then SearchFrom(es, id, lo, hi) == lo
      else
        var h := Middle(lo, hi);
        SearchFrom(es, id, lo, hi) ==
        if es[h].tileID > id then SearchFrom(es, id, lo, h) else SearchFrom(es, id, h + 1, hi)
  {
  }

  lemma OnlyLast(es: seq<Entry>, id: nat, m: nat, i: int)
    requires Ascending(es) && m <= |es| && LastBelow(es, id, i)
    requires (m > 0 ==> es[m - 1].tileID <= id) && (m < |es| ==> es[m].tileID > id)
    ensures i + 1 == m
  {
    if i + 1 < m {
      AscendingFar(es, i + 1, m - 1);
    } else if m <= i {
      AscendingFar(es, m, i);
    }
  }

  // On ids in order, that is the last entry at or below the id, if the id is not past its run.
  lemma FindIsLast(es: seq<Entry>, id: nat)
    ensures Ascending(es) ==> FindsLast(es, id, Find(es, id))
  {
    hide SearchFrom, Ascending, Open;
    var m := SearchFrom(es, id, 0, |es|);
    SearchSplits(es, id, 0, |es|);
    FindAt(es, id);
    if Ascending(es) {
      forall i | LastBelow(es, id, i)
        ensures i + 1 == m
      {
        OnlyLast(es, id, m, i);
      }
      if m > 0 {
        assert LastBelow(es, id, m - 1);
      }
    }
  }

  lemma FindAt(es: seq<Entry>, id: nat)
    ensures
      var m := SearchFrom(es, id, 0, |es|);
      Find(es, id) == if m > 0 && Open(es[m - 1], id) then Some(es[m - 1]) else None
  {
    hide SearchFrom;
  }

  // ----- tileEntry

  // An open archive: the bytes of the file, two fields of its header, and the decompression its
  // header names.
  datatype Archive = Archive(file: seq<Byte>, leafOffset: nat, tileDataOffset: nat,
                             decompress: seq<Byte> -> Result<seq<Byte>>)

  const MAX_INT := 0x7fff_ffff_ffff_ffff

  // readSection: the offset is taken as an int64, so that a large one is negative and refused.
  function Section(file: seq<Byte>, offset: nat, length: nat): Result<seq<Byte>> {
    if length > MAX_INT then Err
    else if offset > MAX_INT || offset + length > |file| then Err
    else Ok(file[offset..offset + length])
  }

  // The directory that stands there.
  function ReadDirectory(a: Archive, offset: nat, length: nat): Result<seq<Entry>> {
    var raw := Section(a.file, offset, length);
    if raw.Err? then Err else
      var plain := a.decompress(raw.value);
      if plain.Err? then Err else Decode(plain.value)
  }

  function Leaf(a: Archive, e: Entry): Result<seq<Entry>> {
    ReadDirectory(a, (a.leafOffset + e.offset) % TWO_64, e.length)
  }

  datatype Answer = NotFound | Found(e: Entry) | Failed

  // Descent through at most `depth` directories.
  function Descend(a: Archive, es: seq<Entry>, id: nat, depth: nat): Answer
    decreases depth
  {
    if depth == 0 then Failed
    else match Find(es, id)
      case None => NotFound
      case Some(e) =>
        if e.runLength > 0 then Found(e)
        else if Leaf(a, e).Err? then Failed
        else Descend(a, Leaf(a, e).value, id, depth - 1)
  }

  const MAX_DEPTH := 4

  method TileEntry(a: Archive, root: seq<Entry>, id: nat) returns (r: Answer)
    ensures r == Descend(a, root, id, MAX_DEPTH)
  {
    hide Find, Decode;
    var entries := root;
    for depth := 0 to 4
      invariant Descend(a, entries, id, MAX_DEPTH - depth) == Descend(a, root, id, MAX_DEPTH)
    {
      var e := FindEntry(entries, id);
      if e.None? {
        return NotFound;
      }
      if e.value.runLength > 0 {
        return Found(e.value);
      }
      var raw := Section(a.file, (a.leafOffset + e.value.offset) % TWO_64, e.value.length);
      if raw.Err? {
        return Failed;
      }
      var plain := a.decompress(raw.value);
      if plain.Err? {
        return Failed;
      }
      var leaf := DecodeDirectory(plain.value);
      if leaf.Err? {
        return Failed;
      }
      entries := leaf.value;
    }
    return Failed;
  }

  // ----- the runs of a tree

  // Where the entry after the i-th begins; the last one ends where its directory does.
  function End(es: seq<Entry>, hi: nat, i: nat): nat
    requires i < |es|
  {
    if i + 1 < |es| then es[i + 1].tileID else hi
  }

  // A directory for the ids from lo up to hi, with at most d levels: entries in order, runs that
  // do not overlap, and leaf directories that decode and keep to the ids of their pointers.
  ghost predicate WellFormed(a: Archive, es: seq<Entry>, lo: nat, hi: nat, d: nat)
    decreases d
  {
    && d > 0 && hi <= TWO_64 - 1
    && (forall i :: 0 <= i < |es| ==> lo <= es[i].tileID < End(es, hi, i) <= hi)
    && (forall i :: 0 <= i < |es| && es[i].runLength > 0 ==> es[i].tileID + es[i].runLength <= End(es, hi, i))
    && (forall i :: 0 <= i < |es| && es[i].runLength == 0 ==>
          Leaf(a, es[i]).Ok? && WellFormed(a, Leaf(a, es[i]).value, es[i].tileID, End(es, hi, i), d - 1))
  }

  // The runs of a tree of at most d levels, from left to right.
  ghost function Flatten(a: Archive, es: seq<Entry>, d: nat): seq<Entry>
    decreases d, |es|
  {
    if d == 0 || es == [] then []
    else Flatten(a, es[..|es| - 1], d) + Part(a, es[|es| - 1], d)
  }

  // The runs under one entry.
  ghost function Part(a: Archive, e: Entry, d: nat): seq<Entry>
    requires d > 0
    decreases d, 0
  {
    if e.runLength > 0 then [e]
    else if Leaf(a, e).Err? then []
    else Flatten(a, Leaf(a, e).value, d - 1)
  }

  predicate Covers(e: Entry, id: nat) {
    e.tileID <= id < e.tileID + e.runLength
  }

  lemma {:induction false} FlattenIsParts(a: Archive, es: seq<Entry>, d: nat, e: Entry)
    requires d > 0
    ensures e in Flatten(a, es, d) <==> exists i :: 0 <= i < |es| && e in Part(a, es[i], d)
    decreases |es|
  {
    hide Part;
    if es != [] {
      var n := |es| - 1;
      FlattenIsParts(a, es[..n], d, e);
      if e in Part(a, es[n], d) {
        assert 0 <= n < |es|;
      }
      if e in Flatten(a, es[..n], d) {
        var i :| 0 <= i < n && e in Part(a, es[..n][i], d);
        assert es[..n][i] == es[i];
      }
      forall i | 0 <= i < n && e in Part(a, es[i], d)
        ensures e in Flatten(a, es[..n], d)
      {
        assert es[..n][i] == es[i];
      }
    }
  }

  // What lies under the i-th entry stays between its id and the next.
  lemma {:induction false} PartInRange(a: Archive, es: seq<Entry>, lo: nat, hi: nat, d: nat, i: nat, e: Entry)
    requires WellFormed(a, es, lo, hi, d) && i < |es| && e in Part(a, es[i], d)
    ensures lo <= es[i].tileID <= e.tileID && 0 < e.runLength && e.tileID + e.runLength <= End(es, hi, i) <= hi
    decreases d
  {
    if es[i].runLength == 0 {
      var leaf := Leaf(a, es[i]).value;
      assert WellFormed(a, leaf, es[i].tileID, End(es, hi, i), d - 1);
      FlattenIsParts(a, leaf, d - 1, e);
      var k :| 0 <= k < |leaf| && e in Part(a, leaf[k], d - 1);
      PartInRange(a, leaf, es[i].tileID, End(es, hi, i), d - 1, k, e);
    }
  }

  lemma WellFormedAscends(a: Archive, es: seq<Entry>, lo: nat, hi: nat, d: nat)
    requires WellFormed(a, es, lo, hi, d)
    ensures Ascending(es)
  {
    hide Leaf;
    forall i | 0 < i < |es|
      ensures es[i - 1].tileID <= es[i].tileID
    {
      assert es[i - 1].tileID < End(es, hi, i - 1);
    }
  }

  // Only one entry can lead to an id: the one the binary search picks.
  lemma OnlyOnePart(a: Archive, es: seq<Entry>, lo: nat, hi: nat, d: nat, id: nat, i: nat, e: Entry)
    requires WellFormed(a, es, lo, hi, d) && i < |es| && e in Part(a, es[i], d) && Covers(e, id)
    ensures i == SearchFrom(es, id, 0, |es|) - 1
  {
    hide WellFormed, Part, Find;
    PartInRange(a, es, lo, hi, d, i, e);
    WellFormedAscends(a, es, lo, hi, d);
    SearchSplits(es, id, 0, |es|);
    var m := SearchFrom(es, id, 0, |es|);
    if i + 1 < m {
      AscendingFar(es, i + 1, m - 1);
    } else if m <= i {
      AscendingFar(es, m, i);
    }
  }

  // How many directories the descent for an id opens.
  ghost function Levels(a: Archive, es: seq<Entry>, id: nat, d: nat): nat
    decreases d
  {
    1 + match Find(es, id)
        case None => 0
        case Some(e) =>
          if e.runLength > 0 || Leaf(a, e).Err? || d == 0 then 0 else Levels(a, Leaf(a, e).value, id, d - 1)
  }

  // What the answer says about the runs of the tree.
  ghost predicate Right(a: Archive, es: seq<Entry>, d: nat, id: nat, r: Answer) {
    match r
    case Found(e) => e in Flatten(a, es, d) && Covers(e, id)
    case NotFound => forall e :: e in Flatten(a, es, d) ==> !Covers(e, id)
    case Failed => false
  }

  lemma LeafIsWellFormed(a: Archive, es: seq<Entry>, lo: nat, hi: nat, d: nat, i: nat)
    requires WellFormed(a, es, lo, hi, d) && i < |es| && es[i].runLength == 0
    ensures d > 0 && Leaf(a, es[i]).Ok? && WellFormed(a, Leaf(a, es[i]).value, es[i].tileID, End(es, hi, i), d - 1)
  {
    hide Leaf;
  }

  // The descent finds an id exactly when the runs of the tree cover it, and then answers the run
  // that does; a path of more directories than it may open makes it fail.
  lemma {:induction false} DescentIsRight(a: Archive, es: seq<Entry>, lo: nat, hi: nat, d: nat, id: nat, depth: nat)
    requires WellFormed(a, es, lo, hi, d)
    ensures if Levels(a, es, id, d) > depth then Descend(a, es, id, depth) == Failed
            else Right(a, es, d, id, Descend(a, es, id, depth))
    decreases depth
  {
    hide Part, Covers, Leaf, Flatten, WellFormed, SearchFrom, Right;
    if depth > 0 {
      var m := SearchFrom(es, id, 0, |es|);
      DepthIsPositive(a, es, lo, hi, d);
      ElsewhereIsUncovered(a, es, lo, hi, d, id, m);
      if m == 0 {
        NothingIsRight(a, es, d, id);
      } else if es[m - 1].runLength > 0 {
        RunIsRight(a, es, lo, hi, d, id, m - 1);
      } else {
        LeafIsWellFormed(a, es, lo, hi, d, m - 1);
        var leaf := Leaf(a, es[m - 1]).value;
        DescentIsRight(a, leaf, es[m - 1].tileID, End(es, hi, m - 1), d - 1, id, depth - 1);
        LeafIsRight(a, es, d, id, m - 1, Descend(a, leaf, id, depth - 1));
      }
    }
  }

  lemma ElsewhereIsUncovered(a: Archive, es: seq<Entry>, lo: nat, hi: nat, d: nat, id: nat, m: int)
    requires WellFormed(a, es, lo, hi, d) && m == SearchFrom(es, id, 0, |es|)
    ensures forall i, e :: 0 <= i < |es| && i != m - 1 && e in Part(a, es[i], d) ==> !Covers(e, id)
  {
    hide Part, WellFormed, SearchFrom, Covers;
    DepthIsPositive(a, es, lo, hi, d);
    forall i, e | 0 <= i < |es| && e in Part(a, es[i], d) && Covers(e, id)
      ensures i == m - 1
    {
      OnlyOnePart(a, es, lo, hi, d, id, i, e);
    }
  }

  lemma DepthIsPositive(a: Archive, es: seq<Entry>, lo: nat, hi: nat, d: nat)
    requires WellFormed(a, es, lo, hi, d)
    ensures d > 0
  {
  }

  lemma NothingIsRight(a: Archive, es: seq<Entry>, d: nat, id: nat)
    requires d > 0 && forall i, e :: 0 <= i < |es| && e in Part(a, es[i], d) ==> !Covers(e, id)
    ensures Right(a, es, d, id, NotFound)
  {
    hide Part, Covers, Flatten;
    forall e | e in Flatten(a, es, d)
      ensures !Covers(e, id)
    {
      FlattenIsParts(a, es, d, e);
    }
  }

  lemma LeafIsRight(a: Archive, es: seq<Entry>, d: nat, id: nat, m: nat, r: Answer)
    requires d > 0 && m < |es| && es[m].runLength == 0 && Leaf(a, es[m]).Ok?
    requires forall i, e :: 0 <= i < |es| && i != m && e in Part(a, es[i], d) ==> !Covers(e, id)
    ensures Right(a, Leaf(a, es[m]).value, d - 1, id, r) ==> Right(a, es, d, id, r)
  {
    var leaf := Leaf(a, es[m]).value;
    assert Part(a, es[m], d) == Flatten(a, leaf, d - 1);
    hide Part, Covers, Flatten, Leaf;
    if Right(a, leaf, d - 1, id, r) {
      forall e
        ensures e in Flatten(a, es, d) ==> e in Flatten(a, leaf, d - 1) || !Covers(e, id)
        ensures e in Flatten(a, leaf, d - 1) ==> e in Flatten(a, es, d)
      {
        FlattenIsParts(a, es, d, e);
      }
    }
  }

  lemma RunAlone(a: Archive, es: seq<Entry>, lo: nat, hi: nat, d: nat, id: nat, m: nat)
    requires WellFormed(a, es, lo, hi, d) && m < |es| && m == SearchFrom(es, id, 0, |es|) - 1 && es[m].runLength > 0
    ensures d > 0 && Part(a, es[m], d) == [es[m]] && (Find(es, id).Some? <==> Covers(es[m], id))
  {
    hide Leaf, Flatten, SearchFrom;
    SearchSplits(es, id, 0, |es|);
    assert es[m].tileID + es[m].runLength <= End(es, hi, m) <= hi < TWO_64;
  }

  lemma RunIsRight(a: Archive, es: seq<Entry>, lo: nat, hi: nat, d: nat, id: nat, m: nat)
    requires WellFormed(a, es, lo, hi, d) && m < |es| && m == SearchFrom(es, id, 0, |es|) - 1 && es[m].runLength > 0
    requires forall i, e :: 0 <= i < |es| && i != m && e in Part(a, es[i], d) ==> !Covers(e, id)
    ensures Right(a, es, d, id, if Find(es, id).Some? then Found(es[m]) else NotFound)
  {
    hide Part, Flatten, WellFormed, Find, SearchFrom, Covers;
    var e := es[m];
    RunAlone(a, es, lo, hi, d, id, m);
    forall x
      ensures x in Flatten(a, es, d) ==> x == e || !Covers(x, id)
      ensures e in Flatten(a, es, d)
    {
      FlattenIsParts(a, es, d, x);
      FlattenIsParts(a, es, d, e);
    }
  }

  lemma PartIs(a: Archive, e: Entry, d: nat)
    requires d > 0
    ensures Part(a, e, d) ==
            if e.runLength > 0 then [e]
            else if Leaf(a, e).Err? then []
            else Flatten(a, Leaf(a, e).value, d - 1)
  {
  }

  // At most one run covers an id.
  lemma {:induction false} RunsAreDisjoint(a: Archive, es: seq<Entry>, lo: nat, hi: nat, d: nat, id: nat, e: Entry,
                                           f: Entry)
    requires WellFormed(a, es, lo, hi, d) && e in Flatten(a, es, d) && f in Flatten(a, es, d) && Covers(e, id)
    requires Covers(f, id)
    ensures e == f
    decreases d
  {
    hide Flatten, Covers, Leaf, WellFormed, SearchFrom, Part;
    DepthIsPositive(a, es, lo, hi, d);
    FlattenIsParts(a, es, d, e);
    FlattenIsParts(a, es, d, f);
    var i :| 0 <= i < |es| && e in Part(a, es[i], d);
    var j :| 0 <= j < |es| && f in Part(a, es[j], d);
    OnlyOnePart(a, es, lo, hi, d, id, i, e);
    OnlyOnePart(a, es, lo, hi, d, id, j, f);
    PartIs(a, es[i], d);
    if es[i].runLength == 0 {
      LeafIsWellFormed(a, es, lo, hi, d, i);
      RunsAreDisjoint(a, Leaf(a, es[i]).value, es[i].tileID, End(es, hi, i), d - 1, id, e, f);
    }
  }

  // A tree of at most four levels never takes the descent too deep.
  lemma {:induction false} LevelsAtMost(a: Archive, es: seq<Entry>, lo: nat, hi: nat, d: nat, id: nat)
    requires WellFormed(a, es, lo, hi, d)
    ensures Levels(a, es, id, d) <= d
    decreases d
  {
    hide Leaf, WellFormed, SearchFrom;
    DepthIsPositive(a, es, lo, hi, d);
    var m := SearchFrom(es, id, 0, |es|);
    if m > 0 && es[m - 1].runLength == 0 {
      LeafIsWellFormed(a, es, lo, hi, d, m - 1);
      LevelsAtMost(a, Leaf(a, es[m - 1]).value, es[m - 1].tileID, End(es, hi, m - 1), d - 1, id);
    }
  }

  // So over a well-formed tree of at most four levels tileEntry is a scan of the list of runs.
  lemma LookupIsScan(a: Archive, root: seq<Entry>, lo: nat, hi: nat, d: nat, id: nat, e: Entry)
    requires WellFormed(a, root, lo, hi, d) && d <= MAX_DEPTH
    ensures Descend(a, root, id, MAX_DEPTH) == Found(e) <==> e in Flatten(a, root, d) && Covers(e, id)
    ensures Descend(a, root, id, MAX_DEPTH) != Failed
  {
    hide Descend, Flatten, WellFormed, Covers;
    DescentIsRight(a, root, lo, hi, d, id, MAX_DEPTH);
    LevelsAtMost(a, root, lo, hi, d, id);
    var r := Descend(a, root, id, MAX_DEPTH);
    if r.Found? && e in Flatten(a, root, d) && Covers(e, id) {
      RunsAreDisjoint(a, root, lo, hi, d, id, e, r.e);
    }
  }

  // The lookup fails exactly for a path of more than four directories.
  lemma FifthDirectoryFails(a: Archive, root: seq<Entry>, lo: nat, hi: nat, d: nat, id: nat)
    requires WellFormed(a, root, lo, hi, d)
    ensures Descend(a, root, id, MAX_DEPTH) == Failed <==> Levels(a, root, id, d) > 4
  {
    hide Descend, Flatten, WellFormed, Covers, Levels;
    DescentIsRight(a, root, lo, hi, d, id, MAX_DEPTH);
  }

  // ----- Tile

  datatype TileBytes = Missing | Broken | Bytes(data: seq<Byte>)

  function Stored(data: Result<seq<Byte>>): TileBytes {
    if data.Err? then Broken else Bytes(data.value)
  }

  // What is stored for an entry that was found.
  function StoredFor(a: Archive, e: Entry): TileBytes {
    Stored(Section(a.file, (a.tileDataOffset + e.offset) % TWO_64, e.length))
  }

  // What any archive answers, damaged ones included.
  function TileOf(a: Archive, root: seq<Entry>, z: nat, x: nat, y: nat): TileBytes {
    if z > 31 then Missing
    else match Descend(a, root, TileId.Id(z, x, y), MAX_DEPTH)
      case Failed => Broken
      case NotFound => Missing
      case Found(e) => StoredFor(a, e)
  }

  // The bytes are those of the run that covers the id; without such a run there is no tile.
  ghost predicate TileRight(a: Archive, root: seq<Entry>, d: nat, id: nat, r: TileBytes) {
    if exists e :: e in Flatten(a, root, d) && Covers(e, id) then
      exists e :: e in Flatten(a, root, d) && Covers(e, id) && r == StoredFor(a, e)
    else r == Missing
  }

  // Over a well-formed tree of directories that is the run that covers the tile's id.
  lemma TileOfIsRight(a: Archive, root: seq<Entry>, lo: nat, hi: nat, d: nat, z: nat, x: nat, y: nat)
    requires WellFormed(a, root, lo, hi, d) && d <= MAX_DEPTH && z <= 31
    ensures TileRight(a, root, d, TileId.Id(z, x, y), TileOf(a, root, z, x, y))
  {
    hide WellFormed, Flatten, Covers, StoredFor, Descend, TileId.Id, TileRight;
    var id := TileId.Id(z, x, y);
    DescentIsRight(a, root, lo, hi, d, id, MAX_DEPTH);
    LevelsAtMost(a, root, lo, hi, d, id);
    RightIsTileRight(a, root, d, id, Descend(a, root, id, MAX_DEPTH), TileOf(a, root, z, x, y));
  }

  // Tile.
  method Tile(a: Archive, root: seq<Entry>, z: nat, x: nat, y: nat) returns (r: TileBytes)
    requires x < TileId.U32 && y < TileId.U32
    ensures r == TileOf(a, root, z, x, y)
    ensures forall lo: nat, hi: nat, d: nat :: z <= 31 && WellFormed(a, root, lo, hi, d) && d <= MAX_DEPTH ==>
              TileRight(a, root, d, TileId.Id(z, x, y), r)
  {
    hide WellFormed, Section, TileRight, Descend, TileId.Id;
    forall lo: nat, hi: nat, d: nat | z <= 31 && WellFormed(a, root, lo, hi, d) && d <= MAX_DEPTH
      ensures TileRight(a, root, d, TileId.Id(z, x, y), TileOf(a, root, z, x, y))
    {
      TileOfIsRight(a, root, lo, hi, d, z, x, y);
    }
    if z > 31 {
      return Missing;
    }
    var id := TileId.ZxyToId(z, x, y);
    var answer := TileEntry(a, root, id);
    match answer {
      case Failed => r := Broken;
      case NotFound => r := Missing;
      case Found(e) =>
        var data := Section(a.file, (a.tileDataOffset + e.offset) % TWO_64, e.length);
        r := Stored(data);
    }
  }

  lemma RightIsTileRight(a: Archive, root: seq<Entry>, d: nat, id: nat, answer: Answer, r: TileBytes)
    requires Right(a, root, d, id, answer)
    requires answer.NotFound? ==> r == Missing
    requires answer.Found? ==> r == StoredFor(a, answer.e)
    ensures TileRight(a, root, d, id, r)
  {
    hide Flatten, Covers, StoredFor;
  }
}
