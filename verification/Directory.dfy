/** PMTiles directories: decodeDirectory in internal/source/pmtiles/pmtiles.go, against the
    column-wise encoding of section 4 of the PMTiles version 3 specification. */
module Directory {
  import opened Numbers
  import opened Varint

  const MAX_ENTRIES := 10000000

  // A run of tiles, or with runLength 0 a pointer to a leaf directory.
  datatype Entry = Entry(tileID: nat, offset: nat, length: nat, runLength: nat)

  datatype Result<T> = Err | Ok(value: T)

  // ----- what the bytes mean

  function Sum(vals: seq<nat>): nat {
    if vals == [] then 0 else Sum(vals[..|vals| - 1]) + vals[|vals| - 1]
  }

  // Ids are deltas added up in 64 bits.
  function IdOf(deltas: seq<nat>, k: nat): nat
    requires k < |deltas|
  {
    Sum(deltas[..k + 1]) % TWO_64
  }

  // The offset of the last entry: 0 marks one that follows the entry before it directly.
  function LastOffset(offs: seq<nat>, lens: seq<nat>): nat
    requires |offs| == |lens| > 0
  {
    var n := |offs| - 1;
    if offs[n] > 0 then offs[n] - 1
    else if n == 0 then 0
    else (LastOffset(offs[..n], lens[..n]) + lens[n - 1]) % TWO_64
  }

  function OffsetOf(offs: seq<nat>, lens: seq<nat>, k: nat): nat
    requires k < |offs| <= |lens|
  {
    LastOffset(offs[..k + 1], lens[..k + 1])
  }

  datatype Columns = Columns(ids: seq<nat>, runs: seq<nat>, lens: seq<nat>, offs: seq<nat>) {
    predicate Sized(n: nat) {
      |ids| == |runs| == |lens| == |offs| == n
    }
  }

  function ParseColumns(s: seq<Byte>, at: nat, n: nat): (r: Result<Columns>)
    ensures r.Ok? ==> r.value.Sized(n)
  {
    var ids := ParseAll(s, at, n);
    if ids.NoColumn? then Err else
      var runs := ParseAll(s, ids.next, n);
      if runs.NoColumn? then Err else
        var lens := ParseAll(s, runs.next, n);
        if lens.NoColumn? then Err else
          var offs := ParseAll(s, lens.next, n);
          if offs.NoColumn? then Err else Ok(Columns(ids.vals, runs.vals, lens.vals, offs.vals))
  }

  function EntryAt(c: Columns, n: nat, k: nat): Entry
    requires c.Sized(n) && k < n
  {
    Entry(IdOf(c.ids, k), OffsetOf(c.offs, c.lens, k), c.lens[k], c.runs[k])
  }

  function Decode(s: seq<Byte>): Result<seq<Entry>> {
    var count := Parse(s, 0, 0);
    if count.Fail? || count.v == 0 || count.v > MAX_ENTRIES then Err else
      var c := ParseColumns(s, count.next, count.v);
      if c.Err? || 0 in c.value.lens || c.value.offs[0] == 0 then Err
      else Ok(seq(count.v, k requires 0 <= k < count.v => EntryAt(c.value, count.v, k)))
  }

  // ----- the loops over the columns

  lemma {:induction false} ColumnPrefix(s: seq<Byte>, at: nat, i: nat, n: nat)
    requires i <= n
    ensures ParseAll(s, at, i).NoColumn? ==> ParseAll(s, at, n).NoColumn?
    ensures ParseAll(s, at, n).Column? ==>
      ParseAll(s, at, i).Column? && ParseAll(s, at, n).vals[..i] == ParseAll(s, at, i).vals
    decreases n - i
  {
    if i < n {
      ColumnPrefix(s, at, i, n - 1);
    } else if ParseAll(s, at, n).Column? {
      assert ParseAll(s, at, n).vals[..n] == ParseAll(s, at, n).vals;
    }
  }

  lemma IdOfPrefix(deltas: seq<nat>, v: nat, k: nat)
    requires k < |deltas|
    ensures IdOf(deltas + [v], k) == IdOf(deltas, k)
  {
    assert (deltas + [v])[..k + 1] == deltas[..k + 1];
  }

  lemma ModAdd(a: nat, v: nat, m: nat)
    requires m > 0
    ensures (a % m + v) % m == (a + v) % m
  {
    var r := a % m + v;
    assert a == m * (a / m) + a % m && r == m * (r / m) + r % m;
    assert a + v == m * (a / m + r / m) + r % m;
    ModIs(a + v, m, a / m + r / m, r % m);
  }

  lemma SumSnoc(deltas: seq<nat>, v: nat)
    ensures Sum(deltas + [v]) == Sum(deltas) + v
  {
    assert (deltas + [v])[..|deltas|] == deltas;
  }

  lemma IdOfLast(deltas: seq<nat>, v: nat)
    ensures IdOf(deltas + [v], |deltas|) == (Sum(deltas) % TWO_64 + v) % TWO_64
    ensures IdOf(deltas + [v], |deltas|) == Sum(deltas + [v]) % TWO_64
  {
    hide Sum;
    assert (deltas + [v])[..|deltas| + 1] == deltas + [v];
    SumSnoc(deltas, v);
    ModAdd(Sum(deltas), v, TWO_64);
  }

  lemma OffsetOfPrefix(offs: seq<nat>, lens: seq<nat>, v: nat, k: nat)
    requires k < |offs| < |lens|
    ensures OffsetOf(offs + [v], lens, k) == OffsetOf(offs, lens, k)
  {
    assert (offs + [v])[..k + 1] == offs[..k + 1];
  }

  lemma OffsetOfLast(offs: seq<nat>, lens: seq<nat>, v: nat)
    requires |offs| < |lens| && (offs == [] ==> v > 0)
    ensures OffsetOf(offs + [v], lens, |offs|) ==
            if v > 0 then v - 1 else (OffsetOf(offs, lens, |offs| - 1) + lens[|offs| - 1]) % TWO_64
  {
    var all, n := offs + [v], |offs|;
    assert all[..n + 1] == all && all[..n] == offs && lens[..n + 1][..n] == lens[..n];
    if n > 0 {
      assert offs[..n] == offs;
    }
  }

  // The first |vals| entries have been given their id, run length, length or offset; the others
  // and the other fields are as before.
  ghost predicate IdsSet(before: seq<Entry>, after: seq<Entry>, vals: seq<nat>) {
    && |before| == |after| >= |vals|
    && (forall k :: 0 <= k < |vals| ==> after[k] == before[k].(tileID := IdOf(vals, k)))
    && (forall k :: |vals| <= k < |after| ==> after[k] == before[k])
  }

  ghost predicate RunsSet(before: seq<Entry>, after: seq<Entry>, vals: seq<nat>) {
    && |before| == |after| >= |vals|
    && (forall k :: 0 <= k < |vals| ==> after[k] == before[k].(runLength := vals[k]))
    && (forall k :: |vals| <= k < |after| ==> after[k] == before[k])
  }

  ghost predicate LengthsSet(before: seq<Entry>, after: seq<Entry>, vals: seq<nat>) {
    && |before| == |after| >= |vals|
    && (forall k :: 0 <= k < |vals| ==> after[k] == before[k].(length := vals[k]))
    && (forall k :: |vals| <= k < |after| ==> after[k] == before[k])
  }

  ghost predicate OffsetsSet(before: seq<Entry>, after: seq<Entry>, lens: seq<nat>, vals: seq<nat>) {
    && |before| == |after| == |lens| >= |vals|
    && (forall k :: 0 <= k < |vals| ==> after[k] == before[k].(offset := OffsetOf(vals, lens, k)))
    && (forall k :: |vals| <= k < |after| ==> after[k] == before[k])
  }

  lemma IdsNext(before: seq<Entry>, after: seq<Entry>, vals: seq<nat>, v: nat, id: nat)
    requires IdsSet(before, after, vals) && |vals| < |after| && id == (Sum(vals) % TWO_64 + v) % TWO_64
    ensures IdsSet(before, after[|vals| := after[|vals|].(tileID := id)], vals + [v])
    ensures id == Sum(vals + [v]) % TWO_64
  {
    hide IdOf, Sum;
    IdOfLast(vals, v);
    forall k | 0 <= k < |vals|
      ensures IdOf(vals + [v], k) == IdOf(vals, k)
    {
      IdOfPrefix(vals, v, k);
    }
  }

  lemma OffsetsNext(before: seq<Entry>, after: seq<Entry>, lens: seq<nat>, vals: seq<nat>, v: nat, offset: nat)
    requires OffsetsSet(before, after, lens, vals) && |vals| < |after| && (vals == [] ==> v > 0)
    requires offset == if v > 0 then v - 1 else (OffsetOf(vals, lens, |vals| - 1) + lens[|vals| - 1]) % TWO_64
    ensures OffsetsSet(before, after[|vals| := after[|vals|].(offset := offset)], lens, vals + [v])
    ensures OffsetOf(vals + [v], lens, |vals|) == offset
  {
    hide OffsetOf;
    OffsetOfLast(vals, lens, v);
    forall k | 0 <= k < |vals|
      ensures OffsetOf(vals + [v], lens, k) == OffsetOf(vals, lens, k)
    {
      OffsetOfPrefix(vals, lens, v, k);
    }
  }

  lemma ColumnStart(s: seq<Byte>, start: nat)
    ensures ParseAll(s, start, 0) == Column([], start)
  {
  }

  // One more number of a column of n is read.
  lemma ColumnStep(s: seq<Byte>, start: nat, i: nat, n: nat, vals: seq<nat>, at: nat)
    requires ParseAll(s, start, i) == Column(vals, at) && i < n && at <= |s|
    ensures
      var r := Parse(s, at, 0);
      if r.Fail? then ParseAll(s, start, n).NoColumn?
      else ParseAll(s, start, i + 1) == Column(vals + [r.v], r.next) && r.next <= |s|
  {
    hide Parse;
    ColumnPrefix(s, start, i + 1, n);
    if Parse(s, at, 0).Got? {
      ParseFits(s, at, 0);
    }
  }

  method ReadIds(s: seq<Byte>, start: nat, entries: array<Entry>) returns (ok: bool, at: nat, ghost vals: seq<nat>)
    requires start <= |s|
    modifies entries
    ensures if ok then ParseAll(s, start, entries.Length) == Column(vals, at)
            else ParseAll(s, start, entries.Length).NoColumn?
    ensures ok ==> at <= |s| && IdsSet(old(entries[..]), entries[..], vals)
  {
    hide IdsSet, Parse, ParseAll;
    ColumnStart(s, start);
    vals, at, ok := [], start, true;
    ghost var before := entries[..];
    var lastID: nat := 0;
    NothingSet(before, []);
    for i := 0 to entries.Length
      invariant ParseAll(s, start, i) == Column(vals, at) && at <= |s| && |vals| == i
      invariant IdsSet(before, entries[..], vals) && lastID == Sum(vals) % TWO_64
    {
      ColumnStep(s, start, i, entries.Length, vals, at);
      var delta := ReadUvarint(s, at);
      if delta.Fail? {
        ok := false;
        return;
      }
      lastID := (lastID + delta.v) % TWO_64;
      IdsNext(before, entries[..], vals, delta.v, lastID);
      ghost var was := entries[..];
      entries[i] := entries[i].(tileID := lastID);
      assert entries[..] == was[i := entries[i]];
      vals, at := vals + [delta.v], delta.next;
    }
  }

  lemma NothingSet(before: seq<Entry>, lens: seq<nat>)
    ensures IdsSet(before, before, []) && RunsSet(before, before, []) && LengthsSet(before, before, [])
    ensures |lens| == |before| ==> OffsetsSet(before, before, lens, [])
  {
  }

  method ReadRuns(s: seq<Byte>, start: nat, entries: array<Entry>) returns (ok: bool, at: nat, ghost vals: seq<nat>)
    requires start <= |s|
    modifies entries
    ensures if ok then ParseAll(s, start, entries.Length) == Column(vals, at)
            else ParseAll(s, start, entries.Length).NoColumn?
    ensures ok ==> at <= |s| && RunsSet(old(entries[..]), entries[..], vals)
  {
    hide Parse, ParseAll;
    ColumnStart(s, start);
    vals, at, ok := [], start, true;
    for i := 0 to entries.Length
      invariant ParseAll(s, start, i) == Column(vals, at) && at <= |s| && |vals| == i
      invariant RunsSet(old(entries[..]), entries[..], vals)
    {
      ColumnStep(s, start, i, entries.Length, vals, at);
      var run := ReadUvarint(s, at);
      if run.Fail? {
        ok := false;
        return;
      }
      entries[i] := entries[i].(runLength := run.v);
      vals, at := vals + [run.v], run.next;
    }
  }

  // A length of zero is an error.
  method ReadLengths(s: seq<Byte>, start: nat, entries: array<Entry>) returns (ok: bool, at: nat, ghost vals: seq<nat>)
    requires start <= |s|
    modifies entries
    ensures ok ==> ParseAll(s, start, entries.Length) == Column(vals, at) && 0 !in vals
    ensures !ok ==> ParseAll(s, start, entries.Length).NoColumn? || 0 in ParseAll(s, start, entries.Length).vals
    ensures ok ==> at <= |s| && LengthsSet(old(entries[..]), entries[..], vals)
  {
    hide Parse, ParseAll;
    ColumnStart(s, start);
    vals, at, ok := [], start, true;
    for i := 0 to entries.Length
      invariant ParseAll(s, start, i) == Column(vals, at) && at <= |s| && |vals| == i && 0 !in vals
      invariant LengthsSet(old(entries[..]), entries[..], vals)
    {
      ColumnStep(s, start, i, entries.Length, vals, at);
      var length := ReadUvarint(s, at);
      if length.Fail? || length.v == 0 {
        ok := false;
        if length.Got? {
          ZeroStays(s, start, i + 1, entries.Length, vals + [length.v]);
        }
        return;
      }
      entries[i] := entries[i].(length := length.v);
      vals, at := vals + [length.v], length.next;
    }
  }

  lemma ZeroStays(s: seq<Byte>, at: nat, i: nat, n: nat, vals: seq<nat>)
    requires i <= n && ParseAll(s, at, i).Column? && ParseAll(s, at, i).vals == vals && 0 in vals
    ensures ParseAll(s, at, n).NoColumn? || 0 in ParseAll(s, at, n).vals
  {
    ColumnPrefix(s, at, i, n);
    if ParseAll(s, at, n).Column? {
      assert 0 in ParseAll(s, at, n).vals[..i];
    }
  }

  // A zero stands for the end of the entry before; the first entry has none.
  method ReadOffsets(s: seq<Byte>, start: nat, entries: array<Entry>, ghost lens: seq<nat>)
      returns (ok: bool, ghost vals: seq<nat>)
    requires start <= |s| && entries.Length == |lens| && forall k :: 0 <= k < |lens| ==> entries[k].length == lens[k]
    modifies entries
    ensures ok ==> exists next :: ParseAll(s, start, entries.Length) == Column(vals, next)
    ensures ok ==> (|vals| > 0 ==> vals[0] > 0) && OffsetsSet(old(entries[..]), entries[..], lens, vals)
    ensures !ok ==>
      ParseAll(s, start, entries.Length).NoColumn? || (|lens| > 0 && ParseAll(s, start, entries.Length).vals[0] == 0)
  {
    hide Parse, ParseAll, OffsetsSet, OffsetOf;
    ColumnStart(s, start);
    vals, ok := [], true;
    ghost var before := entries[..];
    var at: nat, nextOffset: nat := start, 0;
    NothingSet(before, lens);
    for i := 0 to entries.Length
      invariant ParseAll(s, start, i) == Column(vals, at) && at <= |s| && |vals| == i && (i > 0 ==> vals[0] > 0)
      invariant OffsetsSet(before, entries[..], lens, vals)
      invariant i > 0 ==> nextOffset == (OffsetOf(vals, lens, i - 1) + lens[i - 1]) % TWO_64
    {
      ColumnStep(s, start, i, entries.Length, vals, at);
      var encoded := ReadUvarint(s, at);
      if encoded.Fail? {
        ok := false;
        return;
      }
      var offset: nat;
      if encoded.v == 0 && i > 0 {
        offset := nextOffset;
      } else {
        if encoded.v == 0 {
          ok := false;
          FirstStays(s, start, i + 1, entries.Length);
          return;
        }
        offset := encoded.v - 1;
      }
      OffsetsNext(before, entries[..], lens, vals, encoded.v, offset);
      LengthIs(before, entries[..], lens, vals, i);
      ghost var was := entries[..];
      entries[i] := entries[i].(offset := offset);
      assert entries[..] == was[i := entries[i]];
      nextOffset := (entries[i].offset + entries[i].length) % TWO_64;
      vals, at := vals + [encoded.v], encoded.next;
    }
  }

  lemma FirstStays(s: seq<Byte>, at: nat, i: nat, n: nat)
    requires 0 < i <= n && (ParseAll(s, at, i).Column? ==> ParseAll(s, at, i).vals[0] == 0)
    ensures ParseAll(s, at, n).NoColumn? || ParseAll(s, at, n).vals[0] == 0
  {
    ColumnPrefix(s, at, i, n);
  }

  lemma LengthIs(before: seq<Entry>, after: seq<Entry>, lens: seq<nat>, vals: seq<nat>, i: int)
    requires OffsetsSet(before, after, lens, vals) && forall k :: 0 <= k < |lens| ==> before[k].length == lens[k]
    requires |vals| <= i < |after|
    ensures after[i].length == lens[i]
  {
  }

  // decodeDirectory, after decompression.
  method DecodeDirectory(plain: seq<Byte>) returns (r: Result<seq<Entry>>)
    ensures r == Decode(plain)
  {
    hide Parse, ParseAll, EntryAt;
    var count := ReadUvarint(plain, 0);
    if count.Fail? || count.v == 0 {
      return Err;
    }
    if count.v > MAX_ENTRIES {
      return Err;
    }
    ParseFits(plain, 0, 0);
    var entries := new Entry[count.v](_ => Entry(0, 0, 0, 0));
    ghost var e0 := entries[..];
    var ok, at;
    ghost var ids, runs, lens, offs;
    ok, at, ids := ReadIds(plain, count.next, entries);
    if !ok {
      return Err;
    }
    ghost var e1 := entries[..];
    ok, at, runs := ReadRuns(plain, at, entries);
    if !ok {
      return Err;
    }
    ghost var e2 := entries[..];
    ok, at, lens := ReadLengths(plain, at, entries);
    if !ok {
      return Err;
    }
    ghost var e3 := entries[..];
    ok, offs := ReadOffsets(plain, at, entries, lens);
    if !ok {
      return Err;
    }
    Assembled(Columns(ids, runs, lens, offs), count.v, e0, e1, e2, e3, entries[..]);
    return Ok(entries[..]);
  }

  lemma Assembled(c: Columns, n: nat, e0: seq<Entry>, e1: seq<Entry>, e2: seq<Entry>, e3: seq<Entry>, e4: seq<Entry>)
    requires c.Sized(n) && |e0| == n
    requires IdsSet(e0, e1, c.ids) && RunsSet(e1, e2, c.runs) && LengthsSet(e2, e3, c.lens)
    requires OffsetsSet(e3, e4, c.lens, c.offs)
    ensures e4 == seq(n, k requires 0 <= k < n => EntryAt(c, n, k))
  {
    hide IdOf, OffsetOf;
  }

  // ----- the encoding

  // Ids that do not descend.
  predicate Ascending(es: seq<Entry>) {
    forall i :: 0 < i < |es| ==> es[i - 1].tileID <= es[i].tileID
  }

  predicate Follows(e: Entry, before: Entry) {
    e.offset == before.offset + before.length
  }

  predicate FieldsFit(e: Entry) {
    e.tileID < TWO_64 && e.runLength < TWO_64 && 0 < e.length < TWO_64 && e.offset < TWO_64
  }

  predicate OffsetFits(es: seq<Entry>, i: int)
    requires 0 <= i < |es|
  {
    (i > 0 && Follows(es[i], es[i - 1])) || es[i].offset + 1 < TWO_64
  }

  // What section 4 of the PMTiles version 3 specification can write down: the offset of an entry that does not
  // follow the one before it is stored plus one.
  predicate Encodable(es: seq<Entry>) {
    && 1 <= |es| <= MAX_ENTRIES && Ascending(es)
    && (forall i :: 0 <= i < |es| ==> FieldsFit(es[i]) && OffsetFits(es, i))
  }

  function Delta(es: seq<Entry>, i: int): nat
    requires 0 <= i < |es| && Ascending(es)
  {
    if i == 0 then es[0].tileID else es[i].tileID - es[i - 1].tileID
  }

  function OffsetCode(es: seq<Entry>, i: int): nat
    requires 0 <= i < |es|
  {
    if i > 0 && Follows(es[i], es[i - 1]) then 0 else es[i].offset + 1
  }

  function ColumnsOf(es: seq<Entry>): (c: Columns)
    requires Ascending(es)
    ensures c.Sized(|es|)
  {
    Columns(seq(|es|, i requires 0 <= i < |es| => Delta(es, i)),
            seq(|es|, i requires 0 <= i < |es| => es[i].runLength),
            seq(|es|, i requires 0 <= i < |es| => es[i].length),
            seq(|es|, i requires 0 <= i < |es| => OffsetCode(es, i)))
  }

  function EncodeDirectory(es: seq<Entry>): seq<Byte>
    requires Ascending(es)
  {
    var c := ColumnsOf(es);
    Encode(|es|) + (EncodeAll(c.ids) + (EncodeAll(c.runs) + (EncodeAll(c.lens) + EncodeAll(c.offs))))
  }

  lemma CodesFit(es: seq<Entry>)
    requires Encodable(es)
    ensures
      var c := ColumnsOf(es);
      forall i :: 0 <= i < |es| ==>
        c.ids[i] < TWO_64 && c.runs[i] < TWO_64 && 0 < c.lens[i] < TWO_64 && c.offs[i] < TWO_64
  {
    forall i | 0 <= i < |es|
      ensures Delta(es, i) < TWO_64 && OffsetCode(es, i) < TWO_64
    {
      assert FieldsFit(es[i]) && OffsetFits(es, i);
    }
  }

  // The deltas add up to the ids.
  lemma {:induction false} DeltasAddUp(es: seq<Entry>, k: nat)
    requires Ascending(es) && k < |es|
    ensures Sum(ColumnsOf(es).ids[..k + 1]) == es[k].tileID
  {
    var ids := ColumnsOf(es).ids;
    SumSnoc(ids[..k], ids[k]);
    assert ids[..k] + [ids[k]] == ids[..k + 1];
    if k > 0 {
      DeltasAddUp(es, k - 1);
    }
  }

  // The codes stand for the offsets.
  lemma {:induction false} OffsetsComeBack(es: seq<Entry>, k: nat)
    requires Encodable(es) && k < |es|
    ensures OffsetOf(ColumnsOf(es).offs, ColumnsOf(es).lens, k) == es[k].offset
  {
    hide ColumnsOf, OffsetOf;
    var c := ColumnsOf(es);
    OffsetCodes(es, k);
    assert c.offs[..k] + [c.offs[k]] == c.offs[..k + 1] && (k > 0 ==> c.offs[..k][..k] == c.offs[..k]);
    OffsetOfLast(c.offs[..k], c.lens, c.offs[k]);
    SameOffset(c.offs, c.lens, k);
    if k > 0 {
      OffsetsComeBack(es, k - 1);
      SameOffset(c.offs, c.lens, k - 1);
      OffsetOfShorter(c.offs, c.lens, k);
      assert FieldsFit(es[k]) && OffsetFits(es, k);
    }
  }

  lemma OffsetCodes(es: seq<Entry>, k: nat)
    requires Ascending(es) && k < |es|
    ensures ColumnsOf(es).offs[k] == OffsetCode(es, k)
    ensures forall i :: 0 <= i < |es| ==> ColumnsOf(es).lens[i] == es[i].length
    ensures ColumnsOf(es).offs[0] == es[0].offset + 1
  {
  }

  lemma SameOffset(offs: seq<nat>, lens: seq<nat>, k: nat)
    requires k < |offs| <= |lens|
    ensures OffsetOf(offs[..k] + [offs[k]], lens, k) == OffsetOf(offs, lens, k)
  {
    assert offs[..k] + [offs[k]] == offs[..k + 1] && offs[..k + 1][..k + 1] == offs[..k + 1];
  }

  lemma OffsetOfShorter(offs: seq<nat>, lens: seq<nat>, k: nat)
    requires 0 < k < |offs| <= |lens|
    ensures OffsetOf(offs[..k], lens, k - 1) == OffsetOf(offs, lens, k - 1)
  {
    assert offs[..k][..k - 1 + 1] == offs[..k - 1 + 1];
  }

  lemma ColumnsParse(s: seq<Byte>, at: nat, c: Columns, n: nat)
    requires c.Sized(n)
    requires forall i :: 0 <= i < n ==>
      c.ids[i] < TWO_64 && c.runs[i] < TWO_64 && c.lens[i] < TWO_64 && c.offs[i] < TWO_64
    requires Holds(s, at, EncodeAll(c.ids) + (EncodeAll(c.runs) + (EncodeAll(c.lens) + EncodeAll(c.offs))))
    ensures ParseColumns(s, at, n) == Ok(c)
  {
    hide Holds, EncodeAll, ParseAll;
    var a, b, d, e := EncodeAll(c.ids), EncodeAll(c.runs), EncodeAll(c.lens), EncodeAll(c.offs);
    HoldsParts(s, at, a, b + (d + e));
    HoldsParts(s, at + |a|, b, d + e);
    HoldsParts(s, at + |a| + |b|, d, e);
    ColumnRoundTrip(s, at, c.ids);
    ColumnRoundTrip(s, at + |a|, c.runs);
    ColumnRoundTrip(s, at + |a| + |b|, c.lens);
    ColumnRoundTrip(s, at + |a| + |b| + |d|, c.offs);
  }

  lemma EntriesComeBack(es: seq<Entry>)
    requires Encodable(es)
    ensures seq(|es|, k requires 0 <= k < |es| => EntryAt(ColumnsOf(es), |es|, k)) == es
  {
    forall k | 0 <= k < |es|
      ensures EntryAt(ColumnsOf(es), |es|, k) == es[k]
    {
      DeltasAddUp(es, k);
      OffsetsComeBack(es, k);
      assert FieldsFit(es[k]) && OffsetFits(es, k);
    }
  }

  // Decoding inverts encoding, the varints included.
  lemma DecodeInvertsEncode(es: seq<Entry>)
    requires Encodable(es)
    ensures Decode(EncodeDirectory(es)) == Ok(es)
  {
    hide Encode, Parse, ParseColumns, Holds, EntryAt, EncodeAll;
    var s, c := EncodeDirectory(es), ColumnsOf(es);
    var tail := EncodeAll(c.ids) + (EncodeAll(c.runs) + (EncodeAll(c.lens) + EncodeAll(c.offs)));
    WholeHolds(s);
    HoldsParts(s, 0, Encode(|es|), tail);
    RoomAtStart();
    RoundTripAt(s, 0, 0, |es|);
    CodesFit(es);
    ColumnsParse(s, |Encode(|es|)|, c, |es|);
    EntriesComeBack(es);
  }

  lemma WholeHolds(s: seq<Byte>)
    ensures Holds(s, 0, s)
  {
    assert s[0..|s|] == s;
  }

  lemma DecodedFields(s: seq<Byte>, es: seq<Entry>, c: Columns, at: nat, k: nat)
    requires at <= |s| && ParseColumns(s, at, |es|) == Ok(c) && k < |es| && c.lens[k] > 0 && c.offs[0] > 0
    requires forall i :: 0 <= i < |es| ==> es[i] == EntryAt(c, |es|, i)
    ensures FieldsFit(es[k]) && OffsetFits(es, k)
  {
    hide ParseAll;
    var n := |es|;
    ColumnFits(s, at, n);
    ColumnFits(s, ParseAll(s, at, n).next, n);
    var third := ParseAll(s, ParseAll(s, at, n).next, n).next;
    ColumnFits(s, third, n);
    ColumnFits(s, ParseAll(s, third, n).next, n);
    DecodedOffset(c, n, k);
    if k > 0 {
      DecodedOffset(c, n, k - 1);
    }
  }

  lemma DecodedOffset(c: Columns, n: nat, k: nat)
    requires c.Sized(n) && k < n && c.offs[0] > 0
    ensures OffsetOf(c.offs, c.lens, k) ==
            if c.offs[k] > 0 then c.offs[k] - 1 else (OffsetOf(c.offs, c.lens, k - 1) + c.lens[k - 1]) % TWO_64
  {
    SameOffset(c.offs, c.lens, k);
    OffsetOfLast(c.offs[..k], c.lens, c.offs[k]);
    if k > 0 {
      OffsetOfShorter(c.offs, c.lens, k);
    }
  }

  // A list of entries in order is what some directory decodes to exactly when it can be encoded.
  lemma DecodableIff(es: seq<Entry>)
    requires Ascending(es)
    ensures (exists s :: Decode(s) == Ok(es)) <==> Encodable(es)
    ensures (exists s :: Decode(s) == Ok(es)) <==>
            1 <= |es| <= 10000000 && forall i :: 0 <= i < |es| ==> FieldsFit(es[i]) && OffsetFits(es, i)
  {
    hide ParseColumns, EntryAt, EncodeDirectory;
    if Encodable(es) {
      DecodeInvertsEncode(es);
    }
    forall s | Decode(s) == Ok(es)
      ensures Encodable(es)
    {
      DecodedIsEncodable(s, es);
    }
  }

  lemma DecodedIsEncodable(s: seq<Byte>, es: seq<Entry>)
    requires Decode(s) == Ok(es) && Ascending(es)
    ensures Encodable(es)
  {
    hide ParseColumns, EntryAt, FieldsFit, OffsetFits;
    var at := Parse(s, 0, 0).next;
    ParseFits(s, 0, 0);
    var c := ParseColumns(s, at, |es|).value;
    assert forall i :: 0 <= i < |es| ==> es[i] == EntryAt(c, |es|, i);
    forall k | 0 <= k < |es|
      ensures FieldsFit(es[k]) && OffsetFits(es, k)
    {
      assert c.lens[k] in c.lens;
      DecodedFields(s, es, c, at, k);
    }
  }

  // Two entries, the second right behind the first: their number, the ids, the run lengths, the lengths
  // and the offsets.
  lemma DirectoryExample()
    ensures Decode([2, 5, 37, 1, 3, 10, 20, 7, 0]) == Ok([Entry(5, 6, 10, 1), Entry(42, 16, 20, 3)])
  {
    hide Encodable, EncodeDirectory, Decode;
    ExampleColumns();
    ExampleBytes();
    DecodeInvertsEncode([Entry(5, 6, 10, 1), Entry(42, 16, 20, 3)]);
  }

  lemma ExampleBytes()
    ensures
      var es := [Entry(5, 6, 10, 1), Entry(42, 16, 20, 3)];
      Ascending(es) && EncodeDirectory(es) == [2, 5, 37, 1, 3, 10, 20, 7, 0]
  {
    hide EncodeAll, ColumnsOf;
    ExampleColumns();
    TwoBytes(5, 37);
    TwoBytes(1, 3);
    TwoBytes(10, 20);
    TwoBytes(7, 0);
    assert Encode(2) == [2];
    assert [2] + ([5, 37] + ([1, 3] + ([10, 20] + [7, 0]))) == [2, 5, 37, 1, 3, 10, 20, 7, 0];
  }

  lemma ExampleColumns()
    ensures
      var es := [Entry(5, 6, 10, 1), Entry(42, 16, 20, 3)];
      Encodable(es) && ColumnsOf(es) == Columns([5, 37], [1, 3], [10, 20], [7, 0])
  {
  }

  lemma TwoBytes(a: nat, b: nat)
    requires a < 128 && b < 128
    ensures EncodeAll([a, b]) == [a, b]
  {
    assert [a, b][..1] == [a] && [a][..0] == [];
    assert EncodeAll([]) == [];
    assert EncodeAll([a]) == [a];
  }
}
