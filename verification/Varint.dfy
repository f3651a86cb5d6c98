/** Unsigned varints as encoding/binary reads them, on which the directories of
    internal/source/pmtiles/pmtiles.go are built. */
module Varint {

  type Byte = b: int | 0 <= b < 256

  const MAX_VARINT_LEN := 10
  const TWO_64 := 0x1_0000_0000_0000_0000

  datatype Parsed = Fail | Got(v: nat, next: nat)

  // Seven bits per byte, the low ones first; the high bit says that more follow.
  function Encode(v: nat): (r: seq<Byte>)
    ensures |r| > 0
  {
    if v < 128 then [v] else [128 + v % 128] + Encode(v / 128)
  }

  // The number at position `at`, when k bytes of it have been read already: an end of the data,
  // an eleventh byte or a tenth byte above one is an error.
  function Parse(s: seq<Byte>, at: nat, k: nat): (r: Parsed)
    requires k <= MAX_VARINT_LEN
    decreases MAX_VARINT_LEN - k
  {
    if at >= |s| || k == MAX_VARINT_LEN then Fail
    else if s[at] < 128 then (if k == MAX_VARINT_LEN - 1 && s[at] > 1 then Fail else Got(s[at], at + 1))
    else match Parse(s, at + 1, k + 1)
      case Fail => Fail
      case Got(v, next) => Got(s[at] - 128 + 128 * v, next)
  }

  lemma VarintExample()
    ensures Encode(300) == [0xac, 0x02] && Parse([0xac, 0x02], 0, 0) == Got(300, 2)
    ensures Encode(0) == [0] && Encode(127) == [127] && Encode(128) == [0x80, 0x01]
  {
    assert Parse([0xac, 0x02], 1, 1) == Got(2, 2);
  }

  // One more than the largest value that fits when k bytes have been read.
  function Room(k: nat): nat
    requires k < MAX_VARINT_LEN
    decreases MAX_VARINT_LEN - k
  {
    if k == MAX_VARINT_LEN - 1 then 2 else 128 * Room(k + 1)
  }

  lemma RoomAtStart()
    ensures Room(0) == TWO_64
  {
    assert Room(9) == 2 && Room(8) == 256 && Room(7) == 32768 && Room(6) == 4194304 && Room(5) == 536870912;
    assert Room(4) == 68719476736 && Room(3) == 8796093022208 && Room(2) == 1125899906842624 &&
      Room(1) == 144115188075855872;
  }

  // A parsed number fits, and the position moves on inside the data.
  lemma {:induction false} ParseFits(s: seq<Byte>, at: nat, k: nat)
    requires k < MAX_VARINT_LEN && Parse(s, at, k).Got?
    ensures Parse(s, at, k).v < Room(k) && at < Parse(s, at, k).next <= |s|
    decreases MAX_VARINT_LEN - k
  {
    if s[at] < 128 {
      RoomIsLarge(k);
    } else if k < MAX_VARINT_LEN - 1 {
      ParseFits(s, at + 1, k + 1);
    }
  }

  lemma {:induction false} RoomIsLarge(k: nat)
    requires k < MAX_VARINT_LEN
    ensures Room(k) >= if k == MAX_VARINT_LEN - 1 then 2 else 256
    decreases MAX_VARINT_LEN - k
  {
    if k < MAX_VARINT_LEN - 1 {
      RoomIsLarge(k + 1);
    }
  }

  // Reading what Encode wrote, anywhere in the data, gives the number back.
  lemma {:induction false} RoundTripAt(s: seq<Byte>, at: nat, k: nat, v: nat)
    requires k < MAX_VARINT_LEN && v < Room(k)
    requires Holds(s, at, Encode(v))
    ensures Parse(s, at, k) == Got(v, at + |Encode(v)|)
    decreases MAX_VARINT_LEN - k
  {
    assert s[at] == s[at..at + |Encode(v)|][0];
    if v >= 128 {
      HoldsParts(s, at, [128 + v % 128], Encode(v / 128));
      if k < MAX_VARINT_LEN - 1 {
        assert v / 128 < Room(k + 1);
        RoundTripAt(s, at + 1, k + 1, v / 128);
      }
    }
  }

  // binary.ReadUvarint. The or with shifted bits adds, since the bits below are clear.
  method ReadUvarint(s: seq<Byte>, start: nat) returns (r: Parsed)
    requires start <= |s|
    ensures r == Parse(s, start, 0)
  {
    hide Continue, Parse;
    var x: nat, at: nat, shift: nat := 0, start, 1;
    ContinueStart(Parse(s, start, 0));
    for i := 0 to MAX_VARINT_LEN
      invariant at == start + i <= |s|
      invariant Parse(s, start, 0) == Continue(x, shift, Parse(s, at, i))
    {
      ParseOne(s, at, i);
      if at >= |s| {
        ContinueFail(x, shift);
        return Fail;
      }
      var b: int := s[at];
      ProductIsNat(b, shift);
      if b < 0x80 {
        if i == MAX_VARINT_LEN - 1 && b > 1 {
          ContinueFail(x, shift);
          return Fail;
        }
        ContinueLast(x, shift, b, at + 1);
        return Got(x + b * shift, at + 1);
      }
      ProductIsNat(b - 128, shift);
      ContinueOne(x, shift, b - 128, Parse(s, at + 1, i + 1));
      x := x + (b - 128) * shift;
      shift := 128 * shift;
      at := at + 1;
    }
    ParseOne(s, at, MAX_VARINT_LEN);
    ContinueFail(x, shift);
    return Fail;
  }

  lemma ProductIsNat(b: nat, shift: nat)
    ensures b * shift >= 0
  {
  }

  lemma ParseOne(s: seq<Byte>, at: nat, k: nat)
    requires k <= MAX_VARINT_LEN
    ensures
      if at >= |s| || k == MAX_VARINT_LEN then Parse(s, at, k) == Fail
      else if s[at] < 128 then
        Parse(s, at, k) == if k == MAX_VARINT_LEN - 1 && s[at] > 1 then Fail else Got(s[at], at + 1)
      else
        var rest := Parse(s, at + 1, k + 1);
        Parse(s, at, k) == if rest.Fail? then Fail else Got(s[at] - 128 + 128 * rest.v, rest.next)
  {
  }

  // The whole number, from the bits read so far and the rest.
  function Continue(x: nat, shift: nat, rest: Parsed): Parsed {
    if rest.Fail? then Fail else Got(x + shift * rest.v, rest.next)
  }

  lemma ContinueStart(rest: Parsed)
    ensures Continue(0, 1, rest) == rest
  {
  }

  lemma ContinueFail(x: nat, shift: nat)
    ensures Continue(x, shift, Fail) == Fail
  {
  }

  lemma ContinueLast(x: nat, shift: nat, b: nat, next: nat)
    ensures Continue(x, shift, Got(b, next)) == Got(x + b * shift, next)
  {
  }

  lemma ContinueOne(x: nat, shift: nat, low: nat, rest: Parsed)
    ensures
      Continue(x, shift, if rest.Fail? then Fail else Got(low + 128 * rest.v, rest.next)) ==
      Continue(x + low * shift, 128 * shift, rest)
  {
    if rest.Got? {
      assert shift * (low + 128 * rest.v) == low * shift + 128 * shift * rest.v;
    }
  }

  // ----- columns of numbers

  datatype Column = NoColumn | Column(vals: seq<nat>, next: nat)

  function EncodeAll(vals: seq<nat>): seq<Byte> {
    if vals == [] then [] else EncodeAll(vals[..|vals| - 1]) + Encode(vals[|vals| - 1])
  }

  function ParseAll(s: seq<Byte>, at: nat, n: nat): (c: Column)
    ensures c.Column? ==> |c.vals| == n
  {
    if n == 0 then Column([], at)
    else match ParseAll(s, at, n - 1)
      case NoColumn => NoColumn
      case Column(vals, mid) => match Parse(s, mid, 0)
        case Fail => NoColumn
        case Got(v, next) => Column(vals + [v], next)
  }

  lemma {:induction false} ColumnFits(s: seq<Byte>, at: nat, n: nat)
    requires at <= |s| && ParseAll(s, at, n).Column?
    ensures ParseAll(s, at, n).next <= |s|
    ensures forall i :: 0 <= i < n ==> ParseAll(s, at, n).vals[i] < TWO_64
  {
    if n > 0 {
      ColumnFits(s, at, n - 1);
      ParseFits(s, ParseAll(s, at, n - 1).next, 0);
      RoomAtStart();
    }
  }

  // The piece stands at position `at` of the data.
  predicate Holds(s: seq<Byte>, at: nat, piece: seq<Byte>) {
    at + |piece| <= |s| && s[at..at + |piece|] == piece
  }

  lemma HoldsParts(s: seq<Byte>, at: nat, a: seq<Byte>, b: seq<Byte>)
    requires Holds(s, at, a + b)
    ensures Holds(s, at, a) && Holds(s, at + |a|, b)
  {
    assert s[at..at + |a|] == s[at..at + |a + b|][..|a|];
    assert s[at + |a|..at + |a| + |b|] == s[at..at + |a + b|][|a|..];
  }

  lemma {:induction false} ColumnRoundTrip(s: seq<Byte>, at: nat, vals: seq<nat>)
    requires forall i :: 0 <= i < |vals| ==> vals[i] < TWO_64
    requires Holds(s, at, EncodeAll(vals))
    ensures ParseAll(s, at, |vals|) == Column(vals, at + |EncodeAll(vals)|)
    decreases |vals|
  {
    hide Holds, Encode, Parse, ParseAll, EncodeAll;
    NoneParsed(s, at);
    EncodeAllEnds(vals);
    if vals != [] {
      var n := |vals| - 1;
      var front, last := EncodeAll(vals[..n]), Encode(vals[n]);
      HoldsParts(s, at, front, last);
      ColumnRoundTrip(s, at, vals[..n]);
      RoomAtStart();
      RoundTripAt(s, at + |front|, 0, vals[n]);
      assert vals[..n] + [vals[n]] == vals;
      OneMoreParsed(s, at, vals[..n], at + |front|, vals[n], at + |front| + |last|);
    }
  }

  lemma EncodeAllEnds(vals: seq<nat>)
    ensures if vals == [] then EncodeAll(vals) == []
            else EncodeAll(vals) == EncodeAll(vals[..|vals| - 1]) + Encode(vals[|vals| - 1])
  {
  }

  lemma NoneParsed(s: seq<Byte>, at: nat)
    ensures ParseAll(s, at, 0) == Column([], at)
  {
  }

  lemma OneMoreParsed(s: seq<Byte>, at: nat, vals: seq<nat>, mid: nat, v: nat, next: nat)
    requires ParseAll(s, at, |vals|) == Column(vals, mid) && Parse(s, mid, 0) == Got(v, next)
    ensures ParseAll(s, at, |vals| + 1) == Column(vals + [v], next)
  {
    hide Parse;
  }
}
