/** The in-memory cache of internal/cache/cache.go: what its operations mean for the list of
    entries, the class itself, and how caches of different sizes compare. */
module Lru {
  import opened Options

  type Bytes = seq<bv8>

  datatype Rec = Rec(key: string, value: Bytes, expires: int)

  // The list, most recently used first, and the counters.
  datatype State = State(list: seq<Rec>, hits: nat, misses: nat, evictions: nat)

  // The size limit and the time to live. A limit of zero or less turns the cache off, a time of
  // zero or less turns expiry off.
  datatype Limits = Limits(max: int, ttl: int)

  // ----- lists of entries

  predicate Has(list: seq<Rec>, key: string) {
    list != [] && (list[0].key == key || Has(list[1..], key))
  }

  predicate Distinct(list: seq<Rec>) {
    list == [] || (!Has(list[1..], list[0].key) && Distinct(list[1..]))
  }

  function Lookup(list: seq<Rec>, key: string): (r: Option<Rec>)
    ensures r.Some? ==> r.value.key == key
    ensures r.Some? <==> Has(list, key)
  {
    if list == [] then None
    else if list[0].key == key then Some(list[0])
    else Lookup(list[1..], key)
  }

  function Without(list: seq<Rec>, key: string): (r: seq<Rec>)
    ensures |r| == |list| - if Has(list, key) then 1 else 0
    ensures !Has(list, key) ==> r == list
  {
    if list == [] then []
    else if list[0].key == key then list[1..]
    else [list[0]] + Without(list[1..], key)
  }

  function TotalBytes(list: seq<Rec>): nat {
    if list == [] then 0 else |list[0].value| + TotalBytes(list[1..])
  }

  lemma {:induction false} WithoutHas(list: seq<Rec>, key: string, other: string)
    requires Distinct(list)
    ensures Has(Without(list, key), other) <==> Has(list, other) && other != key
    ensures other != key ==> Lookup(Without(list, key), other) == Lookup(list, other)
  {
    if list != [] && list[0].key != key {
      WithoutHas(list[1..], key, other);
      assert Without(list, key)[1..] == Without(list[1..], key);
    }
  }

  lemma {:induction false} WithoutDistinct(list: seq<Rec>, key: string)
    requires Distinct(list)
    ensures Distinct(Without(list, key))
    ensures TotalBytes(list) == TotalBytes(Without(list, key)) +
      if Has(list, key) then |Lookup(list, key).value.value| else 0
  {
    if list != [] && list[0].key != key {
      WithoutDistinct(list[1..], key);
      WithoutHas(list[1..], key, list[0].key);
      assert Without(list, key)[1..] == Without(list[1..], key);
    }
  }

  function ButLast(list: seq<Rec>): seq<Rec>
    requires list != []
  {
    list[..|list| - 1]
  }

  lemma ButLastTail(list: seq<Rec>)
    requires |list| > 1
    ensures ButLast(list)[1..] == ButLast(list[1..]) && ButLast(list)[0] == list[0]
    ensures list[1..][|list[1..]| - 1] == list[|list| - 1]
  {
  }

  lemma {:induction false} ButLastHas(list: seq<Rec>, other: string)
    requires list != [] && Distinct(list)
    ensures Has(ButLast(list), other) <==> Has(list, other) && other != list[|list| - 1].key
    ensures other != list[|list| - 1].key ==> Lookup(ButLast(list), other) == Lookup(list, other)
  {
    if |list| > 1 {
      ButLastHas(list[1..], other);
      ButLastTail(list);
      LastIsThere(list[1..]);
    }
  }

  lemma {:induction false} LastIsThere(list: seq<Rec>)
    requires list != []
    ensures Has(list, list[|list| - 1].key)
  {
    if |list| > 1 {
      LastIsThere(list[1..]);
    }
  }

  lemma {:induction false} ButLastDistinct(list: seq<Rec>)
    requires list != [] && Distinct(list)
    ensures Distinct(ButLast(list)) && TotalBytes(list) == TotalBytes(ButLast(list)) + |list[|list| - 1].value|
  {
    if |list| > 1 {
      ButLastDistinct(list[1..]);
      ButLastHas(list[1..], list[0].key);
      ButLastTail(list);
    }
  }

  // ----- the operations

  predicate Expired(l: Limits, r: Rec, now: int) {
    l.ttl > 0 && now > r.expires
  }

  function AfterGet(l: Limits, s: State, key: string, now: int): (State, Option<Bytes>) {
    if l.max <= 0 then (s, None)
    else match Lookup(s.list, key)
      case None => (s.(misses := s.misses + 1), None)
      case Some(r) =>
        if Expired(l, r, now) then (s.(list := Without(s.list, key), misses := s.misses + 1), None)
        else (s.(list := [r] + Without(s.list, key), hits := s.hits + 1), Some(r.value))
  }

  function AfterSet(l: Limits, s: State, key: string, value: Bytes, now: int): State {
    if l.max <= 0 then s
    else
      var list := [Rec(key, value, now + l.ttl)] + Without(s.list, key);
      if |list| <= l.max then s.(list := list)
      else s.(list := ButLast(list), evictions := s.evictions + 1)
  }

  function AfterPurge(s: State): State {
    s.(list := [])
  }

  // What every operation keeps: distinct keys, and no more entries than the limit.
  predicate Ok(l: Limits, s: State) {
    Distinct(s.list) && |s.list| <= if l.max > 0 then l.max else 0
  }

  datatype Op = DoGet(key: string, now: int) | DoSet(key: string, value: Bytes, now: int) | DoPurge

  function Apply(l: Limits, s: State, op: Op): State {
    match op
    case DoGet(key, now) => AfterGet(l, s, key, now).0
    case DoSet(key, value, now) => AfterSet(l, s, key, value, now)
    case DoPurge => AfterPurge(s)
  }

  const EMPTY := State([], 0, 0, 0)

  function Run(l: Limits, ops: seq<Op>): State {
    if ops == [] then EMPTY else Apply(l, Run(l, ops[..|ops| - 1]), ops[|ops| - 1])
  }

  lemma ApplyKeepsOk(l: Limits, s: State, op: Op)
    requires Ok(l, s)
    ensures Ok(l, Apply(l, s, op))
  {
    if !op.DoPurge? {
      WithoutDistinct(s.list, op.key);
      WithoutHas(s.list, op.key, op.key);
      if op.DoSet? {
        PushDistinct(Rec(op.key, op.value, op.now + l.ttl), Without(s.list, op.key));
      } else if Lookup(s.list, op.key).Some? {
        PushDistinct(Lookup(s.list, op.key).value, Without(s.list, op.key));
      }
    }
  }

  lemma PushDistinct(r: Rec, list: seq<Rec>)
    requires Distinct(list) && !Has(list, r.key)
    ensures Distinct([r] + list) && Distinct(ButLast([r] + list))
    ensures TotalBytes([r] + list) == |r.value| + TotalBytes(list)
  {
    assert ([r] + list)[1..] == list;
    ButLastDistinct([r] + list);
  }

  // What is in the list after a call was there before, or is what the call stored.
  lemma {:induction false} WithoutMember(list: seq<Rec>, key: string, r: Rec)
    requires r in Without(list, key)
    ensures r in list && (Distinct(list) ==> r.key != key)
  {
    if list[0].key == key {
      if r.key == key {
        MemberHas(list[1..], r);
      }
    } else if r != list[0] {
      WithoutMember(list[1..], key, r);
    }
  }

  lemma {:induction false} MemberHas(list: seq<Rec>, r: Rec)
    requires r in list
    ensures Has(list, r.key)
  {
    if list[0] != r {
      MemberHas(list[1..], r);
    }
  }

  lemma {:induction false} MemberIsFound(list: seq<Rec>, r: Rec)
    requires r in list && Distinct(list)
    ensures Lookup(list, r.key) == Some(r)
  {
    if list[0] != r {
      MemberHas(list[1..], r);
      MemberIsFound(list[1..], r);
    }
  }

  lemma {:induction false} LookupMember(list: seq<Rec>, key: string)
    ensures Lookup(list, key).Some? ==> Lookup(list, key).value in list
  {
    if list != [] && list[0].key != key {
      LookupMember(list[1..], key);
    }
  }

  lemma GetMember(l: Limits, s: State, key: string, now: int, r: Rec)
    requires r in AfterGet(l, s, key, now).0.list
    ensures r in s.list
  {
    LookupMember(s.list, key);
    if r in Without(s.list, key) {
      WithoutMember(s.list, key, r);
    }
  }

  lemma SetMember(l: Limits, s: State, key: string, value: Bytes, now: int, r: Rec)
    requires r in AfterSet(l, s, key, value, now).list && Ok(l, s)
    ensures (r == Rec(key, value, now + l.ttl) && l.max > 0) || (r in s.list && r.key != key)
  {
    hide Distinct, Has, Without;
    if l.max > 0 && r != Rec(key, value, now + l.ttl) {
      var list := [Rec(key, value, now + l.ttl)] + Without(s.list, key);
      assert r in list;
      WithoutMember(s.list, key, r);
    }
  }

  // ----- recency

  // The last of these operations uses the key: it stores it, or finds it.
  predicate UsesLast(l: Limits, ops: seq<Op>, key: string)
    requires ops != []
  {
    match ops[|ops| - 1]
    case DoGet(k, now) => k == key && AfterGet(l, Run(l, ops[..|ops| - 1]), k, now).1.Some?
    case DoSet(k, value, now) => k == key && l.max > 0
    case DoPurge => false
  }

  // When the key was last used, -1 if never.
  function LastUse(l: Limits, ops: seq<Op>, key: string): int {
    if ops == [] then -1
    else if UsesLast(l, ops, key) then |ops| - 1
    else LastUse(l, ops[..|ops| - 1], key)
  }

  // The list is in the order of use, the most recent first.
  predicate MostRecentFirst(l: Limits, ops: seq<Op>, list: seq<Rec>) {
    && (forall i :: 0 <= i < |list| ==> 0 <= LastUse(l, ops, list[i].key) < |ops|)
    && (forall i, j :: 0 <= i < j < |list| ==> LastUse(l, ops, list[i].key) > LastUse(l, ops, list[j].key))
  }

  lemma {:induction false} WithoutAt(list: seq<Rec>, key: string) returns (p: nat)
    requires Has(list, key)
    ensures p < |list| && list[p].key == key && Without(list, key) == list[..p] + list[p + 1..]
  {
    p := 0;
    if list[0].key != key {
      var q := WithoutAt(list[1..], key);
      p := q + 1;
      assert list[..p] == [list[0]] + list[1..][..q] && list[p + 1..] == list[1..][q + 1..];
    }
  }

  lemma RecentWithout(l: Limits, ops: seq<Op>, list: seq<Rec>, key: string)
    requires MostRecentFirst(l, ops, list)
    ensures MostRecentFirst(l, ops, Without(list, key))
  {
    hide LastUse, Without;
    if Has(list, key) {
      var p := WithoutAt(list, key);
      var rest := Without(list, key);
      assert forall i :: 0 <= i < |rest| ==> rest[i] == list[if i < p then i else i + 1];
    }
  }

  lemma UnusedStays(l: Limits, ops: seq<Op>, list: seq<Rec>)
    requires ops != [] && MostRecentFirst(l, ops[..|ops| - 1], list)
    requires forall i :: 0 <= i < |list| ==> !UsesLast(l, ops, list[i].key)
    ensures MostRecentFirst(l, ops, list)
  {
    hide UsesLast;
    var front := ops[..|ops| - 1];
    assert forall i :: 0 <= i < |list| ==> LastUse(l, ops, list[i].key) == LastUse(l, front, list[i].key);
    hide LastUse;
  }

  lemma UsedToFront(l: Limits, ops: seq<Op>, r: Rec, rest: seq<Rec>)
    requires ops != [] && MostRecentFirst(l, ops[..|ops| - 1], rest) && UsesLast(l, ops, r.key)
    requires forall i :: 0 <= i < |rest| ==> rest[i].key != r.key
    ensures MostRecentFirst(l, ops, [r] + rest) && MostRecentFirst(l, ops, ButLast([r] + rest))
  {
    hide LastUse;
    OnlyOneUsed(l, ops, r.key);
    UnusedStays(l, ops, rest);
    UsedNow(l, ops, r, rest);
  }

  lemma OnlyOneUsed(l: Limits, ops: seq<Op>, key: string)
    requires ops != [] && UsesLast(l, ops, key)
    ensures forall k :: k != key ==> !UsesLast(l, ops, k)
  {
    hide Run, AfterGet;
  }

  lemma UsedNow(l: Limits, ops: seq<Op>, r: Rec, rest: seq<Rec>)
    requires ops != [] && MostRecentFirst(l, ops, rest) && UsesLast(l, ops, r.key)
    requires forall i :: 0 <= i < |rest| ==> rest[i].key != r.key && !UsesLast(l, ops, rest[i].key)
    requires forall i :: 0 <= i < |rest| ==> LastUse(l, ops[..|ops| - 1], rest[i].key) < |ops| - 1
    ensures MostRecentFirst(l, ops, [r] + rest) && MostRecentFirst(l, ops, ButLast([r] + rest))
  {
    hide UsesLast;
    var all := [r] + rest;
    assert LastUse(l, ops, r.key) == |ops| - 1;
    assert forall i :: 0 <= i < |rest| ==> LastUse(l, ops, rest[i].key) < |ops| - 1;
    hide LastUse;
    assert forall i :: 0 < i < |all| ==> all[i] == rest[i - 1];
    assert forall i :: 0 <= i < |all| - 1 ==> ButLast(all)[i] == all[i];
  }

  lemma OthersRemain(list: seq<Rec>, key: string)
    requires Distinct(list)
    ensures forall i :: 0 <= i < |Without(list, key)| ==> Without(list, key)[i].key != key
  {
    hide Without, Distinct;
    forall i | 0 <= i < |Without(list, key)|
      ensures Without(list, key)[i].key != key
    {
      WithoutMember(list, key, Without(list, key)[i]);
    }
  }

  lemma {:induction false} RunIsOk(l: Limits, ops: seq<Op>)
    ensures Ok(l, Run(l, ops))
    decreases |ops|
  {
    if ops != [] {
      RunIsOk(l, ops[..|ops| - 1]);
      ApplyKeepsOk(l, Run(l, ops[..|ops| - 1]), ops[|ops| - 1]);
    }
  }

  // After every run the entries stand in the order in which they were last used.
  lemma {:induction false} RecencyOrder(l: Limits, ops: seq<Op>)
    ensures MostRecentFirst(l, ops, Run(l, ops).list)
    decreases |ops|
  {
    hide LastUse, MostRecentFirst, Without, Distinct;
    if ops == [] {
      NothingUsed(l);
    } else {
      var n := |ops| - 1;
      var front, op := ops[..n], ops[n];
      var list := Run(l, front).list;
      RecencyOrder(l, front);
      RunIsOk(l, front);
      if l.max <= 0 || op.DoPurge? {
        EmptyIsRecent(l, ops);
      } else {
        RecentWithout(l, front, list, op.key);
        OthersRemain(list, op.key);
        if op.DoSet? {
          UsedToFront(l, ops, Rec(op.key, op.value, op.now + l.ttl), Without(list, op.key));
        } else if Lookup(list, op.key).None? {
          UnusedStays(l, ops, list);
        } else if Expired(l, Lookup(list, op.key).value, op.now) {
          UnusedStays(l, ops, Without(list, op.key));
        } else {
          UsedToFront(l, ops, Lookup(list, op.key).value, Without(list, op.key));
        }
      }
    }
  }

  lemma NothingUsed(l: Limits)
    ensures MostRecentFirst(l, [], [])
  {
  }

  lemma EmptyIsRecent(l: Limits, ops: seq<Op>)
    ensures MostRecentFirst(l, ops, [])
  {
  }

  // So what a store evicts is the entry that has not been used for longest, and that only when the
  // cache is full and the key is new.
  lemma EvictsLeastRecent(l: Limits, ops: seq<Op>, key: string, value: Bytes, now: int, r: Rec)
    requires
      var s := Run(l, ops);
      r in s.list && r.key != key && !Has(AfterSet(l, s, key, value, now).list, r.key)
    ensures
      var s := Run(l, ops);
      && |s.list| == l.max && !Has(s.list, key)
      && forall q :: q in s.list && q != r ==> LastUse(l, ops, q.key) > LastUse(l, ops, r.key)
  {
    hide LastUse, Without, Distinct, MostRecentFirst, AfterSet, Run, Has;
    var s := Run(l, ops);
    RunIsOk(l, ops);
    RecencyOrder(l, ops);
    EvictedIsLast(l, s, key, value, now, r);
    LastIsLeastRecent(l, ops, s.list, r);
  }

  lemma EvictedIsLast(l: Limits, s: State, key: string, value: Bytes, now: int, r: Rec)
    requires Ok(l, s) && r in s.list && r.key != key && !Has(AfterSet(l, s, key, value, now).list, r.key)
    ensures |s.list| == l.max && !Has(s.list, key) && r.key == s.list[|s.list| - 1].key
  {
    hide Without, Distinct, Has;
    WithoutHas(s.list, key, r.key);
    MemberHas(s.list, r);
    var new0 := Rec(key, value, now + l.ttl);
    var all := [new0] + Without(s.list, key);
    assert all[0] == new0 && all[1..] == Without(s.list, key);
    HasCons(all, r.key);
    if |all| > l.max {
      PushDistinct2(s.list, all, key);
      ButLastHas(all, r.key);
      assert |s.list| == l.max && Without(s.list, key) == s.list;
      assert all[|all| - 1] == s.list[|s.list| - 1];
    }
  }

  lemma HasCons(list: seq<Rec>, key: string)
    requires list != []
    ensures Has(list, key) <==> list[0].key == key || Has(list[1..], key)
  {
  }

  lemma PushDistinct2(list: seq<Rec>, all: seq<Rec>, key: string)
    requires Distinct(list) && all != [] && all[0].key == key && all[1..] == Without(list, key)
    ensures Distinct(all)
  {
    WithoutDistinct(list, key);
    WithoutHas(list, key, key);
    PushDistinct(all[0], all[1..]);
    assert [all[0]] + all[1..] == all;
  }

  lemma LastIsLeastRecent(l: Limits, ops: seq<Op>, list: seq<Rec>, r: Rec)
    requires MostRecentFirst(l, ops, list) && Distinct(list) && list != [] && r in list
    requires r.key == list[|list| - 1].key
    ensures forall q :: q in list && q != r ==> LastUse(l, ops, q.key) > LastUse(l, ops, r.key)
  {
    hide LastUse, Distinct;
    forall q | q in list && q != r
      ensures LastUse(l, ops, q.key) > LastUse(l, ops, r.key)
    {
      var i :| 0 <= i < |list| && list[i] == q;
      if i == |list| - 1 {
        MemberIsFound(list, q);
        MemberIsFound(list, r);
      }
    }
  }

  // A value that has just been set is found until its time to live has passed.
  lemma SetThenGet(l: Limits, s: State, key: string, value: Bytes, now: int, later: int)
    requires Ok(l, s)
    ensures AfterGet(l, AfterSet(l, s, key, value, now), key, later).1 ==
            if l.max > 0 && (l.ttl <= 0 || later - now <= l.ttl) then Some(value) else None
  {
    var list := [Rec(key, value, now + l.ttl)] + Without(s.list, key);
    assert list[0] == Rec(key, value, now + l.ttl);
    assert |list| > l.max && l.max > 0 ==> ButLast(list)[0] == list[0];
  }

  // A lookup that finds an entry too old removes it, and no lookup touches another.
  lemma GetRemovesExpired(l: Limits, s: State, key: string, now: int, other: string)
    requires Ok(l, s)
    ensures
      var (after, v) := AfterGet(l, s, key, now);
      && (other != key ==> Lookup(after.list, other) == Lookup(s.list, other))
      && (v.None? && l.max > 0 ==> !Has(after.list, key))
      && (v.Some? ==> Lookup(after.list, key) == Lookup(s.list, key) && Lookup(s.list, key).value.value == v.value)
  {
    hide Without, Distinct;
    WithoutHas(s.list, key, other);
    WithoutHas(s.list, key, key);
    var found := Lookup(s.list, key);
    if found.Some? {
      var list := [found.value] + Without(s.list, key);
      assert list[0] == found.value && list[1..] == Without(s.list, key);
    }
  }

  // The counters count the lookups of a cache that is not turned off: those that find a value and
  // those that do not.
  ghost function Lookups(l: Limits, ops: seq<Op>, found: bool): nat {
    if ops == [] then 0
    else
      var n := |ops| - 1;
      Lookups(l, ops[..n], found) +
      if ops[n].DoGet? && l.max > 0 && AfterGet(l, Run(l, ops[..n]), ops[n].key, ops[n].now).1.Some? == found then 1
      else 0
  }

  lemma {:induction false} CountersCount(l: Limits, ops: seq<Op>)
    ensures Run(l, ops).hits == Lookups(l, ops, true) && Run(l, ops).misses == Lookups(l, ops, false)
    decreases |ops|
  {
    if ops != [] {
      CountersCount(l, ops[..|ops| - 1]);
    }
  }

  // ----- two caches, one no larger than the other

  // a is b with some entries left out.
  predicate Sub(a: seq<Rec>, b: seq<Rec>) {
    if b == [] then a == []
    else (a != [] && a[0] == b[0] && Sub(a[1..], b[1..])) || Sub(a, b[1..])
  }

  lemma {:induction false} SubSize(a: seq<Rec>, b: seq<Rec>)
    requires Sub(a, b)
    ensures |a| <= |b|
  {
    if b != [] {
      if Sub(a, b[1..]) {
        SubSize(a, b[1..]);
      } else {
        SubSize(a[1..], b[1..]);
      }
    }
  }

  lemma {:induction false} SubHas(a: seq<Rec>, b: seq<Rec>, key: string)
    requires Sub(a, b) && Distinct(b) && Has(a, key)
    ensures Has(b, key) && Lookup(b, key) == Lookup(a, key)
  {
    if Sub(a, b[1..]) {
      SubHas(a, b[1..], key);
    } else if a[0].key != key {
      SubHas(a[1..], b[1..], key);
    }
  }

  lemma {:induction false} EmptySub(b: seq<Rec>)
    ensures Sub([], b)
  {
    if b != [] {
      EmptySub(b[1..]);
    }
  }

  lemma SubPush(r: Rec, a: seq<Rec>, b: seq<Rec>)
    requires Sub(a, b)
    ensures Sub([r] + a, [r] + b)
  {
    assert ([r] + a)[1..] == a && ([r] + b)[1..] == b;
  }

  lemma {:induction false} SubWithout(a: seq<Rec>, b: seq<Rec>, key: string)
    requires Sub(a, b) && Distinct(b)
    ensures Sub(Without(a, key), Without(b, key))
  {
    if b != [] {
      if Sub(a, b[1..]) {
        SubWithout(a, b[1..], key);
        if b[0].key == key {
          if Has(a, key) {
            SubHas(a, b[1..], key);
          }
        } else {
          assert Without(b, key)[1..] == Without(b[1..], key);
        }
      } else {
        SubWithout(a[1..], b[1..], key);
        if b[0].key != key {
          SubPush(b[0], Without(a[1..], key), Without(b[1..], key));
        }
      }
    }
  }

  // The larger list may lose its last entry if the smaller one loses it too ...
  lemma {:induction false} SubButLasts(a: seq<Rec>, b: seq<Rec>)
    requires Sub(a, b) && a != [] && b != [] && Distinct(b) && a[|a| - 1].key == b[|b| - 1].key
    ensures Sub(ButLast(a), ButLast(b))
  {
    if |b| == 1 {
      SubSize(a, b);
    } else {
      LastIsThere(b[1..]);
      assert b[0].key != b[|b| - 1].key;
      ButLastTail(b);
      if Sub(a, b[1..]) {
        SubButLasts(a, b[1..]);
      } else {
        assert |a| > 1;
        SubButLasts(a[1..], b[1..]);
        ButLastTail(a);
      }
    }
  }

  // ... or does not hold it.
  lemma {:induction false} SubButLastOfB(a: seq<Rec>, b: seq<Rec>)
    requires Sub(a, b) && b != [] && (a != [] ==> a[|a| - 1].key != b[|b| - 1].key)
    ensures Sub(a, ButLast(b))
  {
    if a == [] {
      EmptySub(ButLast(b));
    } else if |b| == 1 {
      SubSize(a, b);
    } else {
      ButLastTail(b);
      if Sub(a, b[1..]) {
        SubButLastOfB(a, b[1..]);
      } else {
        SubButLastOfB(a[1..], b[1..]);
      }
    }
  }

  // The invariant of two runs of the same operations.
  ghost predicate Included(small: Limits, a: State, big: Limits, b: State) {
    && Ok(small, a) && Ok(big, b) && Sub(a.list, b.list)
    && (small.max > 0 ==> |b.list| - |a.list| <= big.max - small.max)
    && a.hits <= b.hits
  }

  lemma GetKeepsInclusion(small: Limits, a: State, big: Limits, b: State, key: string, now: int)
    requires Included(small, a, big, b) && small.max <= big.max && small.ttl == big.ttl
    ensures Included(small, AfterGet(small, a, key, now).0, big, AfterGet(big, b, key, now).0)
    ensures AfterGet(small, a, key, now).1.Some? ==> AfterGet(big, b, key, now).1 == AfterGet(small, a, key, now).1
  {
    ApplyKeepsOk(small, a, DoGet(key, now));
    ApplyKeepsOk(big, b, DoGet(key, now));
    SubWithout(a.list, b.list, key);
    EmptySub(AfterGet(big, b, key, now).0.list);
    if Has(a.list, key) {
      SubHas(a.list, b.list, key);
      SubPush(Lookup(a.list, key).value, Without(a.list, key), Without(b.list, key));
    } else if Has(b.list, key) {
      assert Sub(a.list, [Lookup(b.list, key).value] + Without(b.list, key)) by {
        assert ([Lookup(b.list, key).value] + Without(b.list, key))[1..] == Without(b.list, key);
      }
    }
  }

  lemma SetKeepsInclusion(small: Limits, a: State, big: Limits, b: State, key: string, value: Bytes, now: int)
    requires Included(small, a, big, b) && small.max <= big.max && small.ttl == big.ttl
    ensures Included(small, AfterSet(small, a, key, value, now), big, AfterSet(big, b, key, value, now))
  {
    hide Distinct, Sub, Without, Has, Trim;
    ApplyKeepsOk(small, a, DoSet(key, value, now));
    ApplyKeepsOk(big, b, DoSet(key, value, now));
    EmptySub(AfterSet(big, b, key, value, now).list);
    SetIsTrim(small, a, key, value, now);
    SetIsTrim(big, b, key, value, now);
    if small.max > 0 {
      PushBoth(a.list, b.list, Rec(key, value, now + small.ttl));
      DropBoth(small.max, [Rec(key, value, now + small.ttl)] + Without(a.list, key),
               big.max, [Rec(key, value, now + small.ttl)] + Without(b.list, key));
    }
  }

  lemma SetIsTrim(l: Limits, s: State, key: string, value: Bytes, now: int)
    requires Ok(l, s)
    ensures
      var list := [Rec(key, value, now + l.ttl)] + Without(s.list, key);
      && (l.max <= 0 ==> AfterSet(l, s, key, value, now) == s)
      && (l.max > 0 ==>
           && AfterSet(l, s, key, value, now).list == Trim(l.max, list)
           && AfterSet(l, s, key, value, now) ==
              State(Trim(l.max, list), s.hits, s.misses, s.evictions + |list| - |Trim(l.max, list)|))
      && (l.max > 0 && Has(s.list, key) ==> Trim(l.max, list) == list)
  {
    hide Without, Has;
  }

  // The new entry goes to the front of both lists.
  lemma PushBoth(a: seq<Rec>, b: seq<Rec>, r: Rec)
    requires Sub(a, b) && Distinct(a) && Distinct(b)
    ensures
      var pa, pb := [r] + Without(a, r.key), [r] + Without(b, r.key);
      && Sub(pa, pb) && Distinct(pa) && Distinct(pb)
      && |pa| <= |a| + 1 && |pb| <= |b| + 1 && 0 <= |pb| - |pa| <= |b| - |a|
  {
    hide Distinct, Sub, Without, Has, Lookup;
    SubWithout(a, b, r.key);
    SubSize(a, b);
    if Has(a, r.key) {
      SubHas(a, b, r.key);
    }
    SubPush(r, Without(a, r.key), Without(b, r.key));
    SubSize(Without(a, r.key), Without(b, r.key));
    PushNew(a, r);
    PushNew(b, r);
  }

  lemma PushNew(list: seq<Rec>, r: Rec)
    requires Distinct(list)
    ensures Distinct([r] + Without(list, r.key))
  {
    hide Distinct, Without, Has, Lookup, TotalBytes;
    WithoutDistinct(list, r.key);
    WithoutHas(list, r.key, r.key);
    PushDistinct(r, Without(list, r.key));
  }

  function Trim(max: int, list: seq<Rec>): seq<Rec>
    requires list != []
  {
    if |list| <= max then list else ButLast(list)
  }

  // Evicting from both keeps the smaller list inside the larger one: when the larger one is full
  // and its last entry is in the smaller one, the smaller one is full too.
  lemma DropBoth(m: int, a: seq<Rec>, n: int, b: seq<Rec>)
    requires Sub(a, b) && Distinct(b) && a != [] && b != []
    requires 0 < m <= n && |a| <= m + 1 && |b| <= n + 1 && |b| - |a| <= n - m
    ensures Sub(Trim(m, a), Trim(n, b)) && |Trim(n, b)| - |Trim(m, a)| <= n - m
  {
    hide Sub, Distinct;
    if |b| > n {
      if a[|a| - 1].key == b[|b| - 1].key {
        SubButLasts(a, b);
      } else {
        SubButLastOfB(a, b);
        ButLastSub(a, ButLast(b));
      }
    } else if |a| > m {
      ButLastSub(a, b);
    }
  }

  lemma {:induction false} ButLastSub(a: seq<Rec>, b: seq<Rec>)
    requires Sub(a, b) && a != []
    ensures Sub(ButLast(a), b)
  {
    if Sub(a, b[1..]) {
      ButLastSub(a, b[1..]);
    } else if |a| > 1 {
      ButLastSub(a[1..], b[1..]);
      ButLastTail(a);
    } else {
      EmptySub(b);
    }
  }

  // For every run of operations, and any time to live, the smaller cache holds some of the entries
  // of the larger one, in the same order, with the same values and expiry times.
  lemma {:induction false} Inclusion(small: Limits, big: Limits, ops: seq<Op>)
    requires small.max <= big.max && small.ttl == big.ttl
    ensures Included(small, Run(small, ops), big, Run(big, ops))
  {
    if ops != [] {
      var before, op := ops[..|ops| - 1], ops[|ops| - 1];
      Inclusion(small, big, before);
      var a, b := Run(small, before), Run(big, before);
      match op
      case DoGet(key, now) => GetKeepsInclusion(small, a, big, b, key, now);
      case DoSet(key, value, now) => SetKeepsInclusion(small, a, big, b, key, value, now);
      case DoPurge =>
    }
  }

  // So the larger cache hits wherever the smaller one does, with the same value.
  lemma LargerNeverMissesMore(small: Limits, big: Limits, ops: seq<Op>, key: string, now: int)
    requires small.max <= big.max && small.ttl == big.ttl
    ensures Run(small, ops).hits <= Run(big, ops).hits
    ensures AfterGet(small, Run(small, ops), key, now).1.Some? ==>
              AfterGet(big, Run(big, ops), key, now).1 == AfterGet(small, Run(small, ops), key, now).1
  {
    Inclusion(small, big, ops);
    GetKeepsInclusion(small, Run(small, ops), big, Run(big, ops), key, now);
  }

  // ----- the class

  // An element of the list; the map leads to the same objects.
  class Entry {
    const key: string
    var value: Bytes
    var expires: int

    constructor (key: string, value: Bytes, expires: int)
      ensures this.key == key && this.value == value && this.expires == expires
    {
      this.key, this.value, this.expires := key, value, expires;
    }
  }

  ghost function RecOf(e: Entry): Rec
    reads e
  {
    Rec(e.key, e.value, e.expires)
  }

  ghost function RecsOf(s: seq<Entry>): (r: seq<Rec>)
    reads s
    ensures |r| == |s|
  {
    if s == [] then [] else [RecOf(s[0])] + RecsOf(s[1..])
  }

  // list.Remove.
  function Removed(s: seq<Entry>, e: Entry): seq<Entry> {
    if s == [] then [] else if s[0] == e then s[1..] else [s[0]] + Removed(s[1..], e)
  }

  lemma {:induction false} RecsRemoved(s: seq<Entry>, e: Entry)
    requires e in s && Distinct(RecsOf(s))
    ensures RecsOf(Removed(s, e)) == Without(RecsOf(s), e.key)
    ensures Lookup(RecsOf(s), e.key) == Some(RecOf(e))
    ensures e !in Removed(s, e) && forall x :: x in Removed(s, e) <==> x in s && x != e
  {
    assert s == [s[0]] + s[1..];
    if s[0] == e {
      AbsentKey(s[1..], e.key);
    } else {
      RecsRemoved(s[1..], e);
      KeyIsThere(s[1..], e);
    }
  }

  lemma RecsPush(e: Entry, s: seq<Entry>)
    ensures RecsOf([e] + s) == [RecOf(e)] + RecsOf(s)
  {
    assert ([e] + s)[1..] == s;
  }

  lemma {:induction false} KeyIsThere(s: seq<Entry>, e: Entry)
    requires e in s
    ensures Has(RecsOf(s), e.key)
  {
    if s[0] != e {
      KeyIsThere(s[1..], e);
    }
  }

  lemma {:induction false} AbsentKey(s: seq<Entry>, key: string)
    requires !Has(RecsOf(s), key)
    ensures forall x :: x in s ==> x.key != key
  {
    forall x | x in s
      ensures x.key != key
    {
      KeyIsThere(s, x);
    }
  }

  lemma {:induction false} KeyLeadsBack(s: seq<Entry>, key: string)
    requires Has(RecsOf(s), key)
    ensures exists x :: x in s && x.key == key
  {
    if s[0].key != key {
      KeyLeadsBack(s[1..], key);
    }
  }

  lemma {:induction false} RecsButLast(s: seq<Entry>)
    requires s != []
    ensures RecsOf(s[..|s| - 1]) == ButLast(RecsOf(s)) && RecsOf(s)[|s| - 1] == RecOf(s[|s| - 1])
  {
    if |s| > 1 {
      RecsButLast(s[1..]);
      assert s[..|s| - 1][1..] == s[1..][..|s[1..]| - 1];
    }
  }

  lemma LastIsAlone(s: seq<Entry>)
    requires s != [] && Distinct(RecsOf(s))
    ensures forall e :: e in s[..|s| - 1] <==> e in s && e != s[|s| - 1]
    ensures forall e :: e in s[..|s| - 1] ==> e.key != s[|s| - 1].key
  {
    hide RecsOf, Has, Distinct;
    RecsButLast(s);
    ButLastHas(RecsOf(s), s[|s| - 1].key);
    var n := |s| - 1;
    AbsentKey(s[..n], s[n].key);
    forall e
      ensures e in s[..n] <==> e in s && e != s[n]
    {
      if e in s {
        var i :| 0 <= i <= n && s[i] == e;
        assert i < n ==> s[..n][i] == e;
      }
    }
  }

  datatype MemStats = MemStats(entries: nat, maxEntries: int, bytes: int, hits: nat, misses: nat, evictions: nat,
                               ttl: int, hitRate: real)

  class Cache {
    const limits: Limits
    var ll: seq<Entry>
    var items: map<string, Entry>
    var hits: nat
    var misses: nat
    var evictions: nat
    var bytes: int

    ghost function Recs(): seq<Rec>
      reads this, ll
    {
      RecsOf(ll)
    }

    ghost function Abs(): State
      reads this, ll
    {
      State(Recs(), hits, misses, evictions)
    }

    // The map leads from every key to its element of the list, and to nothing else.
    ghost predicate Indexed()
      reads this, ll
    {
      && (forall e :: e in ll ==> e.key in items && items[e.key] == e)
      && (forall k :: k in items ==> items[k] in ll && items[k].key == k)
    }

    ghost predicate Valid()
      reads this, ll
    {
      Ok(limits, Abs()) && Indexed() && bytes == TotalBytes(Recs())
    }

    // Valid but for the size limit.
    ghost predicate Consistent()
      reads this, ll
    {
      Distinct(Recs()) && Indexed() && bytes == TotalBytes(Recs())
    }

    constructor (maxEntries: int, ttl: int)
      ensures Valid() && limits == Limits(maxEntries, ttl) && Abs() == EMPTY
    {
      limits := Limits(maxEntries, ttl);
      ll, items, hits, misses, evictions, bytes := [], map[], 0, 0, 0, 0;
    }

    method Get(key: string, now: int) returns (r: Option<Bytes>)
      requires Valid()
      modifies this
      ensures Valid() && (Abs(), r) == AfterGet(limits, old(Abs()), key, now)
      ensures forall e :: e in ll ==> e in old(ll)
    {
      hide Distinct, TotalBytes, RecsOf, Without, Lookup, Has, Removed;
      ApplyKeepsOk(limits, Abs(), DoGet(key, now));
      WithoutDistinct(Recs(), key);
      WithoutHas(Recs(), key, key);
      if limits.max <= 0 {
        return None;
      }
      if key !in items {
        Absent(key);
        misses := misses + 1;
        return None;
      }
      var en := items[key];
      RecsRemoved(ll, en);
      if limits.ttl > 0 && now > en.expires {
        ll := Removed(ll, en);
        items := items - {key};
        bytes := bytes - |en.value|;
        misses := misses + 1;
        return None;
      }
      RecsPush(en, Removed(ll, en));
      PushDistinct(RecOf(en), RecsOf(Removed(ll, en)));
      ll := [en] + Removed(ll, en);
      hits := hits + 1;
      return Some(en.value);
    }

    lemma Absent(key: string)
      requires Indexed() && key !in items
      ensures !Has(Recs(), key)
    {
      if Has(Recs(), key) {
        KeyLeadsBack(ll, key);
      }
    }

    method Set(key: string, value: Bytes, now: int)
      requires Valid()
      modifies this, ll
      ensures Valid() && Abs() == AfterSet(limits, old(Abs()), key, value, now)
      ensures forall e :: e in ll ==> e in old(ll) || fresh(e)
    {
      hide Distinct, TotalBytes, RecsOf, Without, Lookup, Has, Removed, AfterSet, Trim;
      ApplyKeepsOk(limits, Abs(), DoSet(key, value, now));
      SetIsTrim(limits, Abs(), key, value, now);
      WithoutDistinct(Recs(), key);
      WithoutHas(Recs(), key, key);
      if limits.max <= 0 {
        return;
      }
      PushDistinct(Rec(key, value, now + limits.ttl), Without(Recs(), key));
      if key in items {
        Overwrite(items[key], value, now);
        return;
      }
      Absent(key);
      var en := new Entry(key, value, now + limits.ttl);
      PushFront(en);
      EvictExcess();
    }

    // PushFront, with the new element entered into the map.
    method PushFront(en: Entry)
      requires Consistent() && en.key !in items && !Has(Recs(), en.key)
      modifies this`ll, this`items, this`bytes
      ensures Consistent() && Recs() == [RecOf(en)] + old(Recs()) && ll == [en] + old(ll)
    {
      hide Distinct, TotalBytes, RecsOf, Has;
      RecsPush(en, ll);
      PushDistinct(RecOf(en), Recs());
      ll := [en] + ll;
      items := items[en.key := en];
      bytes := bytes + |en.value|;
    }

    // An entry that is there gets its new value in place and moves to the front.
    method Overwrite(en: Entry, value: Bytes, now: int)
      requires Valid() && en in ll && limits.max > 0
      modifies this`ll, this`bytes, en
      ensures Has(old(Recs()), en.key)
      ensures Indexed() && Recs() == [Rec(en.key, value, now + limits.ttl)] + Without(old(Recs()), en.key)
      ensures bytes == |value| + TotalBytes(Without(old(Recs()), en.key))
      ensures forall e :: e in ll ==> e in old(ll)
    {
      hide Distinct, TotalBytes, RecsOf, Without, Lookup, Has, Removed;
      RecsRemoved(ll, en);
      WithoutDistinct(Recs(), en.key);
      bytes := bytes + |value| - |en.value|;
      en.value := value;
      en.expires := now + limits.ttl;
      ll := [en] + Removed(ll, en);
      RecsPush(en, Removed(old(ll), en));
    }

    // The loop that evicts from the back.
    method EvictExcess()
      requires Consistent() && 0 < limits.max && 0 < |ll| <= limits.max + 1
      modifies this`ll, this`items, this`bytes, this`evictions
      ensures Consistent() && Recs() == Trim(limits.max, old(Recs()))
      ensures evictions == old(evictions) + |old(ll)| - |ll|
      ensures forall e :: e in ll ==> e in old(ll)
    {
      hide Distinct, TotalBytes, RecsOf;
      while |ll| > limits.max
        invariant Consistent() && evictions == old(evictions) + |old(ll)| - |ll|
        invariant ll == old(ll) || (|ll| == limits.max && Recs() == ButLast(old(Recs())))
        invariant forall e :: e in ll ==> e in old(ll)
      {
        EvictLast();
      }
    }

    // The last entry goes from the list, the map and the byte count.
    method EvictLast()
      requires Consistent() && ll != []
      modifies this`ll, this`items, this`bytes, this`evictions
      ensures Consistent() && ll == old(ll)[..|old(ll)| - 1] && Recs() == ButLast(old(Recs()))
      ensures evictions == old(evictions) + 1
    {
      hide Distinct, TotalBytes, RecsOf;
      var last := ll[|ll| - 1];
      RecsButLast(ll);
      ButLastDistinct(Recs());
      LastIsAlone(ll);
      ll := ll[..|ll| - 1];
      items := items - {last.key};
      bytes := bytes - |last.value|;
      evictions := evictions + 1;
    }

    method Purge() returns (n: nat)
      requires Valid()
      modifies this
      ensures Valid() && Abs() == AfterPurge(old(Abs())) && n == |old(Abs()).list|
    {
      n := |ll|;
      ll, items, bytes := [], map[], 0;
    }

    // Stats: entries and bytes are what the list says, the rest is what has been counted.
    method Stats() returns (st: MemStats)
      requires Valid()
      ensures st.entries == |Abs().list| && st.maxEntries == limits.max && st.bytes == TotalBytes(Abs().list)
      ensures st.hits == Abs().hits && st.misses == Abs().misses && st.evictions == Abs().evictions
      ensures st.ttl == limits.ttl && 0.0 <= st.hitRate <= 1.0
      ensures st.hitRate * (st.hits + st.misses) as real == st.hits as real
    {
      var total := hits + misses;
      var rate := 0.0;
      if total > 0 {
        rate := hits as real / total as real;
        RateIsShare(hits, total);
      }
      return MemStats(|ll|, limits.max, bytes, hits, misses, evictions, limits.ttl, rate);
    }
  }

  lemma RateIsShare(a: nat, total: nat)
    requires 0 < total && a <= total
    ensures
      var rate := a as real / total as real;
      rate * total as real == a as real && 0.0 <= rate <= 1.0
  {
    ShareIsAtMostOne(a as real, total as real, a as real / total as real);
  }

  lemma ShareIsAtMostOne(a: real, t: real, q: real)
    requires 0.0 <= a <= t && t > 0.0 && q == a / t
    ensures q * t == a && 0.0 <= q <= 1.0
  {
  }
}
