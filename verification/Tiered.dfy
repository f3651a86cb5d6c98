/** The two tiers together: internal/cache/tiered.go. Sequential runs, and the age of what a run
    with interleaved operations returns. */
module Tiered {
  import opened Names
  import opened Options
  import opened Lru
  import opened DiskTier

  datatype Config = Config(mem: Limits, disk: DiskLimits)

  // What the file operations of one call come to.
  datatype Outcome = Outcome(written: bool, removed: bool, read: bool)

  // ----- one call at a time

  // Both tiers. A tier that is switched off is one that stores nothing.
  datatype Stack = Stack(mem: State, files: Files)

  function AfterTieredGet(c: Config, s: Stack, key: string, now: int, o: Outcome): (Stack, Option<Bytes>) {
    var (mem, v) := AfterGet(c.mem, s.mem, key, now);
    if v.Some? then (Stack(mem, s.files), v) else AfterMiss(c, Stack(mem, s.files), key, now, o)
  }

  // A lookup that memory could not answer.
  function AfterMiss(c: Config, s: Stack, key: string, now: int, o: Outcome): (Stack, Option<Bytes>) {
    var (files, w) := AfterDiskGet(c.disk, s.files, key, now, o.removed, o.read);
    if w.Some? then (Stack(AfterSet(c.mem, s.mem, key, w.value, now), files), w) else (Stack(s.mem, files), None)
  }

  function AfterTieredSet(c: Config, s: Stack, key: string, value: Bytes, now: int, o: Outcome): Stack {
    Stack(AfterSet(c.mem, s.mem, key, value, now), AfterDiskSet(s.files, key, value, now, o.written))
  }

  // A value that has just been set is found, by way of either tier that keeps it.
  lemma SetIsFound(c: Config, s: Stack, key: string, value: Bytes, now: int, o: Outcome, later: int, removed: bool)
    requires Ok(c.mem, s.mem)
    requires (c.mem.max > 0 && (c.mem.ttl <= 0 || later - now <= c.mem.ttl)) ||
             (SafeKey(key) && o.written && (c.disk.ttl <= 0 || later - now <= c.disk.ttl))
    ensures AfterTieredGet(c, AfterTieredSet(c, s, key, value, now, o), key, later, Outcome(true, removed, true)).1 ==
            Some(value)
  {
    SetThenGet(c.mem, s.mem, key, value, now, later);
    WrittenThenRead(c.disk, s.files, key, value, now, later, removed);
    hide SafeKey, AfterGet, AfterSet, Ok;
  }

  // A value that a lookup has returned is in memory from then on: the next lookup finds it there.
  lemma FoundIsInMemory(c: Config, s: Stack, key: string, now: int, o: Outcome)
    requires Ok(c.mem, s.mem) && c.mem.max > 0 && AfterTieredGet(c, s, key, now, o).1.Some?
    ensures
      var (s', v) := AfterTieredGet(c, s, key, now, o);
      AfterGet(c.mem, s'.mem, key, now).1 == v && (s'.mem.list != [] && s'.mem.list[0].key == key)
  {
    var (mem, v) := AfterGet(c.mem, s.mem, key, now);
    if v.Some? {
      assert mem.list[0].key == key;
    } else {
      var w := AfterTieredGet(c, s, key, now, o).1;
      ApplyKeepsOk(c.mem, s.mem, DoGet(key, now));
      SetThenGet(c.mem, mem, key, w.value, now, now);
      SetToFront(c.mem, mem, key, w.value, now);
    }
  }

  lemma SetToFront(l: Limits, s: State, key: string, value: Bytes, now: int)
    requires l.max > 0
    ensures AfterSet(l, s, key, value, now).list != [] && AfterSet(l, s, key, value, now).list[0].key == key
  {
    var list := [Rec(key, value, now + l.ttl)] + Without(s.list, key);
    assert |list| > l.max ==> ButLast(list) != [] && ButLast(list)[0] == list[0];
  }

  // The class: either tier may be absent.
  class TieredCache {
    const mem: Cache?
    const disk: Disk?

    constructor (mem: Cache?, disk: Disk?)
      ensures this.mem == mem && this.disk == disk
    {
      this.mem, this.disk := mem, disk;
    }

    ghost function MemObjects(): set<object>
      reads this, mem
    {
      if mem == null then {} else {mem as object} + set e: object | e in mem.ll
    }

    ghost function DiskObjects(): set<object> {
      if disk == null then {} else {disk as object}
    }

    ghost predicate Valid()
      reads this, MemObjects()
    {
      mem != null ==> mem.Valid()
    }

    ghost function Limit(): Config {
      Config(if mem == null then Limits(0, 0) else mem.limits, if disk == null then DiskLimits(0, 0) else disk.limits)
    }

    ghost function Abs(): Stack
      reads this, MemObjects(), DiskObjects()
    {
      Stack(if mem == null then EMPTY else mem.Abs(), if disk == null then map[] else disk.files)
    }

    method Get(key: string, now: int, o: Outcome) returns (r: Option<Bytes>)
      requires Valid()
      modifies MemObjects(), DiskObjects()
      ensures Valid() && (Abs(), r) == AfterTieredGet(Limit(), old(Abs()), key, now, o)
    {
      hide AfterGet, AfterMiss;
      NothingStored(key, now);
      if mem != null {
        r := mem.Get(key, now);
        if r.Some? {
          return;
        }
      }
      r := GetFromDisk(key, now, o);
    }

    method GetFromDisk(key: string, now: int, o: Outcome) returns (r: Option<Bytes>)
      requires Valid()
      modifies MemObjects(), DiskObjects()
      ensures Valid() && (Abs(), r) == AfterMiss(Limit(), old(Abs()), key, now, o)
    {
      hide AfterSet, AfterDiskGet;
      NothingStored(key, now);
      if disk != null {
        r := disk.Get(key, now, o.removed, o.read);
        if r.Some? {
          if mem != null {
            mem.Set(key, r.value, now);
          }
          return;
        }
      }
      return None;
    }

    method Set(key: string, value: Bytes, now: int, o: Outcome)
      requires Valid()
      modifies MemObjects(), DiskObjects()
      ensures Valid()
      ensures Abs() == AfterTieredSet(Limit(), old(Abs()), key, value, now,
        if disk == null then o.(written := false) else o)
    {
      hide AfterSet;
      NothingStored(key, now);
      if mem != null {
        mem.Set(key, value, now);
      }
      if disk != null {
        disk.Set(key, value, now, o.written);
      }
    }

    method Purge(canRemove: string -> bool) returns (m: nat, d: nat)
      requires Valid()
      modifies MemObjects(), DiskObjects()
      ensures Valid() && Abs().mem == AfterPurge(old(Abs()).mem)
      ensures forall k :: k in Abs().files <==> k in old(Abs()).files && !canRemove(k)
      ensures forall k :: k in Abs().files ==> Abs().files[k] == old(Abs()).files[k]
    {
      m, d := 0, 0;
      if mem != null {
        m := mem.Purge();
      }
      if disk != null {
        d := disk.Purge(canRemove);
      }
    }
  }

  lemma NothingStored(key: string, now: int)
    ensures AfterGet(Limits(0, 0), EMPTY, key, now) == (EMPTY, None)
    ensures forall v: Bytes :: AfterSet(Limits(0, 0), EMPTY, key, v, now) == EMPTY
    ensures forall l, removed, read :: AfterDiskGet(l, map[], key, now, removed, read) == (map[], None)
  {
  }

  // ----- sequential runs

  // A call at a time. Forget stands for whatever else removes files, such as a sweep; Restart
  // empties the memory tier.
  datatype Call =
    | CallGet(now: int, key: string, o: Outcome)
    | CallSet(now: int, key: string, value: Bytes, o: Outcome)
    | CallPurge(now: int, canRemove: string -> bool)
    | Forget(now: int, keys: set<string>)
    | Restart(now: int)

  ghost function Next(c: Config, s: Stack, call: Call): Stack {
    match call
    case CallGet(now, key, o) => AfterTieredGet(c, s, key, now, o).0
    case CallSet(now, key, value, o) => AfterTieredSet(c, s, key, value, now, o)
    case CallPurge(now, canRemove) => Stack(AfterPurge(s.mem), s.files - (set k | k in s.files && canRemove(k)))
    case Forget(now, keys) => Stack(s.mem, s.files - keys)
    case Restart(now) => Stack(EMPTY, s.files)
  }

  function Output(c: Config, s: Stack, call: Call): Option<Bytes> {
    if call.CallGet? then AfterTieredGet(c, s, call.key, call.now, call.o).1 else None
  }

  // The last value set for every key since the last purge.
  type Values = map<string, Bytes>

  function LastAfter(last: Values, call: Call): Values {
    match call
    case CallSet(now, key, value, o) => last[key := value]
    case CallPurge(now, canRemove) => map[]
    case _ => last
  }

  predicate IsLast(last: Values, key: string, value: Bytes) {
    key in last && last[key] == value
  }

  predicate LiveFile(c: Config, s: Stack, key: string, now: int) {
    SafeKey(key) && key in s.files && !Stale(c.disk, s.files[key], now)
  }

  // Everything that a lookup could still return is the last value of its key.
  ghost predicate Current(c: Config, s: Stack, last: Values, now: int) {
    && Ok(c.mem, s.mem)
    && (forall r :: r in s.mem.list && !Expired(c.mem, r, now) ==> IsLast(last, r.key, r.value))
    && (forall k :: LiveFile(c, s, k, now) ==> IsLast(last, k, s.files[k].value))
  }

  // A set whose file is not written leaves no other value to be found on disk, and a purge leaves
  // no file that can be found.
  ghost predicate Harmless(c: Config, s: Stack, call: Call) {
    match call
    case CallSet(now, key, value, o) => o.written || !LiveFile(c, s, key, now) || s.files[key].value == value
    case CallPurge(now, canRemove) => forall k :: LiveFile(c, s, k, now) ==> canRemove(k)
    case _ => true
  }

  lemma SetKeepsCurrent(c: Config, mem: State, files: Files, last: Values, key: string, value: Bytes, now: int)
    requires Current(c, Stack(mem, files), last, now)
    ensures
      var mem' := AfterSet(c.mem, mem, key, value, now);
      && Ok(c.mem, mem')
      && forall r :: r in mem'.list && !Expired(c.mem, r, now) ==> IsLast(last[key := value], r.key, r.value)
  {
    ApplyKeepsOk(c.mem, mem, DoSet(key, value, now));
    hide IsLast, Expired;
    var mem' := AfterSet(c.mem, mem, key, value, now);
    forall r | r in mem'.list && !Expired(c.mem, r, now)
      ensures IsLast(last[key := value], r.key, r.value)
    {
      SetMember(c.mem, mem, key, value, now, r);
      OtherKey(last, key, value, r);
    }
  }

  lemma OtherKey(last: Values, key: string, value: Bytes, r: Rec)
    ensures r.key != key ==> (IsLast(last[key := value], r.key, r.value) <==> IsLast(last, r.key, r.value))
    ensures r.key == key ==> (IsLast(last[key := value], r.key, r.value) <==> r.value == value)
  {
  }

  lemma GetIsCurrent(c: Config, mem: State, files: Files, last: Values, key: string, now: int)
    requires Current(c, Stack(mem, files), last, now)
    ensures Current(c, Stack(AfterGet(c.mem, mem, key, now).0, files), last, now)
    ensures AfterGet(c.mem, mem, key, now).1.Some? ==> IsLast(last, key, AfterGet(c.mem, mem, key, now).1.value)
  {
    ApplyKeepsOk(c.mem, mem, DoGet(key, now));
    var mem' := AfterGet(c.mem, mem, key, now).0;
    forall r | r in mem'.list
      ensures r in mem.list
    {
      GetMember(c.mem, mem, key, now, r);
    }
    LookupMember(mem.list, key);
  }

  lemma DiskGetIsCurrent(c: Config, s: Stack, last: Values, key: string, now: int, o: Outcome)
    requires Current(c, s, last, now)
    ensures
      var (files, v) := AfterDiskGet(c.disk, s.files, key, now, o.removed, o.read);
      Current(c, Stack(s.mem, files), last, now) && (v.Some? ==> IsLast(last, key, v.value))
  {
    hide IsLast, Expired, Ok, SafeKey, Stale;
    var (files, v) := AfterDiskGet(c.disk, s.files, key, now, o.removed, o.read);
    assert v.Some? ==> LiveFile(c, s, key, now);
    forall k | LiveFile(c, Stack(s.mem, files), k, now)
      ensures LiveFile(c, s, k, now) && files[k] == s.files[k]
    {
    }
  }

  lemma LaterIsCurrent(c: Config, s: Stack, last: Values, now: int, later: int)
    requires Current(c, s, last, now) && now <= later
    ensures Current(c, s, last, later)
  {
    hide IsLast, SafeKey, Ok;
    forall k | LiveFile(c, s, k, later)
      ensures LiveFile(c, s, k, now)
    {
    }
  }

  lemma TieredGetIsCurrent(c: Config, s: Stack, last: Values, key: string, now: int, o: Outcome)
    requires Current(c, s, last, now)
    ensures Current(c, AfterTieredGet(c, s, key, now, o).0, last, now)
    ensures AfterTieredGet(c, s, key, now, o).1.Some? ==> IsLast(last, key, AfterTieredGet(c, s, key, now, o).1.value)
  {
    GetIsCurrent(c, s.mem, s.files, last, key, now);
    var (mem, v) := AfterGet(c.mem, s.mem, key, now);
    if v.None? {
      DiskGetIsCurrent(c, Stack(mem, s.files), last, key, now, o);
      var (files, w) := AfterDiskGet(c.disk, s.files, key, now, o.removed, o.read);
      if w.Some? {
        SetKeepsCurrent(c, mem, files, last, key, w.value, now);
        assert last[key := w.value] == last;
      }
    }
  }

  // A call keeps everything current exactly when it is harmless, and returns only last values.
  lemma CallKeepsCurrent(c: Config, s: Stack, last: Values, now: int, call: Call)
    requires Current(c, s, last, now) && now <= call.now
    ensures Harmless(c, s, call) <==> Current(c, Next(c, s, call), LastAfter(last, call), call.now)
    ensures Output(c, s, call).Some? ==> IsLast(last, call.key, Output(c, s, call).value)
  {
    LaterIsCurrent(c, s, last, now, call.now);
    match call
    case CallGet(_, key, o) => TieredGetIsCurrent(c, s, last, key, call.now, o);
    case CallSet(_, key, value, o) => SetIsCurrent(c, s, last, key, value, call.now, o);
    case CallPurge(_, canRemove) => PurgeIsCurrent(c, s, last, call.now, canRemove);
    case Forget(_, keys) => ForgetIsCurrent(c, s, last, call.now, keys);
    case Restart(_) =>
  }

  lemma SetIsCurrent(c: Config, s: Stack, last: Values, key: string, value: Bytes, now: int, o: Outcome)
    requires Current(c, s, last, now)
    ensures Harmless(c, s, CallSet(now, key, value, o)) <==>
            Current(c, AfterTieredSet(c, s, key, value, now, o), last[key := value], now)
  {
    SetKeepsCurrent(c, s.mem, s.files, last, key, value, now);
    hide Ok, Expired, SafeKey, Stale, AfterSet;
    var s' := AfterTieredSet(c, s, key, value, now, o);
    forall k | k != key
      ensures LiveFile(c, s', k, now) <==> LiveFile(c, s, k, now)
      ensures LiveFile(c, s', k, now) ==>
        && s'.files[k] == s.files[k]
        && (IsLast(last[key := value], k, s.files[k].value) <==> IsLast(last, k, s.files[k].value))
    {
    }
    assert LiveFile(c, s', key, now) && o.written ==> s'.files[key].value == value;
    assert !o.written ==> s'.files == s.files;
    assert LiveFile(c, s', key, now) ==>
        (IsLast(last[key := value], key, s'.files[key].value) <==> s'.files[key].value == value);
  }

  lemma PurgeIsCurrent(c: Config, s: Stack, last: Values, now: int, canRemove: string -> bool)
    requires Current(c, s, last, now)
    ensures Harmless(c, s, CallPurge(now, canRemove)) <==> Current(c, Next(c, s, CallPurge(now, canRemove)), map[], now)
  {
    hide Expired, SafeKey, Stale;
    var s' := Next(c, s, CallPurge(now, canRemove));
    forall k
      ensures LiveFile(c, s', k, now) <==> LiveFile(c, s, k, now) && !canRemove(k)
    {
    }
  }

  lemma ForgetIsCurrent(c: Config, s: Stack, last: Values, now: int, keys: set<string>)
    requires Current(c, s, last, now)
    ensures Current(c, Stack(s.mem, s.files - keys), last, now)
  {
    hide Ok, Expired, SafeKey, Stale, IsLast;
    var s' := Stack(s.mem, s.files - keys);
    forall k | LiveFile(c, s', k, now)
      ensures LiveFile(c, s, k, now) && s'.files[k] == s.files[k]
    {
    }
  }

  // Whatever is not current can be brought to light: by a lookup, or by one after a restart.
  lemma NotCurrentShows(c: Config, s: Stack, last: Values, now: int)
    requires Ok(c.mem, s.mem) && !Current(c, s, last, now)
    ensures exists s', key :: (s' == s || s' == Next(c, s, Restart(now))) && ShowsWrong(c, s', last, now, key)
  {
    if r :| r in s.mem.list && !Expired(c.mem, r, now) && !IsLast(last, r.key, r.value) {
      MemberIsFound(s.mem.list, r);
      assert ShowsWrong(c, s, last, now, r.key);
    } else {
      hide Expired, SafeKey, Stale, IsLast;
      var k :| LiveFile(c, s, k, now) && !IsLast(last, k, s.files[k].value);
      RestartShows(c, s, last, now, k);
    }
  }

  ghost predicate ShowsWrong(c: Config, s: Stack, last: Values, now: int, key: string) {
    var r := AfterTieredGet(c, s, key, now, Outcome(true, true, true)).1;
    r.Some? && !IsLast(last, key, r.value)
  }

  lemma RestartShows(c: Config, s: Stack, last: Values, now: int, k: string)
    requires LiveFile(c, s, k, now) && !IsLast(last, k, s.files[k].value)
    ensures ShowsWrong(c, Next(c, s, Restart(now)), last, now, k)
  {
    hide SafeKey, IsLast;
    assert AfterGet(c.mem, EMPTY, k, now).1.None?;
  }

  // The stack after a run that starts empty.
  ghost function RunCalls(c: Config, calls: seq<Call>): Stack {
    if calls == [] then Stack(EMPTY, map[]) else Next(c, RunCalls(c, calls[..|calls| - 1]), calls[|calls| - 1])
  }

  function LastOf(calls: seq<Call>): Values {
    if calls == [] then map[] else LastAfter(LastOf(calls[..|calls| - 1]), calls[|calls| - 1])
  }

  // Time does not run backwards, and every call is harmless.
  ghost predicate Orderly(c: Config, calls: seq<Call>) {
    calls == [] || (
      var before, call := calls[..|calls| - 1], calls[|calls| - 1];
      && Orderly(c, before) && Harmless(c, RunCalls(c, before), call)
      && (before != [] ==> before[|before| - 1].now <= call.now)
    )
  }

  lemma {:induction false} RunIsCurrent(c: Config, calls: seq<Call>, now: int)
    requires Orderly(c, calls) && (calls != [] ==> calls[|calls| - 1].now <= now)
    ensures Current(c, RunCalls(c, calls), LastOf(calls), now)
    decreases |calls|
  {
    if calls != [] {
      var before, call := calls[..|calls| - 1], calls[|calls| - 1];
      hide Current, Harmless, Next, LastAfter;
      RunIsCurrent(c, before, call.now);
      CallKeepsCurrent(c, RunCalls(c, before), LastOf(before), call.now, call);
      LaterIsCurrent(c, RunCalls(c, calls), LastOf(calls), call.now, now);
    } else {
      assert RunCalls(c, calls).mem.list == [];
    }
  }

  // In a sequential run a lookup returns the last value set since the last purge, if any value.
  lemma SequentialGetIsLast(c: Config, calls: seq<Call>, key: string, now: int, o: Outcome)
    requires Orderly(c, calls) && (calls != [] ==> calls[|calls| - 1].now <= now)
    ensures
      var r := AfterTieredGet(c, RunCalls(c, calls), key, now, o).1;
      r.Some? ==> IsLast(LastOf(calls), key, r.value)
  {
    RunIsCurrent(c, calls, now);
    TieredGetIsCurrent(c, RunCalls(c, calls), LastOf(calls), key, now, o);
  }

  lemma SafeA()
    ensures SafeKey("a")
  {
    assert "" + ['a'] == "a" && "a"[1..] == "";
    assert Segments("a", "") == Segments("", "a") == ["a"];
    assert NameChar("a"[0]);
  }

  // A file is written, the write of its successor fails, and the server restarts.
  function FailedWriteRun(older: Bytes, newer: Bytes): seq<Call> {
    var fine, failed := Outcome(true, true, true), Outcome(false, true, true);
    [CallSet(0, "a", older, fine), CallSet(0, "a", newer, failed), Restart(0)]
  }

  // A failed write brings an older value back.
  lemma FailedWriteExample(c: Config, older: Bytes, newer: Bytes)
    requires older != newer
    ensures
      var run := FailedWriteRun(older, newer);
      && LastOf(run) == map["a" := newer]
      && AfterTieredGet(c, RunCalls(c, run), "a", 0, Outcome(true, true, true)).1 == Some(older)
  {
    hide SafeKey;
    SafeA();
    var run := FailedWriteRun(older, newer);
    assert run[..2][..1] == run[..1] && run[..1][..0] == [] && run[..2][1] == run[1] && run[..1][0] == run[0];
    assert RunCalls(c, run[..1]).files == map["a" := File(older, 0)];
    assert RunCalls(c, run) == Stack(EMPTY, map["a" := File(older, 0)]);
    assert LastOf(run[..1]) == map["a" := older];
  }

  // ----- interleaved runs

  // A lookup that has found its file fresh and has yet to read it.
  datatype Look = Look(key: string, at: int)

  // A lookup that has read its file and has yet to store the value in memory; at is when it
  // looked at the age of the file.
  datatype Promotion = Promotion(key: string, value: Bytes, at: int)

  // A set that wrote a tier at some time.
  datatype Write = Write(key: string, value: Bytes, time: int)

  // Both tiers, the clock, the lookups under way, and the log of what sets wrote when.
  datatype Sys = Sys(now: int, mem: State, files: Files, looks: seq<Look>, pending: seq<Promotion>, log: set<Write>)

  // The steps of all calls under way, in any order: a set writes one tier at a time, a lookup
  // looks in memory, looks at the age of the file, reads the file, and stores what it read before
  // it returns.
  datatype Step =
    | Tick(time: nat)
    | SetMem(key: string, value: Bytes)
    | SetDisk(key: string, value: Bytes, written: bool)
    | GetMem(key: string)
    | StatDisk(key: string, removed: bool)
    | ReadDisk(i: nat, read: bool)
    | Promote(i: nat)
    | PurgeMem
    | Remove(keys: set<string>)
    | Crash

  // A lookup returns what it read no more than `delay` after it looked at the file.
  predicate Enabled(delay: int, y: Sys, step: Step) {
    step.Promote? ==> step.i < |y.pending| && y.now - y.pending[step.i].at <= delay
  }

  function Dropped<T>(s: seq<T>, i: nat): seq<T>
    requires i < |s|
  {
    s[..i] + s[i + 1..]
  }

  ghost function StepOf(c: Config, y: Sys, step: Step): Sys {
    match step
    case Tick(time) => y.(now := y.now + time)
    case SetMem(key, value) =>
      y.(mem := AfterSet(c.mem, y.mem, key, value, y.now), log := y.log + {Write(key, value, y.now)})
    case SetDisk(key, value, written) =>
      y.(files := AfterDiskSet(y.files, key, value, y.now, written), log := y.log + {Write(key, value, y.now)})
    case GetMem(key) => y.(mem := AfterGet(c.mem, y.mem, key, y.now).0)
    case StatDisk(key, removed) =>
      if !SafeKey(key) || key !in y.files then y
      else if Stale(c.disk, y.files[key], y.now) then y.(files := if removed then y.files - {key} else y.files)
      else y.(looks := y.looks + [Look(key, y.now)])
    case ReadDisk(i, read) =>
      if i >= |y.looks| then y else
      var l := y.looks[i];
      y.(looks := Dropped(y.looks, i),
         pending := if read && l.key in y.files then y.pending + [Promotion(l.key, y.files[l.key].value, l.at)]
                    else y.pending)
    case Promote(i) =>
      if i >= |y.pending| then y else
      var p := y.pending[i];
      y.(mem := AfterSet(c.mem, y.mem, p.key, p.value, y.now), pending := Dropped(y.pending, i))
    case PurgeMem => y.(mem := AfterPurge(y.mem))
    case Remove(keys) => y.(files := y.files - keys)
    case Crash => y.(mem := EMPTY, looks := [], pending := [])
  }

  datatype Hit = Hit(key: string, value: Bytes)

  // What the step returns to a caller of Get.
  function Returned(c: Config, y: Sys, step: Step): Option<Hit> {
    match step
    case GetMem(key) =>
      var v := AfterGet(c.mem, y.mem, key, y.now).1;
      if v.Some? then Some(Hit(key, v.value)) else None
    case Promote(i) => if i < |y.pending| then Some(Hit(y.pending[i].key, y.pending[i].value)) else None
    case _ => None
  }

  // With nothing in between, the look and the read are the lookup on disk.
  lemma DiskGetInTwoSteps(c: Config, y: Sys, key: string, removed: bool, read: bool)
    ensures
      var looked := StepOf(c, y, StatDisk(key, removed));
      var done := if looked.looks == y.looks then looked else StepOf(c, looked, ReadDisk(|y.looks|, read));
      var (files, v) := AfterDiskGet(c.disk, y.files, key, y.now, removed, read);
      && done.files == files && done.looks == y.looks
      && done.pending == y.pending + (if v.Some? then [Promotion(key, v.value, y.now)] else [])
  {
    hide SafeKey;
  }

  // The value is in memory, in a file, or read by a lookup that is under way.
  ghost predicate Holds(y: Sys, key: string, value: Bytes) {
    || (exists r :: r in y.mem.list && r.key == key && r.value == value)
    || (key in y.files && y.files[key].value == value)
    || (exists i :: 0 <= i < |y.pending| && y.pending[i].key == key && y.pending[i].value == value)
  }

  // What a lookup returns was held, and only a set adds to what is held: values that have gone from
  // both tiers and from all lookups never come back.
  lemma OnlySetsAdd(c: Config, y: Sys, step: Step, key: string, value: Bytes)
    requires Ok(c.mem, y.mem)
    ensures Returned(c, y, step) == Some(Hit(key, value)) ==> Holds(y, key, value)
    ensures Holds(StepOf(c, y, step), key, value) ==>
              Holds(y, key, value) || ((step.SetMem? || step.SetDisk?) && step.key == key && step.value == value)
  {
    match step
    case GetMem(k) => GetHolds(c, y, k, key, value);
    case SetMem(k, v) => StoreHolds(c, y.mem, k, v, y.now);
    case Promote(i) =>
      if i < |y.pending| {
        StoreHolds(c, y.mem, y.pending[i].key, y.pending[i].value, y.now);
        var p := Dropped(y.pending, i);
        assert forall j :: 0 <= j < |p| ==> p[j] == y.pending[if j < i then j else j + 1];
      }
    case _ => hide SafeKey, Stale;
  }

  lemma StoreHolds(c: Config, mem: State, k: string, v: Bytes, now: int)
    requires Ok(c.mem, mem)
    ensures forall r :: r in AfterSet(c.mem, mem, k, v, now).list ==> r in mem.list || (r.key == k && r.value == v)
  {
    forall r | r in AfterSet(c.mem, mem, k, v, now).list
      ensures r in mem.list || (r.key == k && r.value == v)
    {
      SetMember(c.mem, mem, k, v, now, r);
    }
  }

  lemma GetHolds(c: Config, y: Sys, k: string, key: string, value: Bytes)
    ensures Returned(c, y, GetMem(k)) == Some(Hit(key, value)) ==> Holds(y, key, value)
    ensures Holds(StepOf(c, y, GetMem(k)), key, value) ==> Holds(y, key, value)
  {
    LookupMember(y.mem.list, k);
    forall r | r in AfterGet(c.mem, y.mem, k, y.now).0.list
      ensures r in y.mem.list
    {
      GetMember(c.mem, y.mem, k, y.now, r);
    }
  }

  const START := Sys(0, EMPTY, map[], [], [], {})

  ghost function After(c: Config, steps: seq<Step>): Sys {
    if steps == [] then START else StepOf(c, After(c, steps[..|steps| - 1]), steps[|steps| - 1])
  }

  // A run in which no promotion takes longer than `delay`.
  ghost predicate Prompt(c: Config, delay: int, steps: seq<Step>) {
    steps == [] || (
      var before := steps[..|steps| - 1];
      Prompt(c, delay, before) && Enabled(delay, After(c, before), steps[|steps| - 1])
    )
  }

  // A set wrote this value no longer than `age` before `time`.
  ghost predicate WrittenWithin(y: Sys, key: string, value: Bytes, time: int, age: int) {
    exists w :: w in y.log && w.key == key && w.value == value && time - w.time <= age
  }

  // A file that was found fresh can only have been replaced by a newer one.
  ghost predicate LookIsFresh(c: Config, y: Sys, l: Look) {
    l.at <= y.now && (l.key in y.files ==> l.at - y.files[l.key].mtime <= c.disk.ttl)
  }

  ghost predicate PendingIsYoung(c: Config, y: Sys, p: Promotion) {
    WrittenWithin(y, p.key, p.value, p.at, c.disk.ttl)
  }

  ghost predicate Aged(c: Config, delay: int, y: Sys) {
    && Ok(c.mem, y.mem)
    && (forall k :: k in y.files ==> Write(k, y.files[k].value, y.files[k].mtime) in y.log)
    && (forall i :: 0 <= i < |y.looks| ==> LookIsFresh(c, y, y.looks[i]))
    && (forall i :: 0 <= i < |y.pending| ==> PendingIsYoung(c, y, y.pending[i]))
    && (forall r :: r in y.mem.list ==> WrittenWithin(y, r.key, r.value, r.expires, c.disk.ttl + delay + c.mem.ttl))
  }

  lemma OlderIsFine(y: Sys, y': Sys, key: string, value: Bytes, time: int, age: int, time': int, age': int)
    requires WrittenWithin(y, key, value, time, age) && y.log <= y'.log && time' - age' <= time - age
    ensures WrittenWithin(y', key, value, time', age')
  {
    var w :| w in y.log && w.key == key && w.value == value && time - w.time <= age;
    assert w in y'.log;
  }

  // Memory after a store: old entries, and the new one if it is young enough.
  lemma StoreKeepsAge(c: Config, delay: int, y: Sys, y': Sys, key: string, value: Bytes)
    requires Aged(c, delay, y) && y.log <= y'.log && y'.mem == AfterSet(c.mem, y.mem, key, value, y.now)
    requires WrittenWithin(y', key, value, y.now + c.mem.ttl, c.disk.ttl + delay + c.mem.ttl)
    ensures Ok(c.mem, y'.mem)
    ensures forall r :: r in y'.mem.list ==>
      WrittenWithin(y', r.key, r.value, r.expires, c.disk.ttl + delay + c.mem.ttl)
  {
    ApplyKeepsOk(c.mem, y.mem, DoSet(key, value, y.now));
    hide AfterSet, Ok, WrittenWithin;
    var age := c.disk.ttl + delay + c.mem.ttl;
    forall r | r in y'.mem.list
      ensures WrittenWithin(y', r.key, r.value, r.expires, age)
    {
      SetMember(c.mem, y.mem, key, value, y.now, r);
      if r in y.mem.list {
        OlderIsFine(y, y', r.key, r.value, r.expires, age, r.expires, age);
      }
    }
  }

  lemma PendingKept(c: Config, y: Sys, y': Sys)
    requires y.log <= y'.log && forall i :: 0 <= i < |y.pending| ==> PendingIsYoung(c, y, y.pending[i])
    ensures forall i :: 0 <= i < |y.pending| ==> PendingIsYoung(c, y', y.pending[i])
  {
    forall i | 0 <= i < |y.pending|
      ensures PendingIsYoung(c, y', y.pending[i])
    {
      var p := y.pending[i];
      OlderIsFine(y, y', p.key, p.value, p.at, c.disk.ttl, p.at, c.disk.ttl);
    }
  }

  lemma StepKeepsAge(c: Config, delay: int, y: Sys, step: Step)
    requires Aged(c, delay, y) && Enabled(delay, y, step) && c.mem.ttl > 0 && c.disk.ttl > 0 && delay >= 0
    ensures Aged(c, delay, StepOf(c, y, step))
    ensures
      var r := Returned(c, y, step);
      r.Some? ==> WrittenWithin(y, r.value.key, r.value.value, y.now, c.disk.ttl + delay + c.mem.ttl)
  {
    match step
    case SetMem(key, value) => SetMemKeepsAge(c, delay, y, key, value);
    case SetDisk(key, value, written) => SetDiskKeepsAge(c, delay, y, key, value, written);
    case GetMem(key) => MemGetKeepsAge(c, delay, y, key);
    case StatDisk(key, removed) => StatKeepsAge(c, delay, y, key, removed);
    case ReadDisk(i, read) => ReadKeepsAge(c, delay, y, i, read);
    case Promote(i) => PromoteKeepsAge(c, delay, y, i);
    case _ =>
      hide WrittenWithin;
      SameLog(c, delay, y, StepOf(c, y, step));
  }

  lemma SetMemKeepsAge(c: Config, delay: int, y: Sys, key: string, value: Bytes)
    requires Aged(c, delay, y) && c.disk.ttl > 0 && delay >= 0
    ensures Aged(c, delay, StepOf(c, y, SetMem(key, value)))
  {
    hide WrittenWithin;
    var y' := StepOf(c, y, SetMem(key, value));
    LogHolds(y', Write(key, value, y.now), y.now + c.mem.ttl, c.disk.ttl + delay + c.mem.ttl);
    StoreKeepsAge(c, delay, y, y', key, value);
    PendingKept(c, y, y');
  }

  lemma SetDiskKeepsAge(c: Config, delay: int, y: Sys, key: string, value: Bytes, written: bool)
    requires Aged(c, delay, y) && c.disk.ttl > 0
    ensures Aged(c, delay, StepOf(c, y, SetDisk(key, value, written)))
  {
    hide WrittenWithin, SafeKey, Ok;
    var y' := StepOf(c, y, SetDisk(key, value, written));
    PendingKept(c, y, y');
    SameMemory(c, delay, y, y');
    forall i | 0 <= i < |y.looks|
      ensures LookIsFresh(c, y', y.looks[i])
    {
      assert LookIsFresh(c, y, y.looks[i]);
    }
  }

  lemma StatKeepsAge(c: Config, delay: int, y: Sys, key: string, removed: bool)
    requires Aged(c, delay, y) && c.disk.ttl > 0
    ensures Aged(c, delay, StepOf(c, y, StatDisk(key, removed)))
  {
    hide WrittenWithin, SafeKey, Ok;
    var y' := StepOf(c, y, StatDisk(key, removed));
    PendingKept(c, y, y');
    SameMemory(c, delay, y, y');
    forall i | 0 <= i < |y.looks|
      ensures LookIsFresh(c, y', y.looks[i])
    {
      assert LookIsFresh(c, y, y.looks[i]);
    }
  }

  lemma PromoteKeepsAge(c: Config, delay: int, y: Sys, i: nat)
    requires Aged(c, delay, y) && Enabled(delay, y, Promote(i)) && c.mem.ttl > 0
    ensures Aged(c, delay, StepOf(c, y, Promote(i)))
    ensures WrittenWithin(y, y.pending[i].key, y.pending[i].value, y.now, c.disk.ttl + delay + c.mem.ttl)
  {
    hide WrittenWithin;
    var y', p := StepOf(c, y, Promote(i)), y.pending[i];
    var age := c.disk.ttl + delay + c.mem.ttl;
    assert PendingIsYoung(c, y, p);
    OlderIsFine(y, y', p.key, p.value, p.at, c.disk.ttl, y.now + c.mem.ttl, age);
    OlderIsFine(y, y, p.key, p.value, p.at, c.disk.ttl, y.now, age);
    StoreKeepsAge(c, delay, y, y', p.key, p.value);
    PendingKept(c, y, y');
  }

  lemma LogHolds(y: Sys, w: Write, time: int, age: int)
    requires w in y.log && time - w.time <= age
    ensures WrittenWithin(y, w.key, w.value, time, age)
  {
  }

  lemma SameMemory(c: Config, delay: int, y: Sys, y': Sys)
    requires Aged(c, delay, y) && y.mem == y'.mem && y.log <= y'.log
    ensures forall r :: r in y'.mem.list ==>
      WrittenWithin(y', r.key, r.value, r.expires, c.disk.ttl + delay + c.mem.ttl)
  {
    hide WrittenWithin;
    var age := c.disk.ttl + delay + c.mem.ttl;
    forall r | r in y'.mem.list
      ensures WrittenWithin(y', r.key, r.value, r.expires, age)
    {
      OlderIsFine(y, y', r.key, r.value, r.expires, age, r.expires, age);
    }
  }

  // Steps that only take things away, or let time pass.
  lemma SameLog(c: Config, delay: int, y: Sys, y': Sys)
    requires Aged(c, delay, y) && y'.log == y.log && Ok(c.mem, y'.mem)
    requires forall r :: r in y'.mem.list ==> r in y.mem.list
    requires y.now <= y'.now && (y'.pending == y.pending || y'.pending == []) && (y'.looks == y.looks || y'.looks == [])
    requires forall k :: k in y'.files ==> k in y.files && y'.files[k] == y.files[k]
    ensures Aged(c, delay, y')
  {
    hide WrittenWithin, Ok;
    var age := c.disk.ttl + delay + c.mem.ttl;
    PendingKept(c, y, y');
    forall r | r in y'.mem.list
      ensures WrittenWithin(y', r.key, r.value, r.expires, age)
    {
      OlderIsFine(y, y', r.key, r.value, r.expires, age, r.expires, age);
    }
  }

  lemma MemGetKeepsAge(c: Config, delay: int, y: Sys, key: string)
    requires Aged(c, delay, y) && c.mem.ttl > 0
    ensures Aged(c, delay, StepOf(c, y, GetMem(key)))
    ensures Returned(c, y, GetMem(key)).Some? ==>
              WrittenWithin(y, key, Returned(c, y, GetMem(key)).value.value, y.now, c.disk.ttl + delay + c.mem.ttl)
  {
    ApplyKeepsOk(c.mem, y.mem, DoGet(key, y.now));
    var y' := StepOf(c, y, GetMem(key));
    var age := c.disk.ttl + delay + c.mem.ttl;
    forall r | r in y'.mem.list
      ensures r in y.mem.list
    {
      GetMember(c.mem, y.mem, key, y.now, r);
    }
    hide WrittenWithin, Ok;
    SameLog(c, delay, y, y');
    LookupMember(y.mem.list, key);
    if Returned(c, y, GetMem(key)).Some? {
      var r := Lookup(y.mem.list, key).value;
      OlderIsFine(y, y, key, r.value, r.expires, age, y.now, age);
    }
  }

  lemma ReadKeepsAge(c: Config, delay: int, y: Sys, i: nat, read: bool)
    requires Aged(c, delay, y)
    ensures Aged(c, delay, StepOf(c, y, ReadDisk(i, read)))
  {
    hide Ok, WrittenWithin;
    var y' := StepOf(c, y, ReadDisk(i, read));
    PendingKept(c, y, y');
    SameMemory(c, delay, y, y');
    if i < |y.looks| && y.looks[i].key in y.files {
      var l := y.looks[i];
      assert LookIsFresh(c, y, l);
      LogHolds(y', Write(l.key, y.files[l.key].value, y.files[l.key].mtime), l.at, c.disk.ttl);
    }
  }

  lemma {:induction false} RunKeepsAge(c: Config, delay: int, steps: seq<Step>)
    requires Prompt(c, delay, steps) && c.mem.ttl > 0 && c.disk.ttl > 0 && delay >= 0
    ensures Aged(c, delay, After(c, steps))
    decreases |steps|
  {
    hide Aged, StepOf, Enabled;
    if steps == [] {
      StartIsAged(c, delay);
    } else {
      var before := steps[..|steps| - 1];
      RunKeepsAge(c, delay, before);
      StepKeepsAge(c, delay, After(c, before), steps[|steps| - 1]);
    }
  }

  lemma StartIsAged(c: Config, delay: int)
    ensures Aged(c, delay, START)
  {
  }

  // What the last step of the run returns was written by a set no longer ago than `age`.
  ghost predicate YoungEnough(c: Config, steps: seq<Step>, age: int) {
    steps != [] ==>
      var y, step := After(c, steps[..|steps| - 1]), steps[|steps| - 1];
      var r := Returned(c, y, step);
      r.Some? ==> WrittenWithin(y, r.value.key, r.value.value, y.now, age)
  }

  // In every interleaving, across restarts, what a lookup returns was written by a set at most
  // both times to live and the longest promotion ago.
  lemma AgeBound(c: Config, delay: int, steps: seq<Step>)
    requires Prompt(c, delay, steps) && c.mem.ttl > 0 && c.disk.ttl > 0 && delay >= 0
    ensures YoungEnough(c, steps, c.disk.ttl + c.mem.ttl + delay)
  {
    if steps != [] {
      var before := steps[..|steps| - 1];
      RunKeepsAge(c, delay, before);
      StepKeepsAge(c, delay, After(c, before), steps[|steps| - 1]);
    }
  }

  // A run that reaches the bound: a lookup looks at the file as it expires, stalls before it stores
  // the value, and the value is looked up as it expires in memory.
  function SlowRun(c: Config, delay: nat): seq<Step>
    requires c.mem.ttl > 0 && c.disk.ttl > 0
  {
    [SetDisk("a", [], true), Tick(c.disk.ttl), StatDisk("a", true), Tick(delay), ReadDisk(0, true), Promote(0),
     Tick(c.mem.ttl), GetMem("a")]
  }

  lemma AfterNext(c: Config, delay: int, steps: seq<Step>, k: nat)
    requires k < |steps|
    ensures After(c, steps[..k + 1]) == StepOf(c, After(c, steps[..k]), steps[k])
    ensures Prompt(c, delay, steps[..k + 1]) <==>
            Prompt(c, delay, steps[..k]) && Enabled(delay, After(c, steps[..k]), steps[k])
  {
    assert steps[..k + 1][..k] == steps[..k];
  }

  lemma SlowRunReads(c: Config, delay: nat)
    requires c.mem.ttl > 0 && c.disk.ttl > 0
    ensures Prompt(c, delay, SlowRun(c, delay)[..5])
    ensures After(c, SlowRun(c, delay)[..5]) ==
            Sys(c.disk.ttl + delay, EMPTY, map["a" := File([], 0)],
                [], [Promotion("a", [], c.disk.ttl)], {Write("a", [], 0)})
  {
    hide SafeKey, After, Prompt;
    SafeA();
    var run := SlowRun(c, delay);
    StartOfRun(c, delay, run);
    AfterNext(c, delay, run, 0);
    AfterNext(c, delay, run, 1);
    AfterNext(c, delay, run, 2);
    AfterNext(c, delay, run, 3);
    AfterNext(c, delay, run, 4);
  }

  lemma StartOfRun(c: Config, delay: int, steps: seq<Step>)
    ensures After(c, steps[..0]) == START && Prompt(c, delay, steps[..0])
  {
  }

  lemma SlowRunStates(c: Config, delay: nat)
    requires c.mem.ttl > 0 && c.disk.ttl > 0 && c.mem.max > 0
    ensures
      var y := After(c, SlowRun(c, delay)[..7]);
      && Prompt(c, delay, SlowRun(c, delay)[..7])
      && y.now == c.disk.ttl + delay + c.mem.ttl && y.log == {Write("a", [], 0)}
      && y.mem.list == [Rec("a", [], c.disk.ttl + delay + c.mem.ttl)]
  {
    hide After, Prompt;
    SlowRunReads(c, delay);
    var run := SlowRun(c, delay);
    AfterNext(c, delay, run, 5);
    AfterNext(c, delay, run, 6);
  }

  lemma SlowRunIsOld(c: Config, delay: nat)
    requires c.mem.ttl > 0 && c.disk.ttl > 0 && c.mem.max > 0
    ensures Prompt(c, delay, SlowRun(c, delay))
    ensures forall age :: YoungEnough(c, SlowRun(c, delay), age) ==> age >= c.disk.ttl + c.mem.ttl + delay
  {
    SlowRunStates(c, delay);
    var run := SlowRun(c, delay);
    AfterNext(c, delay, run, 7);
    assert run[..8] == run && run[..|run| - 1] == run[..7];
  }

  ghost predicate AlwaysYoung(c: Config, delay: int, age: int) {
    forall steps :: Prompt(c, delay, steps) ==> YoungEnough(c, steps, age)
  }

  // So both times to live together bound the age by `slack` in every run whose promotions take at
  // most `delay` exactly when the slack is no less than that delay; with none at all, exactly when
  // promotions are immediate.
  lemma AgeBoundIff(c: Config, delay: nat, slack: int)
    requires c.mem.ttl > 0 && c.disk.ttl > 0 && c.mem.max > 0
    ensures AlwaysYoung(c, delay, c.disk.ttl + c.mem.ttl + slack) <==> delay <= slack
  {
    hide Prompt, YoungEnough, SlowRun;
    SlowRunIsOld(c, delay);
    if delay <= slack {
      forall steps | Prompt(c, delay, steps)
        ensures YoungEnough(c, steps, c.disk.ttl + c.mem.ttl + slack)
      {
        AgeBound(c, delay, steps);
        YoungStays(c, steps, c.disk.ttl + c.mem.ttl + delay, c.disk.ttl + c.mem.ttl + slack);
      }
    } else {
      var run, age := SlowRun(c, delay), c.disk.ttl + c.mem.ttl + slack;
      assert Prompt(c, delay, run) && !YoungEnough(c, run, age);
    }
  }

  lemma YoungStays(c: Config, steps: seq<Step>, age: int, age': int)
    requires YoungEnough(c, steps, age) && age <= age'
    ensures YoungEnough(c, steps, age')
  {
    hide After;
    if steps != [] {
      var y, step := After(c, steps[..|steps| - 1]), steps[|steps| - 1];
      var r := Returned(c, y, step);
      if r.Some? {
        OlderIsFine(y, y, r.value.key, r.value.value, y.now, age, y.now, age');
      }
    }
  }
}
