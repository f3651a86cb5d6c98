/** The disk tier of internal/cache/disk.go as a map from keys to values and write times. The
    outcomes of file operations are parameters. */
module DiskTier {
  import opened Names
  import opened Options
  import opened Lru

  datatype File = File(value: Bytes, mtime: int)

  type Files = map<string, File>

  // A time to live or a size bound of zero or less is none.
  datatype DiskLimits = DiskLimits(ttl: int, maxBytes: int)

  // ----- keys

  predicate SafeSegment(s: string) {
    s != "" && s != "." && s != ".." && forall i :: 0 <= i < |s| ==> NameChar(s[i])
  }

  function Segments(key: string, current: string): seq<string> {
    if key == "" then [current]
    else if key[0] == '/' then [current] + Segments(key[1..], "")
    else Segments(key[1..], current + [key[0]])
  }

  // Keys whose every segment is safe are mapped to a file below the directory; others are not stored.
  predicate SafeKey(key: string) {
    forall i :: 0 <= i < |Segments(key, "")| ==> SafeSegment(Segments(key, "")[i])
  }

  lemma {:induction false} SegmentsOf(current: string, rest: string, more: string)
    requires '/' !in rest
    ensures Segments(rest, current) == [current + rest]
    ensures Segments(rest + "/" + more, current) == [current + rest] + Segments(more, "")
    decreases |rest|
  {
    if rest == "" {
      assert current + rest == current;
      assert (rest + "/" + more)[0] == '/' && (rest + "/" + more)[1..] == more;
    } else {
      SegmentsOf(current + [rest[0]], rest[1..], more);
      assert current + [rest[0]] + rest[1..] == current + rest;
      assert (rest + "/" + more)[1..] == rest[1..] + "/" + more;
    }
  }

  // A slash splits a key: it is safe exactly when what stands before it is a safe segment and what
  // stands behind it is safe.
  lemma SafeKeyIff(first: string, more: string)
    requires '/' !in first
    ensures SafeKey(first) <==> SafeSegment(first)
    ensures SafeKey(first + "/" + more) <==> SafeSegment(first) && SafeKey(more)
  {
    hide SafeSegment;
    SegmentsOf("", first, more);
    assert "" + first == first;
    hide Segments;
    var parts, rest := Segments(first + "/" + more, ""), Segments(more, "");
    assert parts[0] == first && forall i :: 0 <= i < |rest| ==> parts[i + 1] == rest[i];
  }

  // No key leads out of the directory.
  lemma UnsafeKeys(more: string)
    ensures !SafeKey("") && !SafeKey("/" + more) && !SafeKey("../" + more) && !SafeKey("./" + more)
  {
    SafeKeyIff("", more);
    SafeKeyIff("..", more);
    SafeKeyIff(".", more);
    assert "" + "/" + more == "/" + more && ".." + "/" + more == "../" + more && "." + "/" + more == "./" + more;
  }

  // ----- the operations

  predicate Stale(l: DiskLimits, f: File, now: int) {
    l.ttl > 0 && now - f.mtime > l.ttl
  }

  // removed and read say whether the file operations succeed.
  function AfterDiskGet(l: DiskLimits, files: Files, key: string, now: int, removed: bool,
                        read: bool): (Files, Option<Bytes>) {
    if !SafeKey(key) || key !in files then (files, None)
    else if Stale(l, files[key], now) then (if removed then files - {key} else files, None)
    else if read then (files, Some(files[key].value))
    else (files, None)
  }

  function AfterDiskSet(files: Files, key: string, value: Bytes, now: int, written: bool): Files {
    if SafeKey(key) && written then files[key := File(value, now)] else files
  }

  // A value that has been written is read until its time to live has passed; under an unsafe key
  // nothing is written.
  lemma WrittenThenRead(l: DiskLimits, files: Files, key: string, value: Bytes, now: int, later: int, removed: bool)
    ensures AfterDiskGet(l, AfterDiskSet(files, key, value, now, true), key, later, removed, true).1 ==
            if SafeKey(key) && (l.ttl <= 0 || later - now <= l.ttl) then Some(value) else None
    ensures !SafeKey(key) ==> AfterDiskSet(files, key, value, now, true) == files
  {
  }

  // A lookup that finds a file too old removes it, if it can be removed, and no lookup touches another.
  lemma GetRemovesStale(l: DiskLimits, files: Files, key: string, now: int, removed: bool, read: bool)
    ensures
      var (after, v) := AfterDiskGet(l, files, key, now, removed, read);
      && (forall k :: k != key ==> (k in after <==> k in files) && (k in after ==> after[k] == files[k]))
      && (SafeKey(key) && key in files && l.ttl > 0 && now - files[key].mtime > l.ttl && removed ==> key !in after)
      && (v.Some? ==> key in after && after[key] == files[key] && v.value == files[key].value)
  {
    hide SafeKey;
  }

  // ----- sizes

  ghost function SizeOf(files: Files, keys: set<string>): nat
    requires keys <= files.Keys
  {
    if keys == {} then 0
    else
      var k :| k in keys;
      |files[k].value| + SizeOf(files, keys - {k})
  }

  lemma {:induction false} SizeWithout(files: Files, keys: set<string>, k: string)
    requires keys <= files.Keys && k in keys
    ensures SizeOf(files, keys) == |files[k].value| + SizeOf(files, keys - {k})
    decreases keys
  {
    var j :| j in keys && SizeOf(files, keys) == |files[j].value| + SizeOf(files, keys - {j});
    if j != k {
      SizeWithout(files, keys - {j}, k);
      SizeWithout(files, keys - {k}, j);
      assert keys - {j} - {k} == keys - {k} - {j};
    }
  }

  // ----- oldest first

  datatype DiskEntry = DiskEntry(path: string, size: nat, mtime: int)

  predicate OldestFirst(s: seq<DiskEntry>) {
    forall i, j :: 0 <= i < j < |s| ==> s[i].mtime <= s[j].mtime
  }

  predicate NoPathTwice(s: seq<DiskEntry>) {
    forall i, j :: 0 <= i < j < |s| ==> s[i].path != s[j].path
  }

  lemma InsertAt(s: seq<DiskEntry>, p: nat, e: DiskEntry)
    requires OldestFirst(s) && NoPathTwice(s) && p <= |s| && forall i :: 0 <= i < |s| ==> s[i].path != e.path
    requires forall i :: 0 <= i < p ==> s[i].mtime <= e.mtime
    requires p < |s| ==> e.mtime <= s[p].mtime
    ensures
      var r := s[..p] + [e] + s[p..];
      OldestFirst(r) && NoPathTwice(r) && forall x :: x in r <==> x == e || x in s
  {
    var r := s[..p] + [e] + s[p..];
    assert forall k :: 0 <= k < |r| ==> r[k] == if k < p then s[k] else if k == p then e else s[k - 1];
    forall i, j | 0 <= i < j < |r|
      ensures r[i].mtime <= r[j].mtime && r[i].path != r[j].path
    {
      if p < |s| && i <= p {
        assert i < p ==> s[i].mtime <= e.mtime;
      }
    }
    assert s == s[..p] + s[p..];
  }

  // sort.Slice by modification time. Its order among equal times is not specified.
  method SortByTime(s: seq<DiskEntry>) returns (r: seq<DiskEntry>)
    requires NoPathTwice(s)
    ensures OldestFirst(r) && NoPathTwice(r) && forall e :: e in r <==> e in s
  {
    r := [];
    for i := 0 to |s|
      invariant OldestFirst(r) && NoPathTwice(r) && forall e :: e in r <==> e in s[..i]
    {
      assert s[..i + 1] == s[..i] + [s[i]];
      var p := 0;
      while p < |r| && r[p].mtime < s[i].mtime
        invariant 0 <= p <= |r| && forall j :: 0 <= j < p ==> r[j].mtime <= s[i].mtime
      {
        p := p + 1;
      }
      PathIsNew(s, i, r);
      InsertAt(r, p, s[i]);
      r := r[..p] + [s[i]] + r[p..];
    }
    assert s[..|s|] == s;
  }

  lemma PathIsNew(s: seq<DiskEntry>, i: nat, r: seq<DiskEntry>)
    requires NoPathTwice(s) && i < |s| && forall e :: e in r ==> e in s[..i]
    ensures forall j :: 0 <= j < |r| ==> r[j].path != s[i].path
  {
    forall j | 0 <= j < |r|
      ensures r[j].path != s[i].path
    {
      assert r[j] in r;
      var k :| 0 <= k < i && s[..i][k] == r[j];
    }
  }

  // ----- what a sweep leaves

  ghost function LiveKeys(l: DiskLimits, files: Files, now: int): set<string> {
    set k | k in files && !Stale(l, files[k], now)
  }

  // 90 per cent of the bound, as whole bytes.
  function Target(l: DiskLimits): (t: int)
    requires l.maxBytes > 0
    ensures 10 * t <= 9 * l.maxBytes < 10 * (t + 1)
  {
    l.maxBytes * 9 / 10
  }

  // Oldest first: no deleted file is newer than one that could have been deleted and was not.
  ghost predicate OldestGo(before: Files, live: set<string>, kept: set<string>, canRemove: string -> bool)
    requires live <= before.Keys
  {
    forall d, k :: d in live && d !in kept && k in live && k in kept && canRemove(k) ==>
      before[d].mtime <= before[k].mtime
  }

  // No more go than needed: without the last deletion the target would not be met.
  ghost predicate NoMoreThanNeeded(l: DiskLimits, before: Files, live: set<string>, kept: set<string>)
    requires l.maxBytes > 0 && kept <= live <= before.Keys
  {
    kept != live ==> exists d :: d in live && d !in kept && SizeOf(before, kept + {d}) > Target(l)
  }

  // Which of the live files are kept.
  ghost predicate Trimmed(l: DiskLimits, before: Files, live: set<string>, kept: set<string>, canRemove: string -> bool)
    requires kept <= live <= before.Keys
  {
    if l.maxBytes <= 0 || SizeOf(before, live) <= l.maxBytes then kept == live
    else
      && (forall d :: d in live && d !in kept ==> canRemove(d))
      && (SizeOf(before, kept) <= Target(l) || forall k :: k in kept ==> !canRemove(k))
      && OldestGo(before, live, kept, canRemove)
      && NoMoreThanNeeded(l, before, live, kept)
  }

  // Expired files go, as far as they can be removed; of the others the oldest go while the size
  // is above the target.
  ghost predicate Swept(l: DiskLimits, before: Files, after: Files, now: int, canRemove: string -> bool) {
    var live := LiveKeys(l, before, now);
    && after.Keys <= before.Keys && (forall k :: k in after ==> after[k] == before[k])
    && (forall k :: k in before && k !in live ==> (k in after <==> !canRemove(k)))
    && Trimmed(l, before, live, live * after.Keys, canRemove)
  }

  class Disk {
    const limits: DiskLimits
    var files: Files
    var hits: nat
    var misses: nat

    // The directory may hold files of an earlier process.
    constructor (ttl: int, maxBytes: int, found: Files)
      ensures limits == DiskLimits(ttl, maxBytes) && files == found && hits == misses == 0
    {
      limits := DiskLimits(ttl, maxBytes);
      files, hits, misses := found, 0, 0;
    }

    method Get(key: string, now: int, removed: bool, read: bool) returns (r: Option<Bytes>)
      modifies this
      ensures (files, r) == AfterDiskGet(limits, old(files), key, now, removed, read)
      ensures hits == old(hits) + (if r.Some? then 1 else 0) && hits + misses == old(hits + misses) + 1
    {
      if !SafeKey(key) {
        misses := misses + 1;
        return None;
      }
      if key !in files {
        misses := misses + 1;
        return None;
      }
      if limits.ttl > 0 && now - files[key].mtime > limits.ttl {
        if removed {
          files := files - {key};
        }
        misses := misses + 1;
        return None;
      }
      if !read {
        misses := misses + 1;
        return None;
      }
      hits := hits + 1;
      return Some(files[key].value);
    }

    method Set(key: string, value: Bytes, now: int, written: bool)
      modifies this`files
      ensures files == AfterDiskSet(old(files), key, value, now, written)
    {
      if !SafeKey(key) {
        return;
      }
      if !written {
        return;
      }
      files := files[key := File(value, now)];
    }

    // Purge removes what can be removed, and counts it.
    method Purge(canRemove: string -> bool) returns (n: nat)
      modifies this`files
      ensures forall k :: k in files <==> k in old(files) && !canRemove(k)
      ensures forall k :: k in files ==> files[k] == old(files)[k]
      ensures n == |old(files).Keys| - |files.Keys|
    {
      n := 0;
      var todo := files.Keys;
      while todo != {}
        invariant todo <= old(files).Keys && files.Keys <= old(files).Keys
        invariant forall k :: k in old(files) ==> (k in files <==> k in todo || !canRemove(k))
        invariant forall k :: k in files ==> files[k] == old(files)[k]
        invariant n == |old(files).Keys| - |files.Keys|
        decreases |todo|
      {
        var k :| k in todo;
        todo := todo - {k};
        if canRemove(k) {
          assert (files - {k}).Keys == files.Keys - {k};
          files := files - {k};
          n := n + 1;
        }
      }
    }

    // The walk over the directory: expired files are removed, the others listed and added up.
    method Collect(now: int, canRemove: string -> bool) returns (entries: seq<DiskEntry>, total: nat)
      modifies this`files
      ensures Listing(old(files), LiveKeys(limits, old(files), now), entries, total)
      ensures Walked(limits, old(files), files, {}, now, canRemove)
    {
      hide Listing, Walked, LiveKeys;
      ghost var before := files;
      entries, total := [], 0;
      var todo := files.Keys;
      WalkStart(limits, before, now, canRemove);
      while todo != {}
        invariant todo <= files.Keys && Walked(limits, before, files, todo, now, canRemove)
        invariant Listing(before, LiveKeys(limits, before, now) - todo, entries, total)
        decreases |todo|
      {
        var k :| k in todo;
        var f := files[k];
        WalkNext(limits, before, files, todo, k, now, canRemove);
        if limits.ttl > 0 && now - f.mtime > limits.ttl {
          todo := todo - {k};
          if canRemove(k) {
            files := files - {k};
          }
          continue;
        }
        ListingNext(before, LiveKeys(limits, before, now) - todo, entries, total, k);
        todo := todo - {k};
        entries := entries + [DiskEntry(k, |f.value|, f.mtime)];
        total := total + |f.value|;
      }
      assert LiveKeys(limits, before, now) - todo == LiveKeys(limits, before, now);
    }

    // The deletion loop over the files that are left, oldest first.
    method DeleteOldest(sorted: seq<DiskEntry>, total0: nat, canRemove: string -> bool, ghost before: Files,
                        ghost live: set<string>)
      requires limits.maxBytes > 0 && OldestFirst(sorted) && Listing(before, live, sorted, total0)
      requires total0 > limits.maxBytes
      requires live <= files.Keys <= before.Keys && forall k :: k in files ==> files[k] == before[k]
      modifies this`files
      ensures files.Keys <= before.Keys && live <= before.Keys && forall k :: k in files ==> files[k] == before[k]
      ensures files.Keys - live == old(files).Keys - live
      ensures Trimmed(limits, before, live, live * files.Keys, canRemove)
    {
      hide Listing, Deleted, Trimmed;
      var target := limits.maxBytes * 9 / 10;
      var total: int := total0;
      ghost var kept := live;
      DeletedStart(limits, before, live, sorted, total0, canRemove);
      for i := 0 to |sorted|
        invariant kept <= live && files.Keys == old(files).Keys - (live - kept)
        invariant forall k :: k in files ==> files[k] == before[k]
        invariant Deleted(limits, before, live, kept, sorted, total, i, canRemove)
      {
        if total <= target {
          DeletedEnough(limits, before, live, kept, sorted, total, total0, i, canRemove);
          assert live * files.Keys == kept;
          return;
        }
        DeletedNext(limits, before, live, kept, sorted, total, total0, i, canRemove);
        var e := sorted[i];
        if canRemove(e.path) {
          files := files - {e.path};
          kept := kept - {e.path};
          total := total - e.size;
        }
      }
      DeletedEnough(limits, before, live, kept, sorted, total, total0, |sorted|, canRemove);
      assert live * files.Keys == kept;
    }

    method Sweep(now: int, canRemove: string -> bool)
      modifies this`files
      ensures Swept(limits, old(files), files, now, canRemove)
    {
      hide Listing, Trimmed, LiveKeys;
      ghost var before, live := files, LiveKeys(limits, files, now);
      LiveAreFiles(limits, before, now);
      var entries, total := Collect(now, canRemove);
      ListingTotal(before, live, entries, total);
      WalkDone(limits, before, files, now, canRemove);
      if limits.maxBytes <= 0 || total <= limits.maxBytes {
        assert live * files.Keys == live;
        NothingToTrim(limits, before, live, canRemove);
        return;
      }
      var sorted := SortByTime(entries);
      ListingSorted(before, live, entries, sorted, total);
      ghost var walked := files;
      DeleteOldest(sorted, total, canRemove, before, live);
      forall k | k in before && k !in live
        ensures k in files <==> k in walked
      {
        assert k in files.Keys - live <==> k in walked.Keys - live;
      }
    }
  }

  // The files when the walk has yet to come to the keys in todo.
  ghost predicate Walked(l: DiskLimits, before: Files, files: Files, todo: set<string>, now: int,
                         canRemove: string -> bool) {
    && todo <= before.Keys && files.Keys <= before.Keys && (forall k :: k in files ==> files[k] == before[k])
    && (forall k :: k in before ==> (k in files <==> k in todo || k in LiveKeys(l, before, now) || !canRemove(k)))
  }

  lemma WalkStart(l: DiskLimits, before: Files, now: int, canRemove: string -> bool)
    ensures Walked(l, before, before, before.Keys, now, canRemove)
    ensures Listing(before, LiveKeys(l, before, now) - before.Keys, [], 0)
  {
    ListingStart(before);
    assert LiveKeys(l, before, now) - before.Keys == {};
  }

  lemma WalkNext(l: DiskLimits, before: Files, files: Files, todo: set<string>, k: string, now: int,
                 canRemove: string -> bool)
    requires Walked(l, before, files, todo, now, canRemove) && k in todo && todo <= files.Keys
    ensures k in before && files[k] == before[k] && k !in LiveKeys(l, before, now) - todo
    ensures
      var live := LiveKeys(l, before, now);
      if Stale(l, files[k], now) then
        && live - todo == live - (todo - {k})
        && Walked(l, before, if canRemove(k) then files - {k} else files, todo - {k}, now, canRemove)
      else
        && live - (todo - {k}) == live - todo + {k}
        && Walked(l, before, files, todo - {k}, now, canRemove)
  {
  }

  lemma WalkDone(l: DiskLimits, before: Files, files: Files, now: int, canRemove: string -> bool)
    requires Walked(l, before, files, {}, now, canRemove)
    ensures LiveKeys(l, before, now) <= files.Keys <= before.Keys && forall k :: k in files ==> files[k] == before[k]
    ensures forall k :: k in before ==> (k in files <==> k in LiveKeys(l, before, now) || !canRemove(k))
  {
  }

  ghost predicate Lists(files: Files, e: DiskEntry) {
    e.path in files && e == DiskEntry(e.path, |files[e.path].value|, files[e.path].mtime)
  }

  // The entries list the files at these keys, each once, and total is their size.
  ghost predicate Listing(files: Files, keys: set<string>, entries: seq<DiskEntry>, total: nat) {
    && keys <= files.Keys && NoPathTwice(entries) && total == SizeOf(files, keys)
    && (forall e :: e in entries <==> Lists(files, e) && e.path in keys)
  }

  lemma ListingStart(files: Files)
    ensures Listing(files, {}, [], 0)
  {
  }

  lemma ListingNext(files: Files, keys: set<string>, entries: seq<DiskEntry>, total: nat, k: string)
    requires Listing(files, keys, entries, total) && k in files && k !in keys
    ensures Listing(files, keys + {k}, entries + [DiskEntry(k, |files[k].value|, files[k].mtime)],
                    total + |files[k].value|)
  {
    assert keys + {k} - {k} == keys;
    SizeWithout(files, keys + {k}, k);
  }

  lemma ListingTotal(files: Files, keys: set<string>, entries: seq<DiskEntry>, total: nat)
    requires Listing(files, keys, entries, total)
    ensures NoPathTwice(entries) && keys <= files.Keys && total == SizeOf(files, keys)
  {
  }

  lemma ListingSorted(files: Files, keys: set<string>, entries: seq<DiskEntry>, sorted: seq<DiskEntry>, total: nat)
    requires Listing(files, keys, entries, total) && NoPathTwice(sorted) && forall e :: e in sorted <==> e in entries
    ensures Listing(files, keys, sorted, total)
  {
  }

  lemma LiveAreFiles(l: DiskLimits, files: Files, now: int)
    ensures LiveKeys(l, files, now) <= files.Keys
  {
  }

  lemma NothingToTrim(l: DiskLimits, before: Files, live: set<string>, canRemove: string -> bool)
    requires live <= before.Keys && (l.maxBytes <= 0 || SizeOf(before, live) <= l.maxBytes)
    ensures Trimmed(l, before, live, live, canRemove)
  {
  }

  // What has been deleted when the loop stands at index i.
  ghost predicate Deleted(l: DiskLimits, before: Files, live: set<string>, kept: set<string>, sorted: seq<DiskEntry>,
                          total: int, i: int, canRemove: string -> bool) {
    && l.maxBytes > 0 && kept <= live <= before.Keys && total == SizeOf(before, kept) && 0 <= i <= |sorted|
    && (forall j :: 0 <= j < |sorted| ==> (sorted[j].path in kept <==> j >= i || !canRemove(sorted[j].path)))
    && NoMoreThanNeeded(l, before, live, kept)
  }

  lemma DeletedStart(l: DiskLimits, before: Files, live: set<string>, sorted: seq<DiskEntry>, total: nat,
                     canRemove: string -> bool)
    requires l.maxBytes > 0 && Listing(before, live, sorted, total)
    ensures Deleted(l, before, live, live, sorted, total, 0, canRemove)
  {
    forall j | 0 <= j < |sorted|
      ensures sorted[j].path in live
    {
      assert sorted[j] in sorted;
    }
  }

  lemma DeletedNext(l: DiskLimits, before: Files, live: set<string>, kept: set<string>, sorted: seq<DiskEntry>,
                    total: int, total0: nat, i: int, canRemove: string -> bool)
    requires Deleted(l, before, live, kept, sorted, total, i, canRemove) && i < |sorted| && total > Target(l)
    requires Listing(before, live, sorted, total0)
    ensures sorted[i].path in kept
    ensures
      if canRemove(sorted[i].path)
      then Deleted(l, before, live, kept - {sorted[i].path}, sorted, total - sorted[i].size, i + 1, canRemove)
      else Deleted(l, before, live, kept, sorted, total, i + 1, canRemove)
  {
    var p := sorted[i].path;
    assert sorted[i] in sorted;
    if canRemove(p) {
      SizeWithout(before, kept, p);
      assert kept - {p} + {p} == kept;
    }
  }

  lemma DeletedEnough(l: DiskLimits, before: Files, live: set<string>, kept: set<string>, sorted: seq<DiskEntry>,
                      total: int, total0: nat, i: int, canRemove: string -> bool)
    requires Deleted(l, before, live, kept, sorted, total, i, canRemove) && (total <= Target(l) || i == |sorted|)
    requires OldestFirst(sorted) && Listing(before, live, sorted, total0) && total0 > l.maxBytes
    ensures Trimmed(l, before, live, kept, canRemove)
  {
    forall d | d in live
      ensures exists j :: 0 <= j < |sorted| && sorted[j] == DiskEntry(d, |before[d].value|, before[d].mtime)
    {
      var e := DiskEntry(d, |before[d].value|, before[d].mtime);
      assert Lists(before, e);
      assert e in sorted;
    }
  }
}
