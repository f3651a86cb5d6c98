/** Managing sources on a running server: handleSaveSource and handleDeleteSource in
    internal/server/admin_sources.go, Build and Close in internal/source/registry/registry.go, and
    the structural checks of Validate in internal/config/config.go. */
module Admin {
  import opened Names
  import opened Options
  import opened SourceRegistry

  datatype SourceCfg = SourceCfg(name: string, kind: string, path: string, dsn: string, table: string,
                                 minZoom: Option<int>, maxZoom: Option<int>)

  datatype Network = Network(name: string, source: string)

  // The other parts of a configuration, as far as Validate looks at them; assetsOk stands for the
  // checks on the asset policy.
  datatype Settings = Settings(assetsOk: bool, port: int, authEnabled: bool, apiKeys: seq<string>,
                               diskEnabled: bool, diskDir: string, mcpEnabled: bool, mcpPath: string)

  const DEFAULTS := Settings(true, 8080, false, [], false, "./tile-cache", false, "/mcp")

  datatype Config = Config(settings: Settings, sources: seq<SourceCfg>, networks: seq<Network>)

  // ----- Validate

  const MYSQL_PREFIX := "mysql://"

  // A database has a connection string and a table, a file has a path; there are no other kinds.
  predicate KindOk(s: SourceCfg) {
    && s.kind in {"postgis", "mysql", "mbtiles", "pmtiles", "geojson", "geopackage"}
    && (s.kind in {"postgis", "mysql"} ==> s.dsn != "" && s.table != "")
    && (s.kind == "mysql" ==> "mysql://" <= s.dsn)
    && (s.kind !in {"postgis", "mysql"} ==> s.path != "")
  }

  predicate SourceOk(s: SourceCfg) {
    NameOk(s.name) && KindOk(s) && (s.minZoom.Some? && s.maxZoom.Some? ==> s.minZoom.value <= s.maxZoom.value)
  }

  predicate HasZoom(s: SourceCfg, z: int) {
    (s.minZoom.Some? ==> s.minZoom.value <= z) && (s.maxZoom.Some? ==> z <= s.maxZoom.value)
  }

  // The zooms of a source are refused exactly when there would be none between them.
  lemma SourceOkIff(s: SourceCfg)
    ensures SourceOk(s) <==> NameOk(s.name) && KindOk(s) && exists z :: HasZoom(s, z)
  {
    hide NameOk, KindOk;
    if SourceOk(s) {
      assert HasZoom(s, if s.minZoom.Some? then s.minZoom.value else if s.maxZoom.Some? then s.maxZoom.value else 0);
    }
  }

  function NamesOf(sources: seq<SourceCfg>): (r: seq<string>)
    ensures |r| == |sources| && forall i :: 0 <= i < |r| ==> r[i] == sources[i].name
  {
    seq(|sources|, i requires 0 <= i < |sources| => sources[i].name)
  }

  function NetworkNames(networks: seq<Network>): (r: seq<string>)
    ensures |r| == |networks| && forall i :: 0 <= i < |r| ==> r[i] == networks[i].name
  {
    seq(|networks|, i requires 0 <= i < |networks| => networks[i].name)
  }

  ghost predicate SourcesOk(sources: seq<SourceCfg>) {
    Distinct(NamesOf(sources)) && forall i :: 0 <= i < |sources| ==> SourceOk(sources[i])
  }

  ghost predicate NetworksOk(networks: seq<Network>, names: seq<string>) {
    Distinct(NetworkNames(networks)) && forall i :: 0 <= i < |networks| ==>
      NameOk(networks[i].name) && networks[i].source in names
  }

  predicate SettingsOk(s: Settings) {
    && s.assetsOk && 0 < s.port <= 65535
    && (s.authEnabled ==> s.apiKeys != [])
    && (s.diskEnabled ==> s.diskDir != "")
    && (s.mcpEnabled ==> "/" <= s.mcpPath)
  }

  lemma SettingsExamples()
    ensures SettingsOk(DEFAULTS) && SettingsOk(DEFAULTS.(port := 1)) && SettingsOk(DEFAULTS.(port := 65535))
    ensures !SettingsOk(DEFAULTS.(port := 0)) && !SettingsOk(DEFAULTS.(port := 65536))
    ensures !SettingsOk(DEFAULTS.(authEnabled := true)) && SettingsOk(DEFAULTS.(authEnabled := true, apiKeys := ["k"]))
    ensures SettingsOk(DEFAULTS.(diskEnabled := true)) && !SettingsOk(DEFAULTS.(diskEnabled := true, diskDir := ""))
    ensures SettingsOk(DEFAULTS.(mcpEnabled := true)) && !SettingsOk(DEFAULTS.(mcpEnabled := true, mcpPath := "mcp"))
  {
    assert "/mcp"[0] == '/' && "mcp"[0] != '/';
  }

  ghost predicate ValidConfig(c: Config) {
    SettingsOk(c.settings) && |c.sources| > 0 && SourcesOk(c.sources) && NetworksOk(c.networks, NamesOf(c.sources))
  }

  lemma DistinctPrefix(names: seq<string>, i: nat, seen: set<string>)
    requires i < |names| && Distinct(names[..i]) && forall n :: n in seen <==> n in names[..i]
    ensures Distinct(names[..i + 1]) <==> names[i] !in seen
    ensures forall n :: n in seen + {names[i]} <==> n in names[..i + 1]
    ensures Distinct(names) ==> Distinct(names[..i + 1])
  {
    assert names[..i + 1] == names[..i] + [names[i]];
    if names[i] in seen {
      var j :| 0 <= j < i && names[..i][j] == names[i];
      assert names[..i + 1][j] == names[..i + 1][i];
    }
  }

  // The switch on the type of a source.
  method ValidateKind(s: SourceCfg) returns (ok: bool)
    ensures ok <==> KindOk(s)
  {
    if s.kind == "postgis" || s.kind == "mysql" {
      if s.dsn == "" || s.table == "" {
        return false;
      }
      if s.kind == "mysql" && !(MYSQL_PREFIX <= s.dsn) {
        return false;
      }
    } else if s.kind == "mbtiles" || s.kind == "pmtiles" || s.kind == "geojson" || s.kind == "geopackage" {
      if s.path == "" {
        return false;
      }
    } else {
      return false;
    }
    return true;
  }

  method Validate(c: Config) returns (ok: bool)
    ensures ok <==> ValidConfig(c)
  {
    hide NameOk, KindOk;
    var s := c.settings;
    if !s.assetsOk {
      return false;
    }
    if s.port <= 0 || s.port > 65535 {
      return false;
    }
    if s.authEnabled && |s.apiKeys| == 0 {
      return false;
    }
    if s.diskEnabled && s.diskDir == "" {
      return false;
    }
    if s.mcpEnabled && !("/" <= s.mcpPath) {
      return false;
    }
    if |c.sources| == 0 {
      return false;
    }
    var seen: set<string> := {};
    ghost var names := NamesOf(c.sources);
    for i := 0 to |c.sources|
      invariant Distinct(names[..i]) && forall n :: n in seen <==> n in names[..i]
      invariant forall k :: 0 <= k < i ==> SourceOk(c.sources[k])
    {
      var s := c.sources[i];
      DistinctPrefix(names, i, seen);
      if !NameOk(s.name) {
        return false;
      }
      if s.name in seen {
        return false;
      }
      seen := seen + {s.name};
      var kindOk := ValidateKind(s);
      if !kindOk {
        return false;
      }
      if s.minZoom.Some? && s.maxZoom.Some? && s.minZoom.value > s.maxZoom.value {
        return false;
      }
    }
    assert names[..|c.sources|] == names;
    var netSeen: set<string> := {};
    ghost var netNames := NetworkNames(c.networks);
    for i := 0 to |c.networks|
      invariant Distinct(netNames[..i]) && forall n :: n in netSeen <==> n in netNames[..i]
      invariant forall k :: 0 <= k < i ==> NameOk(c.networks[k].name) && c.networks[k].source in names
    {
      var n := c.networks[i];
      DistinctPrefix(netNames, i, netSeen);
      if !NameOk(n.name) {
        return false;
      }
      if n.name in netSeen {
        return false;
      }
      netSeen := netSeen + {n.name};
      if n.source !in seen {
        return false;
      }
    }
    assert netNames[..|c.networks|] == netNames;
    return true;
  }

  // ----- the lists a change works on

  // The candidate takes the place of the source of its name, or comes last.
  function Upsert(sources: seq<SourceCfg>, sc: SourceCfg): seq<SourceCfg> {
    if sources == [] then [sc]
    else if sources[0].name == sc.name then [sc] + sources[1..]
    else [sources[0]] + Upsert(sources[1..], sc)
  }

  function Drop(sources: seq<SourceCfg>, name: string): seq<SourceCfg> {
    if sources == [] then []
    else if sources[0].name == name then Drop(sources[1..], name)
    else [sources[0]] + Drop(sources[1..], name)
  }

  lemma {:induction false} UpsertNames(sources: seq<SourceCfg>, sc: SourceCfg)
    ensures NamesOf(Upsert(sources, sc)) ==
            if sc.name in NamesOf(sources) then NamesOf(sources) else NamesOf(sources) + [sc.name]
    ensures sc in Upsert(sources, sc)
  {
    if sources != [] {
      assert NamesOf(sources) == [sources[0].name] + NamesOf(sources[1..]);
      if sources[0].name == sc.name {
        assert NamesOf([sc] + sources[1..]) == [sc.name] + NamesOf(sources[1..]);
      } else {
        UpsertNames(sources[1..], sc);
        assert NamesOf([sources[0]] + Upsert(sources[1..], sc)) ==
               [sources[0].name] + NamesOf(Upsert(sources[1..], sc));
      }
    }
  }

  lemma {:induction false} UpsertMembers(sources: seq<SourceCfg>, sc: SourceCfg)
    ensures forall s :: s in Upsert(sources, sc) ==> s == sc || s in sources
  {
    if sources != [] {
      UpsertMembers(sources[1..], sc);
    }
  }

  lemma {:induction false} DropNames(sources: seq<SourceCfg>, name: string)
    requires Distinct(NamesOf(sources))
    ensures NamesOf(Drop(sources, name)) == Without(NamesOf(sources), name)
  {
    if sources != [] {
      var names, rest := NamesOf(sources), NamesOf(sources[1..]);
      assert names == [sources[0].name] + rest;
      HeadIsNew(names);
      assert names[1..] == rest;
      DropNames(sources[1..], name);
      if sources[0].name == name {
        DropNothing(sources[1..], name);
      } else {
        assert NamesOf([sources[0]] + Drop(sources[1..], name)) ==
               [sources[0].name] + NamesOf(Drop(sources[1..], name));
      }
    }
  }

  lemma {:induction false} DropNothing(sources: seq<SourceCfg>, name: string)
    requires name !in NamesOf(sources)
    ensures Drop(sources, name) == sources
  {
    if sources != [] {
      assert NamesOf(sources) == [sources[0].name] + NamesOf(sources[1..]);
      DropNothing(sources[1..], name);
    }
  }

  lemma {:induction false} DropMembers(sources: seq<SourceCfg>, name: string)
    ensures forall s :: s in Drop(sources, name) <==> s in sources && s.name != name
    ensures |Drop(sources, name)| <= |sources|
  {
    if sources != [] {
      DropMembers(sources[1..], name);
      assert sources == [sources[0]] + sources[1..];
    }
  }

  // ----- what can be refused

  function WithSources(c: Config, sources: seq<SourceCfg>): Config {
    c.(sources := sources)
  }

  ghost predicate CandidateOk(sc: SourceCfg) {
    ValidConfig(Config(DEFAULTS, [sc], []))
  }

  lemma CandidateOkIff(sc: SourceCfg)
    ensures CandidateOk(sc) <==> SourceOk(sc)
  {
    var names := NamesOf([sc]);
    assert |names| == 1;
    assert [sc][0] == sc;
  }

  lemma SourcesByMember(sources: seq<SourceCfg>)
    ensures SourcesOk(sources) <==> Distinct(NamesOf(sources)) && forall s :: s in sources ==> SourceOk(s)
  {
    hide SourceOk, Distinct;
    if SourcesOk(sources) {
      forall s | s in sources
        ensures SourceOk(s)
      {
        var i :| 0 <= i < |sources| && sources[i] == s;
      }
    }
  }

  lemma DistinctAppend(names: seq<string>, name: string)
    requires Distinct(names) && name !in names
    ensures Distinct(names + [name])
  {
  }

  // A candidate that is valid by itself never makes a valid configuration invalid.
  lemma UpsertStaysValid(c: Config, sc: SourceCfg)
    requires ValidConfig(c) && CandidateOk(sc)
    ensures ValidConfig(WithSources(c, Upsert(c.sources, sc)))
  {
    hide SourceOk, Distinct;
    CandidateOkIff(sc);
    UpsertNames(c.sources, sc);
    UpsertMembers(c.sources, sc);
    SourcesByMember(c.sources);
    if sc.name !in NamesOf(c.sources) {
      DistinctAppend(NamesOf(c.sources), sc.name);
    }
    SourcesByMember(Upsert(c.sources, sc));
    assert NetworksOk(c.networks, NamesOf(Upsert(c.sources, sc)));
  }

  ghost predicate UsedByNetwork(c: Config, name: string) {
    exists i :: 0 <= i < |c.networks| && c.networks[i].source == name
  }

  // A source may go exactly when it is not the only one and no network is built from it.
  lemma DropStaysValidIff(c: Config, name: string)
    requires ValidConfig(c) && name in NamesOf(c.sources)
    ensures ValidConfig(WithSources(c, Drop(c.sources, name))) <==> |c.sources| > 1 && !UsedByNetwork(c, name)
  {
    var names, left := NamesOf(c.sources), Drop(c.sources, name);
    DropNames(c.sources, name);
    WithoutIs(names, name);
    WithoutSize(names, name);
    DropMembers(c.sources, name);
    SourcesByMember(c.sources);
    SourcesByMember(left);
    assert |left| == |c.sources| - 1;
    hide SourceOk, Distinct, SourcesOk;
    forall i | 0 <= i < |c.networks|
      ensures c.networks[i].source in NamesOf(left) <==> c.networks[i].source != name
    {
      assert c.networks[i].source in names;
    }
  }

  lemma {:induction false} WithoutSize(names: seq<string>, name: string)
    requires name in names
    ensures |Without(names, name)| == |names| - 1
  {
    if names[0] != name {
      WithoutSize(names[1..], name);
    }
  }

  // ----- the loops of the two handlers

  // preserveSecret: an empty connection string stands for the one that is configured.
  function PreserveSecret(sources: seq<SourceCfg>, sc: SourceCfg): (r: SourceCfg)
    ensures r.name == sc.name && r.kind == sc.kind
  {
    if (sc.kind != "postgis" && sc.kind != "mysql") || sc.dsn != "" then sc else sc.(dsn := KnownSecret(sources, sc))
  }

  function KnownSecret(sources: seq<SourceCfg>, sc: SourceCfg): string {
    if sources == [] then sc.dsn
    else if sources[0].name == sc.name && sources[0].kind == sc.kind then sources[0].dsn
    else KnownSecret(sources[1..], sc)
  }

  // It is that of the first source of this name and kind, if there is one; a connection string that is
  // given, and any other kind of source, stay as they are.
  lemma {:induction false} SecretIsItsOwn(sources: seq<SourceCfg>, sc: SourceCfg)
    ensures
      var asked := (sc.kind == "postgis" || sc.kind == "mysql") && sc.dsn == "";
      && (asked ==> forall i :: FirstNamed(sources, sc, i) ==>
           PreserveSecret(sources, sc) == sc.(dsn := sources[i].dsn))
      && (!asked || (forall i :: !FirstNamed(sources, sc, i)) ==> PreserveSecret(sources, sc) == sc)
  {
    if sources != [] && !(sources[0].name == sc.name && sources[0].kind == sc.kind) {
      SecretIsItsOwn(sources[1..], sc);
      forall i
        ensures FirstNamed(sources, sc, i) <==> i > 0 && FirstNamed(sources[1..], sc, i - 1)
      {
        if FirstNamed(sources, sc, i) {
          assert forall k :: 0 <= k < i - 1 ==> sources[1..][k] == sources[k + 1];
        }
        if i > 0 && FirstNamed(sources[1..], sc, i - 1) {
          assert forall k :: 0 < k < i ==> sources[k] == sources[1..][k - 1];
        }
      }
      assert forall i :: FirstNamed(sources[1..], sc, i) ==> FirstNamed(sources, sc, i + 1);
    } else if sources != [] {
      assert FirstNamed(sources, sc, 0);
    }
  }

  predicate FirstNamed(sources: seq<SourceCfg>, sc: SourceCfg, i: int) {
    && 0 <= i < |sources| && sources[i].name == sc.name && sources[i].kind == sc.kind
    && forall k :: 0 <= k < i ==> !(sources[k].name == sc.name && sources[k].kind == sc.kind)
  }

  lemma {:induction false} UpsertSkips(sources: seq<SourceCfg>, sc: SourceCfg, i: nat)
    requires i <= |sources| && forall k :: 0 <= k < i ==> sources[k].name != sc.name
    ensures Upsert(sources, sc) == sources[..i] + Upsert(sources[i..], sc)
  {
    if i > 0 {
      UpsertSkips(sources[1..], sc, i - 1);
      assert sources[1..][i - 1..] == sources[i..] && sources[..i] == [sources[0]] + sources[1..][..i - 1];
    }
  }

  method Upserted(old0: seq<SourceCfg>, sc: SourceCfg) returns (sources: seq<SourceCfg>, found: bool)
    ensures sources == Upsert(old0, sc) && found == (sc.name in NamesOf(old0))
  {
    hide Upsert;
    for i := 0 to |old0|
      invariant forall k :: 0 <= k < i ==> old0[k].name != sc.name
    {
      if old0[i].name == sc.name {
        UpsertsAt(old0, sc, i);
        return old0[i := sc], true;
      }
    }
    UpsertsLast(old0, sc);
    return old0 + [sc], false;
  }

  lemma UpsertsAt(sources: seq<SourceCfg>, sc: SourceCfg, i: nat)
    requires i < |sources| && sources[i].name == sc.name && forall k :: 0 <= k < i ==> sources[k].name != sc.name
    ensures Upsert(sources, sc) == sources[i := sc] && sc.name in NamesOf(sources)
  {
    hide Upsert, NamesOf;
    UpsertSkips(sources, sc, i);
    NamedAt(sources, sc.name);
    UpsertHead(sources[i..], sc);
    ReplacedAt(sources, sc, i);
  }

  lemma ReplacedAt<T>(s: seq<T>, v: T, i: nat)
    requires i < |s|
    ensures s[i := v] == s[..i] + ([v] + s[i..][1..])
  {
  }

  lemma UpsertHead(sources: seq<SourceCfg>, sc: SourceCfg)
    requires sources != [] && sources[0].name == sc.name
    ensures Upsert(sources, sc) == [sc] + sources[1..]
  {
  }

  lemma UpsertsLast(sources: seq<SourceCfg>, sc: SourceCfg)
    requires forall k :: 0 <= k < |sources| ==> sources[k].name != sc.name
    ensures Upsert(sources, sc) == sources + [sc] && sc.name !in NamesOf(sources)
  {
    UpsertSkips(sources, sc, |sources|);
    NamedAt(sources, sc.name);
    assert sources[..|sources|] == sources && sources[|sources|..] == [];
  }

  lemma {:induction false} DropSnoc(sources: seq<SourceCfg>, s: SourceCfg, name: string)
    ensures Drop(sources + [s], name) == Drop(sources, name) + if s.name == name then [] else [s]
  {
    if sources != [] {
      DropSnoc(sources[1..], s, name);
      assert (sources + [s])[1..] == sources[1..] + [s] && (sources + [s])[0] == sources[0];
    } else {
      assert sources + [s] == [s];
    }
  }

  lemma Prefix<T>(s: seq<T>, i: nat)
    requires i < |s|
    ensures s[..i + 1] == s[..i] + [s[i]]
  {
  }

  lemma NamedAt(sources: seq<SourceCfg>, name: string)
    ensures name in NamesOf(sources) <==> exists i :: 0 <= i < |sources| && sources[i].name == name
  {
    if i :| 0 <= i < |sources| && sources[i].name == name {
      assert NamesOf(sources)[i] == name;
    }
  }

  method Dropped(old0: seq<SourceCfg>, name: string) returns (sources: seq<SourceCfg>, found: bool)
    ensures sources == Drop(old0, name) && found == (name in NamesOf(old0))
  {
    hide Drop, NamesOf;
    sources, found := [], false;
    DropEmpty(name);
    for i := 0 to |old0|
      invariant found == exists k :: 0 <= k < i && old0[k].name == name
      invariant sources == Drop(old0[..i], name)
    {
      Prefix(old0, i);
      DropSnoc(old0[..i], old0[i], name);
      if old0[i].name == name {
        found := true;
        continue;
      }
      sources := sources + [old0[i]];
    }
    assert old0[..|old0|] == old0;
    NamedAt(old0, name);
  }

  lemma DropEmpty(name: string)
    ensures Drop([], name) == []
  {
  }

  // ----- the server

  datatype Status = Conflict | BadRequest | ProbeFailed | NotFound | NotPersisted | Saved(replaced: bool) | Deleted

  // What a save answers: refused without a config path, for a malformed candidate, when it cannot
  // be opened or does not answer, or when the file cannot be written.
  ghost function SaveStatus(c: Config, writable: bool, sc: SourceCfg, opens: bool, answers: bool,
                            written: bool): Status {
    if !writable then Conflict
    else if !CandidateOk(PreserveSecret(c.sources, sc)) then BadRequest
    else if !opens || !answers then ProbeFailed
    else if !ValidConfig(SavedConfig(c, sc)) then BadRequest
    else if !written then NotPersisted
    else Saved(sc.name in NamesOf(c.sources))
  }

  // The configuration that a save makes live.
  ghost function SavedConfig(c: Config, sc: SourceCfg): Config {
    WithSources(c, Upsert(c.sources, PreserveSecret(c.sources, sc)))
  }

  // The second validation never refuses what the first has let through.
  lemma SavedConfigIsValid(c: Config, sc: SourceCfg)
    requires ValidConfig(c) && CandidateOk(PreserveSecret(c.sources, sc))
    ensures ValidConfig(SavedConfig(c, sc))
  {
    UpsertStaysValid(c, PreserveSecret(c.sources, sc));
  }

  ghost function DeleteStatus(c: Config, writable: bool, name: string, written: bool): Status {
    if !writable then Conflict
    else if name !in NamesOf(c.sources) then NotFound
    else if |c.sources| == 1 || UsedByNetwork(c, name) then BadRequest
    else if !written then NotPersisted
    else Deleted
  }

  // A save succeeds exactly when the configuration has a file, the candidate is well formed, opens and
  // answers, and the file can be written; a deletion when the configuration has a file, knows the name
  // and stays valid without it, and the file can be written.
  lemma SavedIff(c: Config, writable: bool, sc: SourceCfg, opens: bool, answers: bool, written: bool)
    requires ValidConfig(c)
    ensures SaveStatus(c, writable, sc, opens, answers, written).Saved? <==>
            writable && SourceOk(PreserveSecret(c.sources, sc)) && opens && answers && written
  {
    hide ValidConfig, CandidateOk, SourceOk, SavedConfig;
    CandidateOkIff(PreserveSecret(c.sources, sc));
    if CandidateOk(PreserveSecret(c.sources, sc)) {
      SavedConfigIsValid(c, sc);
    }
  }

  lemma DeletedIff(c: Config, writable: bool, name: string, written: bool)
    requires ValidConfig(c)
    ensures DeleteStatus(c, writable, name, written).Deleted? <==>
            writable && name in NamesOf(c.sources) && ValidConfig(WithSources(c, Drop(c.sources, name))) && written
  {
    if name in NamesOf(c.sources) {
      DropStaysValidIff(c, name);
    }
    hide ValidConfig, Drop;
  }

  class Server {
    var cfg: Config
    var file: seq<SourceCfg>
    const writable: bool
    const reg: Registry
    var readiness: bool
    ghost var handles: set<Handle>

    // Live configuration, file and registry are in step; whatever was opened is either published
    // and open, or has been closed once.
    ghost predicate InStep()
      reads this, reg, reg.Published(), handles
    {
      && ValidConfig(cfg) && file == cfg.sources && reg.order == NamesOf(cfg.sources)
      && reg.Valid() && reg.Published() <= handles
      && (forall h :: h in handles && h !in reg.Published() ==> h.closes == 1)
    }

    constructor (cfg: Config, writable: bool, reg: Registry, ghost handles: set<Handle>)
      requires ValidConfig(cfg) && reg.Valid() && reg.order == NamesOf(cfg.sources) && reg.Published() == handles
      ensures InStep() && this.cfg == cfg && this.writable == writable && this.reg == reg && this.handles == handles
    {
      this.cfg, this.file, this.writable, this.reg, this.readiness := cfg, cfg.sources, writable, reg, true;
      this.handles := handles;
    }

    // Nothing that a request could see has changed.
    twostate predicate Untouched()
      reads this, reg
    {
      && cfg == old(cfg) && file == old(file) && readiness == old(readiness)
      && reg.sources == old(reg.sources) && reg.order == old(reg.order) && reg.retired == old(reg.retired)
    }

    // Opening and pinging a candidate; one that does not answer is closed again.
    method Probe(opens: bool, answers: bool) returns (candidate: Handle?)
      requires InStep()
      modifies this`handles
      ensures Pending(candidate) && (candidate == null ==> InStep()) && (candidate != null ==> fresh(candidate))
      ensures candidate != null <==> opens && answers
      ensures fresh(handles - old(handles)) && |handles| == |old(handles)| + (if opens then 1 else 0)
      ensures old(handles) <= handles
    {
      hide ValidConfig, Shape, NamesOf;
      if !opens {
        return null;
      }
      var h := new Handle();
      handles := handles + {h};
      if !answers {
        h.Close();
        return null;
      }
      return h;
    }

    // In step but for a candidate that is open and not yet published.
    ghost predicate Pending(candidate: Handle?)
      reads this, reg, reg.Published(), handles
    {
      && ValidConfig(cfg) && file == cfg.sources && reg.order == NamesOf(cfg.sources)
      && reg.Valid() && reg.Published() <= handles
      && (candidate != null ==> candidate in handles && candidate !in reg.Published() && candidate.closes == 0)
      && (forall h :: h in handles && h !in reg.Published() && h != candidate ==> h.closes == 1)
    }

    // The candidate is given up.
    method Reject(candidate: Handle)
      requires Pending(candidate)
      modifies candidate
      ensures InStep()
    {
      hide ValidConfig, Shape, NamesOf;
      candidate.Close();
    }

    // File, registry and live configuration, in this order.
    method Publish(candidate: Handle, name: string, next: Config)
      requires Pending(candidate) && ValidConfig(next)
      requires NamesOf(next.sources) ==
               if name in NamesOf(cfg.sources) then NamesOf(cfg.sources) else NamesOf(cfg.sources) + [name]
      modifies this`file, this`cfg, this`readiness, reg
      ensures InStep() && cfg == next && !readiness && reg.sources == old(reg.sources)[name := candidate]
    {
      hide ValidConfig, Shape, NamesOf;
      RegistryNames(reg.sources, reg.order, reg.retired, name);
      file := next.sources;
      reg.Replace(name, candidate);
      cfg := next;
      readiness := false;
    }

    // handleSaveSource, after the request has been decoded. opens, answers and written say whether
    // the source can be opened, answers a ping, and whether the file can be replaced.
    method Save(sc0: SourceCfg, opens: bool, answers: bool, written: bool) returns (status: Status)
      requires InStep()
      modifies this, reg
      ensures InStep() && fresh(handles - old(handles)) && old(handles) <= handles
      ensures |handles| == |old(handles)| +
                           if writable && CandidateOk(PreserveSecret(old(cfg).sources, sc0)) && opens then 1 else 0
      ensures status == SaveStatus(old(cfg), writable, sc0, opens, answers, written)
      ensures !status.Saved? ==> Untouched()
      ensures status.Saved? ==>
        && cfg == SavedConfig(old(cfg), sc0) && !readiness
        && sc0.name in reg.sources && fresh(reg.sources[sc0.name])
        && reg.sources == old(reg.sources)[sc0.name := reg.sources[sc0.name]]
    {
      hide ValidConfig, Shape, NamesOf, Upsert, PreserveSecret;
      if !writable {
        return Conflict;
      }
      var sc := PreserveSecret(cfg.sources, sc0);
      var ok := Validate(Config(DEFAULTS, [sc], []));
      if !ok {
        return BadRequest;
      }
      var candidate := Probe(opens, answers);
      if candidate == null {
        return ProbeFailed;
      }
      var sources, found := Upserted(cfg.sources, sc);
      var next := WithSources(cfg, sources);
      ok := Validate(next);
      if !ok {
        Reject(candidate);
        return BadRequest;
      }
      if !written {
        Reject(candidate);
        return NotPersisted;
      }
      UpsertNames(cfg.sources, sc);
      Publish(candidate, sc.name, next);
      return Saved(found);
    }

    // handleDeleteSource.
    method Delete(name: string, written: bool) returns (status: Status)
      requires InStep()
      modifies this, reg
      ensures InStep() && handles == old(handles)
      ensures status == DeleteStatus(old(cfg), writable, name, written)
      ensures !status.Deleted? ==> Untouched()
      ensures status.Deleted? ==>
        && cfg == WithSources(old(cfg), Drop(old(cfg).sources, name)) && !readiness
        && reg.sources == old(reg.sources) - {name}
    {
      hide ValidConfig, Shape, UsedByNetwork, NamesOf, Drop, Distinct;
      if !writable {
        return Conflict;
      }
      var sources, found := Dropped(cfg.sources, name);
      if !found {
        return NotFound;
      }
      var next := WithSources(cfg, sources);
      DropStaysValidIff(cfg, name);
      NamesAreDistinct(cfg);
      var ok := Validate(next);
      if !ok {
        return BadRequest;
      }
      if !written {
        return NotPersisted;
      }
      DropNames(cfg.sources, name);
      Withdraw(name, next);
      return Deleted;
    }

    // As Publish, for a source that goes.
    method Withdraw(name: string, next: Config)
      requires InStep() && ValidConfig(next)
      requires name in NamesOf(cfg.sources) && NamesOf(next.sources) == Without(NamesOf(cfg.sources), name)
      modifies this`file, this`cfg, this`readiness, reg
      ensures InStep() && cfg == next && !readiness && reg.sources == old(reg.sources) - {name}
    {
      hide ValidConfig, Shape, NamesOf;
      RegistryNames(reg.sources, reg.order, reg.retired, name);
      file := next.sources;
      var _ := reg.Remove(name);
      cfg := next;
      readiness := false;
    }

    // At shutdown everything that was ever opened has been closed exactly once.
    method Shutdown()
      requires InStep()
      modifies reg, reg.Published()
      ensures forall h :: h in handles ==> h.closes == 1
      ensures handles == old(handles)
    {
      reg.Close();
    }
  }

  lemma NamesAreDistinct(c: Config)
    requires ValidConfig(c)
    ensures Distinct(NamesOf(c.sources)) && |c.sources| > 0
  {
  }

  lemma RegistryNames(s: map<string, Handle>, order: seq<string>, q: seq<Handle>, name: string)
    requires Shape(s, order, q)
    ensures name in order <==> name in s
  {
  }

  // Build: on the first source that does not open, those opened before are closed.
  method Build(cfg: Config, opens: seq<bool>) returns (reg: Registry?, ghost handles: set<Handle>)
    requires ValidConfig(cfg) && |opens| == |cfg.sources|
    ensures fresh(handles)
    ensures reg == null <==> false in opens
    ensures reg == null ==> |handles| < |opens| && !opens[|handles|] && forall h :: h in handles ==> h.closes == 1
    ensures reg != null ==>
      && |handles| == |opens| && fresh(reg) && reg.Valid()
      && reg.order == NamesOf(cfg.sources) && reg.Published() == handles
  {
    hide ValidConfig, Shape, NamesOf, Distinct, PublishedOf;
    NamesAreDistinct(cfg);
    ghost var names := NamesOf(cfg.sources);
    var r := new Registry();
    handles := {};
    for i := 0 to |cfg.sources|
      invariant fresh(r) && fresh(handles) && r.Valid() && r.Published() == handles
      invariant r.order == names[..i] && |handles| == i && forall k :: 0 <= k < i ==> opens[k]
    {
      if !opens[i] {
        r.Close();
        return null, handles;
      }
      NewName(names, i);
      var s := new Handle();
      handles := handles + {s};
      r.Add(cfg.sources[i].name, s);
    }
    assert names[..|names|] == names;
    reg := r;
  }

  lemma NewName(names: seq<string>, i: nat)
    requires Distinct(names) && i < |names|
    ensures names[i] !in names[..i] && names[..i + 1] == names[..i] + [names[i]]
  {
  }

  // ----- whole runs

  datatype Request =
    | DoSave(sc: SourceCfg, opens: bool, answers: bool, written: bool)
    | DoDelete(name: string, written: bool)

  // The configuration after a request, and after a sequence of them.
  ghost function AfterRequest(c: Config, writable: bool, r: Request): Config {
    match r
    case DoSave(sc, opens, answers, written) =>
      if SaveStatus(c, writable, sc, opens, answers, written).Saved? then SavedConfig(c, sc) else c
    case DoDelete(name, written) =>
      if DeleteStatus(c, writable, name, written).Deleted? then WithSources(c, Drop(c.sources, name)) else c
  }

  ghost function AfterAll(c: Config, writable: bool, requests: seq<Request>): Config {
    if requests == [] then c
    else AfterRequest(AfterAll(c, writable, requests[..|requests| - 1]), writable, requests[|requests| - 1])
  }

  // After any sequence of requests and outcomes the server is in step, and its configuration is
  // what the requests that were accepted have made of it.
  method Serve(server: Server, requests: seq<Request>)
    requires server.InStep()
    modifies server, server.reg
    ensures server.InStep() && server.cfg == AfterAll(old(server.cfg), server.writable, requests)
    ensures fresh(server.handles - old(server.handles)) && old(server.handles) <= server.handles
    ensures |server.handles| >= |old(server.handles)|
  {
    hide SaveStatus, DeleteStatus, SavedConfig, Drop, ValidConfig;
    for i := 0 to |requests|
      invariant server.InStep() && server.cfg == AfterAll(old(server.cfg), server.writable, requests[..i])
      invariant fresh(server.handles - old(server.handles)) && old(server.handles) <= server.handles
      invariant |server.handles| >= |old(server.handles)|
    {
      ServeOne(server, requests[i]);
      assert requests[..i + 1][..i] == requests[..i];
    }
    assert requests[..|requests|] == requests;
  }

  method ServeOne(server: Server, r: Request)
    requires server.InStep()
    modifies server, server.reg
    ensures server.InStep() && server.cfg == AfterRequest(old(server.cfg), server.writable, r)
    ensures fresh(server.handles - old(server.handles)) && old(server.handles) <= server.handles
    ensures |server.handles| >= |old(server.handles)|
  {
    hide SaveStatus, DeleteStatus, SavedConfig, Drop, ValidConfig;
    match r
    case DoSave(sc, o, a, w) => var _ := server.Save(sc, o, a, w);
    case DoDelete(name, w) => var _ := server.Delete(name, w);
  }

  // A server's life: it is built, answers any requests in any order, and shuts down. At the end
  // every source it ever opened has been closed exactly once.
  method Life(cfg: Config, writable: bool, opens: seq<bool>, requests: seq<Request>)
      returns (ghost handles: set<Handle>)
    requires ValidConfig(cfg) && |opens| == |cfg.sources|
    ensures forall h :: h in handles ==> h.closes == 1
    ensures false !in opens ==> |handles| >= |opens|
  {
    hide ValidConfig, AfterAll;
    var reg;
    reg, handles := Build(cfg, opens);
    if reg == null {
      return;
    }
    var server := new Server(cfg, writable, reg, handles);
    Serve(server, requests);
    server.Shutdown();
    handles := server.handles;
  }
}
