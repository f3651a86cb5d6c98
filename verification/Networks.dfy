/** The networks of the server: Graph and build in internal/algo/network/manager.go. */
module Networks {
  import opened Paths
  import opened Builder
  import opened ShortestPath

  // What the feature source of a network yields at a call: there is no such source, it cannot be
  // read, or its features.
  datatype Loaded = NoSource | Unreadable | Loaded(feats: seq<Feature>)

  datatype Network = Network(net: Net, g: Graph)

  datatype Reply = Unknown | Failed | Found(network: Network)

  // The networks that have been built, and the names of those that could not be.
  datatype State = State(graphs: map<string, Network>, errs: set<string>)

  const NONE := State(map[], {})

  // A call for a network: what its source yields, whether the caller gives up, and the reply.
  datatype Call = Call(name: string, loaded: Loaded, givenUp: bool, r: Reply)

  ghost predicate BuiltFrom(dist: Distance, n: Network, feats: seq<Feature>) {
    && n.net == AddFeatures(dist, feats, |feats|) && OnNetwork(n.net, n.g)
    && AllIsThere(dist, feats, n.net) && NothingElse(dist, feats, n.net)
  }

  // What a call does: the first that succeeds for a name decides for all later ones, and so does the
  // first that fails, unless its caller has given up.
  ghost predicate Answers(dist: Distance, configs: set<string>, s: State, c: Call, s': State) {
    if c.name in s.graphs then c.r == Found(s.graphs[c.name]) && s' == s
    else if c.name in s.errs then c.r == Failed && s' == s
    else if c.name !in configs then c.r == Unknown && s' == s
    else
      match c.r
      case Unknown => false
      case Found(n) =>
        && c.loaded.Loaded? && BuiltFrom(dist, n, c.loaded.feats)
        && s' == State(s.graphs[c.name := n], s.errs)
      case Failed =>
        && (c.givenUp || !c.loaded.Loaded? || forall k :: !AskedFor(dist, c.loaded.feats, k))
        && s' == State(s.graphs, if c.givenUp then s.errs else s.errs + {c.name})
  }

  class Manager {
    const configs: set<string>
    var graphs: map<string, Network>
    var errs: set<string>

    function Now(): State
      reads this
    {
      State(graphs, errs)
    }

    constructor (configs: set<string>)
      ensures this.configs == configs && Now() == NONE
    {
      this.configs, graphs, errs := configs, map[], {};
    }

    // Graph. ctxErr says which look at the context finds it cancelled; givenUp is the last look, and
    // a context once cancelled stays so.
    method Get(dist: Distance, name: string, loaded: Loaded, ctxErr: nat -> bool, givenUp: bool) returns (r: Reply)
      requires Metric(dist) && ((exists k :: ctxErr(k)) ==> givenUp)
      requires loaded.Loaded? ==>
        forall i :: 0 <= i < |loaded.feats| && !loaded.feats[i].Other? ==> loaded.feats[i].speedMS > 0.0
      modifies this
      ensures Answers(dist, configs, old(Now()), Call(name, loaded, givenUp, r), Now())
    {
      hide Metric, Good, Exact, Separate, FeatureOk, Indexed, AllIsThere, NothingElse, ServesAll, Links, AskedFor;
      if name in graphs {
        return Found(graphs[name]);
      }
      if name in errs {
        return Failed;
      }
      if name !in configs {
        return Unknown;
      }
      if loaded.Loaded? {
        var b := Build(dist, loaded.feats, ctxErr);
        if b.Built? {
          var n := Network(b.net, b.g);
          graphs := graphs[name := n];
          return Found(n);
        }
      }
      if !givenUp {
        errs := errs + {name};
      }
      return Failed;
    }
  }

  // ----- runs

  // The states before, between and after the calls.
  ghost predicate Run(dist: Distance, configs: set<string>, calls: seq<Call>, s: State) {
    if calls == [] then s == NONE
    else
      var front, last := calls[..|calls| - 1], calls[|calls| - 1];
      exists before :: Run(dist, configs, front, before) && Answers(dist, configs, before, last, s)
  }

  // The call that built the network of this name: the first that was answered with a network.
  ghost predicate Builds(dist: Distance, calls: seq<Call>, i: int, name: string) {
    && 0 <= i < |calls| && calls[i].name == name && calls[i].r.Found? && calls[i].loaded.Loaded?
    && BuiltFrom(dist, calls[i].r.network, calls[i].loaded.feats)
    && forall k :: 0 <= k < i && calls[k].name == name ==> !calls[k].r.Found?
  }

  ghost predicate NetworksKept(dist: Distance, calls: seq<Call>, s: State) {
    forall name :: name in s.graphs ==>
      exists i :: Builds(dist, calls, i, name) && calls[i].r.network == s.graphs[name]
  }

  predicate RepliesKept(calls: seq<Call>, s: State) {
    && (forall k :: 0 <= k < |calls| && calls[k].r.Found? ==>
          calls[k].name in s.graphs && s.graphs[calls[k].name] == calls[k].r.network)
    && (forall k :: 0 <= k < |calls| && calls[k].r.Failed? && !calls[k].givenUp ==> calls[k].name in s.errs)
    && s.graphs.Keys !! s.errs
  }

  lemma {:induction false} RunKeeps(dist: Distance, configs: set<string>, calls: seq<Call>, s: State)
    requires Run(dist, configs, calls, s)
    ensures NetworksKept(dist, calls, s) && RepliesKept(calls, s)
    decreases |calls|
  {
    hide Answers, NetworksKept, RepliesKept;
    if calls == [] {
      NothingKept(dist);
    } else {
      var n := |calls| - 1;
      var before :| Run(dist, configs, calls[..n], before) && Answers(dist, configs, before, calls[n], s);
      RunKeeps(dist, configs, calls[..n], before);
      CallKeepsNetworks(dist, configs, calls, before, s);
      CallKeepsReplies(dist, configs, calls, before, s);
    }
  }

  lemma NothingKept(dist: Distance)
    ensures NetworksKept(dist, [], NONE) && RepliesKept([], NONE)
  {
  }

  lemma CallKeepsNetworks(dist: Distance, configs: set<string>, calls: seq<Call>, before: State, s: State)
    requires calls != [] && NetworksKept(dist, calls[..|calls| - 1], before)
    requires RepliesKept(calls[..|calls| - 1], before) && Answers(dist, configs, before, calls[|calls| - 1], s)
    ensures NetworksKept(dist, calls, s)
  {
    hide BuiltFrom;
    var n := |calls| - 1;
    assert forall k :: 0 <= k < n ==> calls[..n][k] == calls[k];
    forall name | name in s.graphs
      ensures exists i :: Builds(dist, calls, i, name) && calls[i].r.network == s.graphs[name]
    {
      if name in before.graphs {
        var i :| Builds(dist, calls[..n], i, name) && calls[..n][i].r.network == before.graphs[name];
        assert Builds(dist, calls, i, name);
      } else {
        assert Builds(dist, calls, n, name);
      }
    }
  }

  lemma CallKeepsReplies(dist: Distance, configs: set<string>, calls: seq<Call>, before: State, s: State)
    requires calls != [] && RepliesKept(calls[..|calls| - 1], before)
    requires Answers(dist, configs, before, calls[|calls| - 1], s)
    ensures RepliesKept(calls, s)
  {
    hide BuiltFrom;
    var n := |calls| - 1;
    assert forall k :: 0 <= k < n ==> calls[..n][k] == calls[k];
  }

  lemma {:induction false} RunUpTo(dist: Distance, configs: set<string>, calls: seq<Call>, s: State, k: int)
      returns (before: State, after: State)
    requires Run(dist, configs, calls, s) && 0 <= k < |calls|
    ensures Run(dist, configs, calls[..k], before) && Answers(dist, configs, before, calls[k], after)
    decreases |calls|
  {
    var n := |calls| - 1;
    before :| Run(dist, configs, calls[..n], before) && Answers(dist, configs, before, calls[n], s);
    after := s;
    if k < n {
      assert calls[..n][..k] == calls[..k] && calls[..n][k] == calls[k];
      before, after := RunUpTo(dist, configs, calls[..n], before, k);
    }
  }

  // Every network that a call is answered with was built from what the source yielded at the first
  // call that succeeded, whatever it has yielded since.
  lemma RouteIsOverFirst(dist: Distance, configs: set<string>, calls: seq<Call>, s: State, k: int)
    requires Run(dist, configs, calls, s) && 0 <= k < |calls| && calls[k].r.Found?
    ensures exists i :: Builds(dist, calls, i, calls[k].name) && calls[i].r == calls[k].r && i <= k
  {
    hide BuiltFrom;
    RunKeeps(dist, configs, calls, s);
    var name := calls[k].name;
    var i :| Builds(dist, calls, i, name) && calls[i].r.network == s.graphs[name];
  }

  // A network that could not be built stays so, unless the caller had given up.
  lemma FailureStays(dist: Distance, configs: set<string>, calls: seq<Call>, s: State, i: int, k: int)
    requires Run(dist, configs, calls, s) && 0 <= i < k < |calls| && calls[k].name == calls[i].name
    requires calls[i].r.Failed? && !calls[i].givenUp
    ensures calls[k].r.Failed?
  {
    hide Run, BuiltFrom;
    var before, after := RunUpTo(dist, configs, calls, s, k);
    RunKeeps(dist, configs, calls[..k], before);
    assert calls[..k][i] == calls[i];
  }
}
