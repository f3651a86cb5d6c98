/** The registry of open data sources: internal/source/registry/registry.go. */
module SourceRegistry {
  import opened Options

  // An open data source; all that matters here is how often it has been closed.
  class Handle {
    var closes: nat

    constructor ()
      ensures closes == 0
    {
      closes := 0;
    }

    method Close()
      modifies this
      ensures closes == old(closes) + 1
    {
      closes := closes + 1;
    }
  }

  predicate Distinct(names: seq<string>) {
    forall i, j :: 0 <= i < j < |names| ==> names[i] != names[j]
  }

  function Without(names: seq<string>, name: string): seq<string> {
    if names == [] then [] else if names[0] == name then names[1..] else [names[0]] + Without(names[1..], name)
  }

  lemma {:induction false} WithoutIs(names: seq<string>, name: string)
    requires Distinct(names)
    ensures Distinct(Without(names, name)) && forall n :: n in Without(names, name) <==> n in names && n != name
  {
    if names != [] {
      var rest := names[1..];
      assert names == [names[0]] + rest;
      HeadIsNew(names);
      if names[0] != name {
        WithoutIs(rest, name);
        DistinctCons(names[0], Without(rest, name));
      }
    }
  }

  lemma HeadIsNew(names: seq<string>)
    requires Distinct(names) && names != []
    ensures names[0] !in names[1..] && Distinct(names[1..])
  {
  }

  lemma DistinctCons(n: string, names: seq<string>)
    requires Distinct(names) && n !in names
    ensures Distinct([n] + names)
  {
  }

  // The sources that are visible, or were and may still be in use by a request.
  ghost function PublishedOf(sources: map<string, Handle>, retired: seq<Handle>): set<Handle> {
    sources.Values + set h | h in retired
  }

  // The order lists every visible source once; no source is published twice.
  ghost predicate Shape(sources: map<string, Handle>, order: seq<string>, retired: seq<Handle>) {
    && Distinct(order) && (forall n :: n in order <==> n in sources)
    && (forall m, n :: m in sources && n in sources && m != n ==> sources[m] != sources[n])
    && (forall i, j :: 0 <= i < j < |retired| ==> retired[i] != retired[j])
    && (forall n :: n in sources ==> sources[n] !in retired)
  }

  lemma ShapeAfterReplace(s: map<string, Handle>, order: seq<string>, q: seq<Handle>, name: string, h: Handle)
    requires Shape(s, order, q) && h !in PublishedOf(s, q)
    ensures
      var s', q' := s[name := h], if name in s then q + [s[name]] else q;
      && Shape(s', if name in s then order else order + [name], q')
      && PublishedOf(s', q') == PublishedOf(s, q) + {h}
  {
    var s', q' := s[name := h], if name in s then q + [s[name]] else q;
    assert forall n :: n in s ==> s[n] in s.Values;
    assert h == s'[name] && name in s';
    forall x | x in s.Values
      ensures x in s'.Values || x in q'
    {
      var n :| n in s && s[n] == x;
      if n != name {
        assert s'[n] == x;
      }
    }
  }

  lemma ShapeAfterRemove(s: map<string, Handle>, order: seq<string>, q: seq<Handle>, name: string)
    requires Shape(s, order, q) && name in s
    ensures Shape(s - {name}, Without(order, name), q + [s[name]])
    ensures PublishedOf(s - {name}, q + [s[name]]) == PublishedOf(s, q)
  {
    WithoutIs(order, name);
    var s', q' := s - {name}, q + [s[name]];
    forall x | x in s.Values
      ensures x in s'.Values || x in q'
    {
      var n :| n in s && s[n] == x;
      if n != name {
        assert s'[n] == x;
      }
    }
    assert s[name] in s.Values;
  }

  lemma InOrder(s: map<string, Handle>, order: seq<string>, q: seq<Handle>, name: string)
    requires Shape(s, order, q)
    ensures name in order <==> name in s
  {
  }

  class Registry {
    var sources: map<string, Handle>
    var order: seq<string>
    var retired: seq<Handle>

    ghost function Published(): set<Handle>
      reads this
    {
      PublishedOf(sources, retired)
    }

    // Nothing published has been closed.
    ghost predicate Valid()
      reads this, Published()
    {
      Shape(sources, order, retired) && forall h :: h in Published() ==> h.closes == 0
    }

    constructor ()
      ensures Valid() && sources == map[] && order == [] && Published() == {}
    {
      sources, order, retired := map[], [], [];
    }

    // What Build does with every source of the configuration.
    method Add(name: string, h: Handle)
      requires Valid() && name !in order && h !in Published() && h.closes == 0
      modifies this
      ensures Valid() && sources == old(sources)[name := h] && order == old(order) + [name]
      ensures Published() == old(Published()) + {h}
    {
      hide Shape, PublishedOf;
      ShapeAfterReplace(sources, order, retired, name, h);
      InOrder(sources, order, retired, name);
      sources := sources[name := h];
      order := order + [name];
    }

    // Replace: the source that had the name is retired, not closed.
    method Replace(name: string, replacement: Handle)
      requires Valid() && replacement !in Published() && replacement.closes == 0
      modifies this
      ensures Valid() && sources == old(sources)[name := replacement]
      ensures order == if name in old(sources) then old(order) else old(order) + [name]
      ensures Published() == old(Published()) + {replacement}
    {
      hide Shape, PublishedOf;
      ShapeAfterReplace(sources, order, retired, name, replacement);
      if name in sources {
        retired := retired + [sources[name]];
      } else {
        order := order + [name];
      }
      sources := sources[name := replacement];
    }

    // Remove: the source is hidden and retired.
    method Remove(name: string) returns (found: bool)
      requires Valid()
      modifies this
      ensures Valid() && found == (name in old(sources))
      ensures sources == old(sources) - {name} && order == if found then Without(old(order), name) else old(order)
      ensures Published() == old(Published())
    {
      hide Shape;
      if name !in sources {
        return false;
      }
      ShapeAfterRemove(sources, order, retired, name);
      var h := sources[name];
      sources := sources - {name};
      retired := retired + [h];
      order := RemoveFirst(order, name);
      return true;
    }

    method Get(name: string) returns (r: Option<Handle>)
      requires Valid()
      ensures if name in sources then r == Some(sources[name]) && r.value.closes == 0 else r == None
    {
      if name in sources {
        assert sources[name] in sources.Values;
        return Some(sources[name]);
      }
      return None;
    }

    // Close closes everything that was ever published, once.
    method Close()
      requires Valid()
      modifies this, Published()
      ensures forall h :: h in old(Published()) ==> h.closes == 1
      ensures Valid() && sources == map[] && order == [] && Published() == {}
    {
      var visible := Visible(sources, order, retired);
      CloseAll(visible);
      CloseAll(retired);
      sources, retired, order := map[], [], [];
    }
  }

  // The visible sources, one by one; Close goes through their names in sorted order.
  method Visible(sources: map<string, Handle>, ghost order: seq<string>, ghost retired: seq<Handle>)
      returns (visible: seq<Handle>)
    requires Shape(sources, order, retired)
    ensures NoRepeats(visible) && NoRepeats(retired)
    ensures forall h :: h in visible <==> h in sources.Values
    ensures forall h :: h in PublishedOf(sources, retired) <==> h in visible || h in retired
    ensures forall h :: h in visible ==> h !in retired
  {
    visible := [];
    var todo := sources.Keys;
    while todo != {}
      invariant todo <= sources.Keys && NoRepeats(visible)
      invariant forall h :: h in visible <==> exists n :: n in sources && n !in todo && sources[n] == h
      decreases |todo|
    {
      var n :| n in todo;
      assert sources[n] !in visible;
      todo := todo - {n};
      visible := visible + [sources[n]];
    }
  }

  ghost predicate NoRepeats(hs: seq<Handle>) {
    forall i, j :: 0 <= i < j < |hs| ==> hs[i] != hs[j]
  }

  method CloseAll(hs: seq<Handle>)
    requires NoRepeats(hs)
    modifies hs
    ensures forall h :: h in hs ==> h.closes == old(h.closes) + 1
  {
    for i := 0 to |hs|
      invariant forall k :: 0 <= k < |hs| ==> hs[k].closes == old(hs[k].closes) + if k < i then 1 else 0
    {
      hs[i].Close();
    }
  }

  // The loop that takes a name out of the order.
  method RemoveFirst(names: seq<string>, name: string) returns (r: seq<string>)
    ensures r == Without(names, name)
  {
    for i := 0 to |names|
      invariant name !in names[..i] && Without(names, name) == names[..i] + Without(names[i..], name)
    {
      assert names[..i + 1] == names[..i] + [names[i]] && names[i..][1..] == names[i + 1..];
      if names[i] == name {
        return names[..i] + names[i + 1..];
      }
    }
    assert names[|names|..] == [] && names[..|names|] == names;
    return names;
  }
}
