/** A keyed set of hot-swappable services, diffed against a new configuration and touched only where it changed. */
module KeyedTree {
  import opened Common

  datatype Slot<S> = Updating | Ready(service: S)

  /** A node owns the sending side of channel `chan`. */
  datatype Node<C> = Node(config: C, chan: nat)

  datatype Report<K> = Report(added: seq<K>, updated: seq<K>, removed: seq<K>, same: seq<K>)

  /** The last configuration given for each key. */
  function LastWins<K(==), C>(configs: seq<(K, C)>): map<K, C> {
    if configs == [] then map[]
    else
      var n := |configs| - 1;
      LastWins(configs[..n])[configs[n].0 := configs[n].1]
  }

  function KeysOf<K, C>(configs: seq<(K, C)>): seq<K> {
    seq(|configs|, i requires 0 <= i < |configs| => configs[i].0)
  }

  /** What became of each configuration, given the tree's configurations before. */
  function Classify<K(==), C(==)>(before: map<K, C>, configs: seq<(K, C)>): Report<K> {
    if configs == [] then Report([], [], [], [])
    else
      var n := |configs| - 1;
      var r, now, (k, c) := Classify(before, configs[..n]), before + LastWins(configs[..n]), configs[n];
      if k !in now then r.(added := r.added + [k])
      else if now[k] == c then r.(same := r.same + [k])
      else r.(updated := r.updated + [k])
  }

  /** The configurations that had to be built, in order. */
  function Built<K(==), C(==)>(before: map<K, C>, configs: seq<(K, C)>): seq<(K, C)> {
    if configs == [] then []
    else
      var n := |configs| - 1;
      var b, now, (k, c) := Built(before, configs[..n]), before + LastWins(configs[..n]), configs[n];
      if k in now && now[k] == c then b else b + [(k, c)]
  }

  // ---- what the report says ----

  lemma {:induction false} LastWinsKeys<K, C>(configs: seq<(K, C)>, k: K)
    ensures k in LastWins(configs) <==> k in KeysOf(configs)
  {
    if configs != [] {
      var n := |configs| - 1;
      LastWinsKeys(configs[..n], k);
      assert KeysOf(configs) == KeysOf(configs[..n]) + [configs[n].0];
    }
  }

  /** Every entry is reported exactly once. */
  lemma {:induction false} EveryEntryReportedOnce<K, C>(before: map<K, C>, configs: seq<(K, C)>)
    ensures var r := Classify(before, configs);
            multiset(r.added) + multiset(r.updated) + multiset(r.same) == multiset(KeysOf(configs))
  {
    if configs != [] {
      var n := |configs| - 1;
      EveryEntryReportedOnce(before, configs[..n]);
      assert KeysOf(configs) == KeysOf(configs[..n]) + [configs[n].0];
      ClassifyStep(before, configs, n);
      assert configs[..n + 1] == configs;
      hide Classify, Built, LastWins, KeysOf;
      var r, k := Classify(before, configs[..n]), configs[n].0;
      assert multiset(r.added + [k]) == multiset(r.added) + multiset{k};
      assert multiset(r.updated + [k]) == multiset(r.updated) + multiset{k};
      assert multiset(r.same + [k]) == multiset(r.same) + multiset{k};
    }
  }

  /** Building happens exactly once per added or updated entry. */
  lemma {:induction false} BuildsMatchReport<K, C>(before: map<K, C>, configs: seq<(K, C)>)
    ensures var r := Classify(before, configs);
            multiset(KeysOf(Built(before, configs))) == multiset(r.added) + multiset(r.updated)
  {
    if configs != [] {
      var n := |configs| - 1;
      BuildsMatchReport(before, configs[..n]);
      var r, b, k := Classify(before, configs[..n]), Built(before, configs[..n]), configs[n].0;
      assert KeysOf(b + [configs[n]]) == KeysOf(b) + [k];
      ClassifyStep(before, configs, n);
      assert configs[..n + 1] == configs;
      hide Classify, Built, LastWins, KeysOf;
      assert multiset(r.added + [k]) == multiset(r.added) + multiset{k};
      assert multiset(r.updated + [k]) == multiset(r.updated) + multiset{k};
    }
  }

  /** For distinct keys the lists say what they are named for. */
  lemma {:induction false} ReportIsExact<K, C>(before: map<K, C>, configs: seq<(K, C)>, k: K)
    requires Distinct(KeysOf(configs))
    ensures var r, after := Classify(before, configs), LastWins(configs);
            && (k in r.added <==> k in after && k !in before)
            && (k in r.updated <==> k in after && k in before && before[k] != after[k])
            && (k in r.same <==> k in after && k in before && before[k] == after[k])
            && r.removed == []
  {
    if configs != [] {
      var n := |configs| - 1;
      var older, last := configs[..n], configs[n].0;
      assert KeysOf(configs) == KeysOf(older) + [last];
      LastIsNew(configs);
      LastWinsKeys(older, last);
      ReportIsExact(before, older, k);
    }
  }

  lemma LastIsNew<K, C>(configs: seq<(K, C)>)
    requires configs != [] && Distinct(KeysOf(configs))
    ensures var n := |configs| - 1;
            configs[n].0 !in KeysOf(configs[..n]) && Distinct(KeysOf(configs[..n]))
  {
    var n := |configs| - 1;
    var keys, older := KeysOf(configs), KeysOf(configs[..n]);
    assert forall i :: 0 <= i < n ==> older[i] == keys[i];
    assert keys[n] == configs[n].0;
  }

  lemma ClassifyStep<K, C>(before: map<K, C>, configs: seq<(K, C)>, i: nat)
    requires i < |configs|
    ensures var older, (k, c) := configs[..i], configs[i];
            var r, b, now := Classify(before, older), Built(before, older), before + LastWins(older);
            && Classify(before, configs[..i + 1]) ==
                 (if k !in now then r.(added := r.added + [k])
                  else if now[k] == c then r.(same := r.same + [k])
                  else r.(updated := r.updated + [k]))
            && Built(before, configs[..i + 1]) == (if k in now && now[k] == c then b else b + [(k, c)])
            && before + LastWins(configs[..i + 1]) == now[k := c]
  {
    assert configs[..i + 1][..i] == configs[..i];
  }

  // ---- the tree as a value ----

  datatype State<K, C, S> = State(nodes: map<K, Node<C>>, services: map<K, nat>, slots: seq<Slot<S>>)

  /** Both maps have the same keys and share channels, no two keys share one, and each channel
      publishes the service built from its node's configuration. */
  ghost predicate Valid<K(!new), C, S>(st: State<K, C, S>, build: (K, C) -> S) {
    && st.nodes.Keys == st.services.Keys
    && (forall k :: k in st.nodes ==> NodeOk(st, build, k))
    && (forall j, k :: j in st.nodes && k in st.nodes && j != k ==> st.nodes[j].chan != st.nodes[k].chan)
  }

  ghost predicate NodeOk<K(!new), C, S>(st: State<K, C, S>, build: (K, C) -> S, k: K)
    requires k in st.nodes && st.nodes.Keys == st.services.Keys
  {
    && st.services[k] == st.nodes[k].chan < |st.slots|
    && st.slots[st.nodes[k].chan] == Ready(build(k, st.nodes[k].config))
  }

  ghost function Configs<K(!new), C, S>(st: State<K, C, S>): map<K, C> {
    map k | k in st.nodes :: st.nodes[k].config
  }

  function Grown<K(==), C, S>(st: State<K, C, S>, key: K, cfg: C, service: S): State<K, C, S> {
    State(st.nodes[key := Node(cfg, |st.slots|)], st.services[key := |st.slots|], st.slots + [Ready(service)])
  }

  function Swapped<K(==), C, S>(st: State<K, C, S>, key: K, cfg: C, service: S): State<K, C, S>
    requires key in st.nodes && st.nodes[key].chan < |st.slots|
  {
    var node := st.nodes[key];
    State(st.nodes[key := Node(cfg, node.chan)], st.services, st.slots[node.chan := Ready(service)])
  }

  function Shrunk<K(==), C, S>(st: State<K, C, S>, gone: set<K>): State<K, C, S> {
    State(st.nodes - gone, st.services - gone, st.slots)
  }

  lemma GrownNode<K(!new), C, S>(st: State<K, C, S>, build: (K, C) -> S, key: K, cfg: C, k: K)
    requires Valid(st, build) && key !in st.nodes && (k == key || k in st.nodes)
    ensures var st' := Grown(st, key, cfg, build(key, cfg));
            && st'.nodes.Keys == st'.services.Keys && NodeOk(st', build, k)
            && (k != key ==> st'.nodes[k].chan == st.nodes[k].chan < |st.slots|)
  {
    if k != key {
      assert NodeOk(st, build, k);
    }
  }

  lemma GrownValid<K(!new), C, S>(st: State<K, C, S>, build: (K, C) -> S, key: K, cfg: C)
    requires Valid(st, build) && key !in st.nodes
    ensures Valid(Grown(st, key, cfg, build(key, cfg)), build)
    ensures Configs(Grown(st, key, cfg, build(key, cfg))) == Configs(st)[key := cfg]
  {
    hide NodeOk;
    var st' := Grown(st, key, cfg, build(key, cfg));
    forall k | k in st'.nodes ensures st'.nodes.Keys == st'.services.Keys && NodeOk(st', build, k) {
      GrownNode(st, build, key, cfg, k);
    }
    forall j, k | j in st'.nodes && k in st'.nodes && j != k ensures st'.nodes[j].chan != st'.nodes[k].chan {
      GrownNode(st, build, key, cfg, j);
      GrownNode(st, build, key, cfg, k);
    }
  }

  lemma SwappedValid<K(!new), C, S>(st: State<K, C, S>, build: (K, C) -> S, key: K, cfg: C)
    requires Valid(st, build) && key in st.nodes && NodeOk(st, build, key)
    ensures Valid(Swapped(st, key, cfg, build(key, cfg)), build)
    ensures Configs(Swapped(st, key, cfg, build(key, cfg))) == Configs(st)[key := cfg]
  {
    var st' := Swapped(st, key, cfg, build(key, cfg));
    forall k | k in st'.nodes ensures NodeOk(st', build, k) {
      assert NodeOk(st, build, k);
    }
  }

  lemma ShrunkValid<K(!new), C, S>(st: State<K, C, S>, build: (K, C) -> S, gone: set<K>)
    requires Valid(st, build)
    ensures Valid(Shrunk(st, gone), build) && Configs(Shrunk(st, gone)) == Configs(st) - gone
  {
    var st' := Shrunk(st, gone);
    forall k | k in st'.nodes ensures NodeOk(st', build, k) {
      assert NodeOk(st, build, k);
    }
  }

  // ---- the tree ----

  class Tree<K(==, !new), C(==), S> {
    const build: (K, C) -> S
    var nodes: map<K, Node<C>>
    var services: map<K, nat>
    var slots: seq<Slot<S>>
    var builds: seq<(K, C)>

    constructor (build: (K, C) -> S)
      ensures this.build == build && Valid(View(), build) && Configs(View()) == map[] && builds == []
    {
      this.build, nodes, services, slots, builds := build, map[], map[], [], [];
    }

    ghost function View(): State<K, C, S>
      reads this
    {
      State(nodes, services, slots)
    }

    /** Adds a node with its own channel, already serving. */
    method Add(key: K, cfg: C)
      modifies this
      ensures View() == Grown(old(View()), key, cfg, build(key, cfg)) && builds == old(builds) + [(key, cfg)]
    {
      var service := build(key, cfg);
      builds := builds + [(key, cfg)];
      nodes := nodes[key := Node(cfg, |slots|)];
      services := services[key := |slots|];
      slots := slots + [Ready(service)];
    }

    /** Rebuilds and swaps only when the configuration differs. The tree itself keeps a consumer of the
        channel, so publishing cannot fail. */
    method Reconfigure(key: K, cfg: C) returns (swapped: bool)
      requires key in nodes && nodes[key].chan < |slots|
      modifies this
      ensures swapped == (old(nodes)[key].config != cfg)
      ensures !swapped ==> View() == old(View()) && builds == old(builds)
      ensures swapped ==>
                View() == Swapped(old(View()), key, cfg, build(key, cfg)) && builds == old(builds) + [(key, cfg)]
    {
      var node := nodes[key];
      if node.config == cfg {
        return false;
      }
      var service := build(key, cfg);
      builds := builds + [(key, cfg)];
      nodes := nodes[key := node.(config := cfg)];
      slots := slots[node.chan := Updating];
      slots := slots[node.chan := Ready(service)];
      assert slots == old(slots)[node.chan := Ready(service)];
      return true;
    }

    /** One entry of the new configuration. */
    method ApplyOne(key: K, cfg: C, r: Report<K>) returns (r': Report<K>)
      requires Valid(View(), build)
      modifies this
      ensures Valid(View(), build) && Configs(View()) == old(Configs(View()))[key := cfg]
      ensures forall k :: k in old(services) ==> k in services && services[k] == old(services)[k]
      ensures var now := old(Configs(View()));
              if key !in now then r' == r.(added := r.added + [key]) && builds == old(builds) + [(key, cfg)]
              else if now[key] == cfg then
                r' == r.(same := r.same + [key]) && builds == old(builds) && slots == old(slots)
              else r' == r.(updated := r.updated + [key]) && builds == old(builds) + [(key, cfg)]
    {
      if key in nodes {
        assert NodeOk(View(), build, key);
        SwappedValid(View(), build, key, cfg);
        var swapped := Reconfigure(key, cfg);
        if swapped {
          r' := r.(updated := r.updated + [key]);
        } else {
          r' := r.(same := r.same + [key]);
          assert Configs(View()) == old(Configs(View()))[key := cfg];
        }
      } else {
        GrownValid(View(), build, key, cfg);
        Add(key, cfg);
        r' := r.(added := r.added + [key]);
      }
    }

    /** First half of a reconcile: apply every entry in order. */
    method ApplyAll(configs: seq<(K, C)>) returns (r: Report<K>)
      requires Valid(View(), build)
      modifies this
      ensures Valid(View(), build) && Configs(View()) == old(Configs(View())) + LastWins(configs)
      ensures r == Classify(old(Configs(View())), configs)
      ensures builds == old(builds) + Built(old(Configs(View())), configs)
      ensures forall k :: k in old(services) ==> k in services && services[k] == old(services)[k]
    {
      hide Valid, Configs;
      r := Report([], [], [], []);
      ghost var before := Configs(View());
      for i := 0 to |configs|
        invariant Valid(View(), build) && Configs(View()) == before + LastWins(configs[..i])
        invariant r == Classify(before, configs[..i])
        invariant builds == old(builds) + Built(before, configs[..i])
        invariant forall k :: k in old(services) ==> k in services && services[k] == old(services)[k]
      {
        ClassifyStep(before, configs, i);
        hide Classify, Built, LastWins;
        r := ApplyOne(configs[i].0, configs[i].1, r);
      }
      assert configs[..|configs|] == configs;
    }

    /** Second half: drop every key the new configuration does not mention. */
    method DropStale(seen: set<K>) returns (removed: seq<K>)
      modifies this`nodes, this`services
      ensures View() == Shrunk(old(View()), old(nodes).Keys - seen)
      ensures Distinct(removed) && forall k :: k in removed <==> k in old(nodes) && k !in seen
    {
      removed := [];
      var stale := nodes.Keys - seen;
      ghost var all := stale;
      while stale != {}
        invariant stale <= all && Distinct(removed)
        invariant forall k :: k in removed <==> k in all && k !in stale
        invariant nodes == old(nodes) - (all - stale) && services == old(services) - (all - stale)
        decreases stale
      {
        var key :| key in stale;
        ghost var gone := all - stale;
        stale := stale - {key};
        assert all - stale == gone + {key};
        nodes := nodes - {key};
        services := services - {key};
        removed := removed + [key];
      }
      assert all - stale == all;
    }

    /** After a reconcile the tree is what building the given configurations from scratch would give,
        and only added or changed keys were built. */
    method Reconcile(configs: seq<(K, C)>) returns (r: Report<K>)
      requires Valid(View(), build)
      modifies this
      ensures Valid(View(), build) && Configs(View()) == LastWins(configs)
      ensures nodes.Keys == services.Keys == LastWins(configs).Keys
      ensures forall k :: k in LastWins(configs) ==> Serves(View(), k, build(k, LastWins(configs)[k]))
      ensures r.(removed := []) == Classify(old(Configs(View())), configs)
      ensures Distinct(r.removed) && forall k :: k in r.removed <==> k in old(nodes) && k !in LastWins(configs)
      ensures builds == old(builds) + Built(old(Configs(View())), configs)
      ensures forall k :: k in services && k in old(services) ==> services[k] == old(services)[k]
    {
      hide Classify, Built, LastWins, Valid, Distinct;
      ghost var before := Configs(View());
      assert before.Keys == nodes.Keys;
      r := ApplyAll(configs);
      ClassifyRemovesNone(before, configs);
      ghost var middle, st := Configs(View()), View();
      assert middle.Keys == nodes.Keys;
      var seen := set i | 0 <= i < |configs| :: configs[i].0;
      SeenKeys(configs, seen);
      ShrunkValid(st, build, nodes.Keys - seen);
      var removed := DropStale(seen);
      r := r.(removed := removed);
      assert Configs(View()) == middle - (middle.Keys - seen);
      assert middle - (middle.Keys - seen) == LastWins(configs);
      TreeServes(View(), build, LastWins(configs));
    }
  }

  /** A reader of key `k` finds this service ready. */
  predicate Serves<K(==), C, S(==)>(st: State<K, C, S>, k: K, service: S) {
    k in st.services && st.services[k] < |st.slots| && st.slots[st.services[k]] == Ready(service)
  }

  lemma TreeServes<K(!new), C, S>(st: State<K, C, S>, build: (K, C) -> S, configs: map<K, C>)
    requires Valid(st, build) && Configs(st) == configs
    ensures st.nodes.Keys == st.services.Keys == configs.Keys
    ensures forall k :: k in configs ==> Serves(st, k, build(k, configs[k]))
  {
    assert Configs(st).Keys == st.nodes.Keys;
    forall k | k in configs ensures Serves(st, k, build(k, configs[k])) {
      assert NodeOk(st, build, k);
    }
  }

  lemma SeenKeys<K(!new), C>(configs: seq<(K, C)>, seen: set<K>)
    requires seen == set i | 0 <= i < |configs| :: configs[i].0
    ensures seen == LastWins(configs).Keys
  {
    forall k ensures k in LastWins(configs) <==> k in seen {
      LastWinsKeys(configs, k);
      if k in KeysOf(configs) {
        var i :| 0 <= i < |configs| && KeysOf(configs)[i] == k;
        assert configs[i].0 == k;
      }
      if k in seen {
        var i :| 0 <= i < |configs| && configs[i].0 == k;
        assert KeysOf(configs)[i] == k;
      }
    }
  }

  lemma {:induction false} ClassifyRemovesNone<K, C>(before: map<K, C>, configs: seq<(K, C)>)
    ensures Classify(before, configs).removed == []
  {
    if configs != [] {
      ClassifyRemovesNone(before, configs[..|configs| - 1]);
    }
  }
}
