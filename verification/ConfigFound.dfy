/** What a reader of the compiled sections finds, told from the documents: the groups of
    LPs and the parameters that src/modelconfig/config_compiler.cxx makes of a topology. */
module ConfigFound {
  import opened ConfigCompile
  import opened ConfigEqual
  import opened ConfigMerge
  import opened NamedLists
  import opened Options
  import opened Seqs
  import Decimal
  import JobPlacement

  /* ---- what the items of a fabric block give ---- */

  // The entries that an item has for each list of a fabric.
  function ShapeIn(e: FabricItem): Pairs {
    if e.Shape? then e.pairs else []
  }

  function LinksIn(e: FabricItem): seq<LinkClass> {
    if e.Links? then e.classes else []
  }

  function RoutingIn(e: FabricItem): Pairs {
    if e.Routing? then e.pairs else []
  }

  function ConnectionsIn(e: FabricItem): Pairs {
    if e.Connections? then e.pairs else []
  }

  function ScalarsIn(e: FabricItem): Pairs {
    if e.ScalarParam? then [(e.name, e.value)] else []
  }

  function ListsIn(e: FabricItem): seq<(string, seq<string>)> {
    if e.ListParam? then [(e.name, e.values)] else []
  }

  // Those of all items, one after the other.
  function Gather<T>(items: seq<FabricItem>, part: FabricItem -> seq<T>): seq<T> {
    if items == [] then [] else Gather(items[..|items| - 1], part) + part(items[|items| - 1])
  }

  // A fabric block holds the entries of its items in the order of the document, each list
  // those of its own kind.
  lemma {:induction false} ItemsExact(items: seq<FabricItem>)
    ensures var f := AddItems(NO_FABRIC, items);
            && f.shape == Gather(items, ShapeIn) && f.links == Gather(items, LinksIn)
            && f.routing == Gather(items, RoutingIn) && f.connections == Gather(items, ConnectionsIn)
            && f.extra == Gather(items, ScalarsIn) && f.extraLists == Gather(items, ListsIn)
  {
    if items != [] {
      ItemsExact(items[..|items| - 1]);
    }
  }

  // And the model that is named last, if one is.
  lemma {:induction false} ModelIsLast(items: seq<FabricItem>, i: int)
    requires -1 <= i < |items| && (i >= 0 ==> items[i].ModelName?) && forall j :: i < j < |items| ==> !items[j].ModelName?
    ensures AddItems(NO_FABRIC, items).model == if i < 0 then "" else items[i].model
    decreases |items|
  {
    if i < |items| - 1 {
      ModelIsLast(items[..|items| - 1], i);
    }
  }

  // One block of a kind gives the whole list.
  lemma {:induction false} GatherOne<T>(items: seq<FabricItem>, part: FabricItem -> seq<T>, i: nat)
    requires i < |items| && forall j :: 0 <= j < |items| && j != i ==> part(items[j]) == []
    ensures Gather(items, part) == part(items[i])
    decreases |items|
  {
    var n := |items| - 1;
    if i < n {
      GatherOne(items[..n], part, i);
    } else {
      GatherNone(items[..n], part);
    }
  }

  lemma {:induction false} GatherNone<T>(items: seq<FabricItem>, part: FabricItem -> seq<T>)
    requires forall j :: 0 <= j < |items| ==> part(items[j]) == []
    ensures Gather(items, part) == []
  {
    if items != [] {
      GatherNone(items[..|items| - 1], part);
    }
  }

  /* ---- which document says it ---- */

  // The topology is that of the last document that has one, and so are the jobs.
  lemma {:induction false} TopologyIsLast(docs: seq<Document>, n: nat)
    requires n < |docs| && docs[n].topology.Some? && forall k :: n < k < |docs| ==> docs[k].topology.None?
    ensures LastTopology(docs) == docs[n].topology
    decreases |docs|
  {
    if n < |docs| - 1 {
      TopologyIsLast(docs[..|docs| - 1], n);
    }
  }

  lemma {:induction false} JobsAreLast(docs: seq<Document>, n: nat)
    requires n < |docs| && docs[n].jobs.Some? && forall k :: n < k < |docs| ==> docs[k].jobs.None?
    ensures LastJobs(docs) == docs[n].jobs
    decreases |docs|
  {
    if n < |docs| - 1 {
      JobsAreLast(docs[..|docs| - 1], n);
    }
  }

  ghost predicate Absent<V>(ci: bool, s: seq<Named<V>>, name: string) {
    forall j :: 0 <= j < |s| ==> !Same(ci, s[j].name, name)
  }

  // A definition behind which no other has its name is the last of its name.
  lemma {:induction false} LastOfAt<V>(ci: bool, s: seq<Named<V>>, name: string, k: nat)
    requires k < |s| && Same(ci, s[k].name, name) && Absent(ci, s[k + 1..], name)
    ensures LastOf(ci, s, name) == Some(s[k].value)
    decreases |s|
  {
    var n := |s| - 1;
    if k < n {
      assert s[k + 1..][n - k - 1] == s[n];
      assert s[..n][k + 1..] == s[k + 1..][..n - k - 1];
      LastOfAt(ci, s[..n], name, k);
    }
  }

  lemma {:induction false} LastOfNone<V>(ci: bool, s: seq<Named<V>>, name: string)
    requires Absent(ci, s, name)
    ensures LastOf(ci, s, name) == None
  {
    if s != [] {
      LastOfNone(ci, s[..|s| - 1], name);
    }
  }

  // Entry k of document n is what stands for its name when no later entry of the document
  // and no later document has one: for settings, sections and components.
  lemma {:induction false} SettingSaidBy(docs: seq<Document>, n: nat, k: nat, e: Named<string>)
    requires n < |docs| && k < |docs[n].simulation| && docs[n].simulation[k] == e && Absent(false, docs[n].simulation[k + 1..], e.name)
    requires forall i :: n < i < |docs| ==> Absent(false, docs[i].simulation, e.name)
    ensures LastOf(false, AllSettings(docs), e.name) == Some(e.value)
    decreases |docs|
  {
    var m := |docs| - 1;
    LastOfConcat(false, AllSettings(docs[..m]), docs[m].simulation, e.name);
    if n < m {
      SettingSaidBy(docs[..m], n, k, e);
      LastOfNone(false, docs[m].simulation, e.name);
    } else {
      SameIsEquivalence(false, e.name, e.name, e.name);
      LastOfAt(false, docs[m].simulation, e.name, k);
    }
  }

  lemma {:induction false} SectionSaidBy(docs: seq<Document>, n: nat, k: nat, e: Named<Section>)
    requires n < |docs| && k < |docs[n].sections| && docs[n].sections[k] == e && Absent(true, docs[n].sections[k + 1..], e.name)
    requires forall i :: n < i < |docs| ==> Absent(true, docs[i].sections, e.name)
    ensures LastOf(true, AllSections(docs), e.name) == Some(e.value)
    decreases |docs|
  {
    var m := |docs| - 1;
    LastOfConcat(true, AllSections(docs[..m]), docs[m].sections, e.name);
    if n < m {
      SectionSaidBy(docs[..m], n, k, e);
      LastOfNone(true, docs[m].sections, e.name);
    } else {
      SameIsEquivalence(true, e.name, e.name, e.name);
      LastOfAt(true, docs[m].sections, e.name, k);
    }
  }

  lemma {:induction false} ComponentSaidBy(docs: seq<Document>, n: nat, k: nat, e: Named<Component>)
    requires n < |docs| && k < |docs[n].components| && docs[n].components[k] == e && Absent(false, docs[n].components[k + 1..], e.name)
    requires forall i :: n < i < |docs| ==> Absent(false, docs[i].components, e.name)
    ensures LastOf(false, AllComponents(docs), e.name) == Some(e.value)
    decreases |docs|
  {
    var m := |docs| - 1;
    LastOfConcat(false, AllComponents(docs[..m]), docs[m].components, e.name);
    if n < m {
      ComponentSaidBy(docs[..m], n, k, e);
      LastOfNone(false, docs[m].components, e.name);
    } else {
      SameIsEquivalence(false, e.name, e.name, e.name);
      LastOfAt(false, docs[m].components, e.name, k);
    }
  }

  /* ---- the parameters ---- */

  // A lookup of the parameter gives its values, each resolved.
  ghost predicate ReadsAs(m: Models, s: Section, p: UserParam) {
    var found := FindKey(s, p.0);
    && found.Some? && |found.value| == |p.1|
    && forall k :: 0 <= k < |p.1| ==> m.resolve(p.0, p.1[k]) == Some(found.value[k])
  }

  lemma ReadsOne(m: Models, s: Section, name: string, value: string)
    requires ReadsAs(m, s, (name, [value]))
    ensures m.resolve(name, value).Some? && FindKey(s, name) == Some([m.resolve(name, value).value])
  {
    var found := FindKey(s, name).value;
    assert m.resolve(name, [value][0]) == Some(found[0]);
    assert found == [found[0]];
  }

  // The first parameter of its name is what lookup finds in PARAMS, with its values
  // resolved.
  lemma FabricParamFound(c: Friendly, m: Models, out: seq<Entry>, host: Component, i: nat)
    requires JobPlacement.AllParsed(c.jobs) && Compiles(c, m, out) && c.topology.parametric && !c.topology.explicitGroups
    requires Find(false, c.components, c.topology.fab.host) == Some(host)
    requires var ps := FabricParams(c.topology.fab, host); i < |ps| && forall j :: 0 <= j < i ==> ps[j].0 != ps[i].0
    ensures |out| >= 2 && out[1].Sub?
    ensures ReadsAs(m, out[1].section, FabricParams(c.topology.fab, host)[i])
  {
    var b, ps := BaseOf(c, m).value, FabricParams(c.topology.fab, host);
    FabricExact(m, host, ps);
    ParamFound(m, ps, b, c.simulation, i);
    TopologyInOutput(b.groups, Section(b.params.keys + Settings(c.simulation) + b.params.subs), WorkloadOf(c, b.slots), c.passthrough);
  }

  lemma FlatParamFound(c: Friendly, m: Models, out: seq<Entry>, comp: Component, i: nat)
    requires JobPlacement.AllParsed(c.jobs) && Compiles(c, m, out)
    requires c.topology.flat && !c.topology.parametric && !c.topology.explicitGroups
    requires Find(false, c.components, c.topology.flatComponent) == Some(comp)
    requires i < |comp.params| && forall j :: 0 <= j < i ==> comp.params[j].0 != comp.params[i].0
    ensures |out| >= 2 && out[1].Sub?
    ensures ReadsAs(m, out[1].section, (comp.params[i].0, [comp.params[i].1]))
  {
    var b, ps := BaseOf(c, m).value, Singles(comp.params);
    FlatExact(c, m);
    ParamFound(m, ps, b, c.simulation, i);
    TopologyInOutput(b.groups, Section(b.params.keys + Settings(c.simulation) + b.params.subs), WorkloadOf(c, b.slots), c.passthrough);
  }

  lemma ParamFound(m: Models, ps: seq<UserParam>, b: Base, s: seq<Named<string>>, i: nat)
    requires i < |ps| && forall j :: 0 <= j < i ==> ps[j].0 != ps[i].0
    requires |b.params.keys| == 1 + |ps| && b.params.keys[0].name == ORDER
    requires forall j :: 0 <= j < |ps| ==> Resolvable(m, ps[j]) && KeyOf(m, ps[j], b.params.keys[1 + j])
    ensures ReadsAs(m, Section(b.params.keys + Settings(s) + b.params.subs), ps[i])
  {
    var es := b.params.keys + Settings(s) + b.params.subs;
    forall j | 0 <= j < 1 + i ensures es[j].name != ps[i].0 {
      assert es[j] == b.params.keys[j];
      if j > 0 {
        assert KeyOf(m, ps[j - 1], b.params.keys[1 + (j - 1)]);
      }
    }
    assert es[1 + i] == b.params.keys[1 + i];
    JobPlacement.FindKeyAt(es, ps[i].0, 1 + i);
  }

  // From the documents: the one routing block of the last topology says which routing the
  // parameters give, when nothing before it is called routing.
  lemma RoutingIsSaid(docs: seq<Document>, m: Models, out: seq<Entry>, n: nat, i: nat, k: nat, host: Component)
    requires AllOk(docs) && JobPlacement.AllParsed(Merged(docs).jobs) && Compiles(Merged(docs), m, out)
    requires n < |docs| && docs[n].topology.Some? && docs[n].topology.value.ParametricDoc? && forall j :: n < j < |docs| ==> docs[j].topology.None?
    requires var items := docs[n].topology.value.items;
             && i < |items| && items[i].Routing? && (forall j :: 0 <= j < |items| && j != i ==> !items[j].Routing?)
             && k < |items[i].pairs| && items[i].pairs[k].0 == "algorithm"
    requires Find(false, Merged(docs).components, docs[n].topology.value.host) == Some(host)
    requires var f := Merged(docs).topology.fab;
             forall j :: 0 <= j < |f.shape| + |LinkParams(f.links)| + k && j < |FabricParams(f, host)| ==> FabricParams(f, host)[j].0 != "routing"
    ensures |out| >= 2 && out[1].Sub? && FindSubIn(out, "PARAMS") == Some(out[1].section)
    ensures var algorithm := docs[n].topology.value.items[i].pairs[k].1;
            m.resolve("routing", algorithm).Some? && FindKey(out[1].section, "routing") == Some([m.resolve("routing", algorithm).value])
  {
    FabricSaidBy(docs, n);
    GatherOne(docs[n].topology.value.items, RoutingIn, i);
    RoutingFound(Merged(docs), m, out, k, host);
    TopologyFound(Merged(docs), m, out);
  }

  // The fabric of the merged configuration.
  lemma FabricSaidBy(docs: seq<Document>, n: nat)
    requires n < |docs| && docs[n].topology.Some? && docs[n].topology.value.ParametricDoc? && forall j :: n < j < |docs| ==> docs[j].topology.None?
    ensures var t, items := Merged(docs).topology, docs[n].topology.value.items;
            && t.parametric && !t.flat && !t.explicitGroups && t.fab.host == docs[n].topology.value.host
            && t.fab.shape == Gather(items, ShapeIn) && t.fab.links == Gather(items, LinksIn)
            && t.fab.routing == Gather(items, RoutingIn) && t.fab.connections == Gather(items, ConnectionsIn)
            && t.fab.extra == Gather(items, ScalarsIn) && t.fab.extraLists == Gather(items, ListsIn)
  {
    TopologyIsLast(docs, n);
    ItemsExact(docs[n].topology.value.items);
  }

  lemma RoutingFound(c: Friendly, m: Models, out: seq<Entry>, k: nat, host: Component)
    requires JobPlacement.AllParsed(c.jobs) && Compiles(c, m, out) && c.topology.parametric && !c.topology.explicitGroups
    requires Find(false, c.components, c.topology.fab.host) == Some(host)
    requires k < |c.topology.fab.routing| && c.topology.fab.routing[k].0 == "algorithm"
    requires var f := c.topology.fab;
             forall j :: 0 <= j < |f.shape| + |LinkParams(f.links)| + k && j < |FabricParams(f, host)| ==> FabricParams(f, host)[j].0 != "routing"
    ensures |out| >= 2 && out[1].Sub?
    ensures var algorithm := c.topology.fab.routing[k].1;
            m.resolve("routing", algorithm).Some? && FindKey(out[1].section, "routing") == Some([m.resolve("routing", algorithm).value])
  {
    var f := c.topology.fab;
    RoutingAt(f, host, k);
    FabricParamFound(c, m, out, host, |f.shape| + |LinkParams(f.links)| + k);
    ReadsOne(m, out[1].section, "routing", f.routing[k].1);
  }

  lemma RoutingAt(f: Fabric, host: Component, k: nat)
    requires k < |f.routing| && f.routing[k].0 == "algorithm"
    ensures var at := |f.shape| + |LinkParams(f.links)| + k;
            at < |FabricParams(f, host)| && FabricParams(f, host)[at] == ("routing", [f.routing[k].1])
  {
    FabricParamAt(f, host, |f.shape| + |LinkParams(f.links)| + k);
  }

  /* ---- the groups of LPs ---- */

  // A lookup of the name gives this number in decimal.
  ghost predicate ReadsNumber(s: Section, name: string, n: int) {
    FindKey(s, name) == Some([Decimal.ShowInt(n)])
  }

  // The one group of a fabric: the keys stand in the order of the model, and the workload
  // and its terminal are there once for each terminal, the router as often as it is said.
  lemma FabricLps(m: Models, host: Component, ps: seq<UserParam>)
    requires FabricWith(m, host, ps).Some?
    ensures var b, lay, model := FabricWith(m, host, ps).value, m.layout.value, m.fabric.value;
            && FindSub(b.groups, "MODELNET_GRP").Some?
            && var es := FindSub(b.groups, "MODELNET_GRP").value.entries;
               && |es| == 3 + (if model.routerLp.Some? then 1 else 0)
               && es[0] == Key("repetitions", [Decimal.ShowInt(lay.repetitions)])
               && es[1] == Key(host.model, [Decimal.ShowInt(lay.terminals)])
               && es[2] == Key(model.terminalLp, [Decimal.ShowInt(lay.terminals)])
               && (model.routerLp.Some? ==> es[3] == Key(model.routerLp.value, [Decimal.ShowInt(lay.routers)]))
  {
    OnlyGroup(FabricWith(m, host, ps).value.groups);
  }

  lemma OnlyGroup(groups: Section)
    requires |groups.entries| == 1 && groups.entries[0].Sub? && groups.entries[0].name == "MODELNET_GRP"
    ensures FindSub(groups, "MODELNET_GRP") == Some(groups.entries[0].section)
  {
    JobPlacement.FindSubAt(groups.entries, "MODELNET_GRP", 0);
  }

  // Keys with different names are all found.
  lemma FoundAt(s: Section, i: nat)
    requires i < |s.entries| && s.entries[i].Key? && forall j :: 0 <= j < i ==> s.entries[j].name != s.entries[i].name
    ensures FindKey(s, s.entries[i].name) == Some(s.entries[i].values)
  {
    JobPlacement.FindKeyAt(s.entries, s.entries[i].name, i);
  }

  // What lookups in the compiled document give for a fabric, and that the number of node
  // slots is the product of the two numbers read.
  lemma FabricLpsFound(c: Friendly, m: Models, out: seq<Entry>, host: Component)
    requires JobPlacement.AllParsed(c.jobs) && Compiles(c, m, out) && c.topology.parametric && !c.topology.explicitGroups
    requires Find(false, c.components, c.topology.fab.host) == Some(host)
    ensures m.layout.Some? && m.fabric.Some? && FindSubIn(out, "LPGROUPS").Some?
    ensures FindSub(FindSubIn(out, "LPGROUPS").value, "MODELNET_GRP").Some?
    ensures var g, lay, model := FindSub(FindSubIn(out, "LPGROUPS").value, "MODELNET_GRP").value, m.layout.value, m.fabric.value;
            && ReadsNumber(g, "repetitions", lay.repetitions)
            && (host.model != "repetitions" ==> ReadsNumber(g, host.model, lay.terminals))
            && (model.terminalLp != "repetitions" ==> ReadsNumber(g, model.terminalLp, lay.terminals))
            && (model.routerLp.Some? && model.routerLp.value !in ["repetitions", host.model, model.terminalLp] ==>
                 ReadsNumber(g, model.routerLp.value, lay.routers))
            && BaseOf(c, m).value.slots == lay.repetitions * lay.terminals
  {
    var b := BaseOf(c, m).value;
    FabricLps(m, host, FabricParams(c.topology.fab, host));
    TopologyInOutput(b.groups, Section(b.params.keys + Settings(c.simulation) + b.params.subs), WorkloadOf(c, b.slots), c.passthrough);
    LpsRead(FindSub(b.groups, "MODELNET_GRP").value, host.model, m.fabric.value, m.layout.value);
  }

  lemma LpsRead(g: Section, workload: string, model: FabricModel, lay: Layout)
    requires |g.entries| == 3 + if model.routerLp.Some? then 1 else 0
    requires g.entries[0] == Key("repetitions", [Decimal.ShowInt(lay.repetitions)])
    requires g.entries[1] == Key(workload, [Decimal.ShowInt(lay.terminals)])
    requires g.entries[2] == Key(model.terminalLp, [Decimal.ShowInt(lay.terminals)])
    requires model.routerLp.Some? ==> g.entries[3] == Key(model.routerLp.value, [Decimal.ShowInt(lay.routers)])
    ensures ReadsNumber(g, "repetitions", lay.repetitions)
    ensures workload != "repetitions" ==> ReadsNumber(g, workload, lay.terminals)
    ensures model.terminalLp != "repetitions" ==> ReadsNumber(g, model.terminalLp, lay.terminals)
    ensures model.routerLp.Some? && model.routerLp.value !in ["repetitions", workload, model.terminalLp] ==>
              ReadsNumber(g, model.routerLp.value, lay.routers)
  {
    FoundAt(g, 0);
    if workload != "repetitions" {
      FoundAt(g, 1);
      if model.terminalLp != "repetitions" && model.terminalLp != workload {
        FoundAt(g, 2);
      }
    } else if model.terminalLp != "repetitions" {
      FoundAt(g, 2);
    }
    if model.routerLp.Some? && model.routerLp.value !in ["repetitions", workload, model.terminalLp] {
      assert model.routerLp.value != "repetitions" && model.routerLp.value != workload && model.routerLp.value != model.terminalLp;
      FoundAt(g, 3);
    }
  }

  // The same for a flat topology: one workload and one NIC for each of its nodes.
  lemma FlatLpsFound(c: Friendly, m: Models, out: seq<Entry>, comp: Component)
    requires JobPlacement.AllParsed(c.jobs) && Compiles(c, m, out)
    requires c.topology.flat && !c.topology.parametric && !c.topology.explicitGroups
    requires Find(false, c.components, c.topology.flatComponent) == Some(comp)
    ensures m.network.Some? && FindSubIn(out, "LPGROUPS").Some?
    ensures FindSub(FindSubIn(out, "LPGROUPS").value, "MODELNET_GRP").Some?
    ensures var g, nic := FindSub(FindSubIn(out, "LPGROUPS").value, "MODELNET_GRP").value, m.network.value.nicLp;
            && g.entries == [Key("repetitions", [Decimal.ShowInt(c.topology.nodeCount)]), Key(comp.model, ["1"]), Key(nic, ["1"])]
            && ReadsNumber(g, "repetitions", c.topology.nodeCount)
            && (comp.model != "repetitions" ==> FindKey(g, comp.model) == Some(["1"]))
            && (nic != "repetitions" ==> FindKey(g, nic) == Some(["1"]))
            && BaseOf(c, m).value.slots == c.topology.nodeCount
  {
    var b := BaseOf(c, m).value;
    OnlyGroup(b.groups);
    TopologyInOutput(b.groups, Section(b.params.keys + Settings(c.simulation) + b.params.subs), WorkloadOf(c, b.slots), c.passthrough);
    NodesRead(b.groups.entries[0].section, c.topology.nodeCount, comp.model, m.network.value.nicLp);
  }

  lemma NodesRead(g: Section, nodes: int, workload: string, nic: string)
    requires g.entries == [Key("repetitions", [Decimal.ShowInt(nodes)]), Key(workload, ["1"]), Key(nic, ["1"])]
    ensures ReadsNumber(g, "repetitions", nodes)
    ensures workload != "repetitions" ==> FindKey(g, workload) == Some(["1"])
    ensures nic != "repetitions" ==> FindKey(g, nic) == Some(["1"])
  {
    FoundAt(g, 0);
    if workload != "repetitions" {
      FoundAt(g, 1);
    }
    if nic != "repetitions" && nic != workload {
      FoundAt(g, 2);
    }
  }

  // An explicit group: its repetitions first and then its LP types in order, each with its
  // count.
  ghost predicate IsGroup(s: Section, t: Group) {
    && |s.entries| == 1 + |t.lps| && s.entries[0] == Key("repetitions", [Decimal.ShowInt(t.repetitions)])
    && forall k :: 0 <= k < |t.lps| ==> s.entries[1 + k] == Key(t.lps[k].0, [Decimal.ShowInt(t.lps[k].1)])
  }

  lemma GroupEntry(c: Friendly, i: nat)
    requires GroupsBase(c).Some? && i < |c.topology.groups|
    ensures var es := GroupsBase(c).value.groups.entries;
            |es| == |c.topology.groups| && es[i].Sub? && es[i].name == c.topology.groups[i].name && IsGroup(es[i].section, c.topology.groups[i])
  {
    var t := c.topology.groups[i];
    assert GroupsBase(c).value.groups.entries[i] == Sub(t.name, GroupSection(t));
  }

  // Each group that comes first under its name opens.
  lemma GroupFound(c: Friendly, m: Models, out: seq<Entry>, i: nat)
    requires JobPlacement.AllParsed(c.jobs) && Compiles(c, m, out) && c.topology.explicitGroups
    requires i < |c.topology.groups| && forall j :: 0 <= j < i ==> !SameName(c.topology.groups[j].name, c.topology.groups[i].name)
    ensures FindSubIn(out, "LPGROUPS").Some?
    ensures |FindSubIn(out, "LPGROUPS").value.entries| == |c.topology.groups|
    ensures var g := FindSub(FindSubIn(out, "LPGROUPS").value, c.topology.groups[i].name);
            g.Some? && IsGroup(g.value, c.topology.groups[i])
    ensures |out| >= 2 && out[1] == Sub("PARAMS", Section(c.topology.params.keys + Settings(c.simulation) + c.topology.params.subs))
  {
    var b := BaseOf(c, m).value;
    TopologyInOutput(b.groups, Section(b.params.keys + Settings(c.simulation) + b.params.subs), WorkloadOf(c, b.slots), c.passthrough);
    OpenGroup(c, i);
  }

  lemma OpenGroup(c: Friendly, i: nat)
    requires GroupsBase(c).Some?
    requires i < |c.topology.groups| && forall j :: 0 <= j < i ==> !SameName(c.topology.groups[j].name, c.topology.groups[i].name)
    ensures var g := FindSub(GroupsBase(c).value.groups, c.topology.groups[i].name);
            g.Some? && IsGroup(g.value, c.topology.groups[i])
    ensures |GroupsBase(c).value.groups.entries| == |c.topology.groups|
  {
    var es, name := GroupsBase(c).value.groups.entries, c.topology.groups[i].name;
    forall j: nat | j <= i ensures es[j].Sub? && es[j].name == c.topology.groups[j].name {
      GroupEntry(c, j);
    }
    GroupEntry(c, i);
    NameBack(name, name);
    JobPlacement.FindSubAt(es, name, i);
  }

  // In an explicit group a lookup of an LP type gives the count that comes first.
  lemma GroupReads(s: Section, t: Group, k: nat)
    requires IsGroup(s, t)
    ensures ReadsNumber(s, "repetitions", t.repetitions)
    ensures k < |t.lps| && t.lps[k].0 != "repetitions" && (forall j :: 0 <= j < k ==> t.lps[j].0 != t.lps[k].0) ==>
              ReadsNumber(s, t.lps[k].0, t.lps[k].1)
  {
    FoundAt(s, 0);
    if k < |t.lps| && t.lps[k].0 != "repetitions" && forall j :: 0 <= j < k ==> t.lps[j].0 != t.lps[k].0 {
      forall j | 0 < j < 1 + k ensures s.entries[j].name != t.lps[k].0 {
        assert s.entries[1 + (j - 1)] == Key(t.lps[j - 1].0, [Decimal.ShowInt(t.lps[j - 1].1)]);
      }
      FoundAt(s, 1 + k);
    }
  }

  /* ---- the workload and the jobs ---- */

  // A lookup of parameter k of a workload: type, traffic, num_messages, payload_size or
  // arrival_time.
  ghost predicate ReadsParam(s: Section, wl: JobPlacement.Workload, k: nat)
    requires k < 5
  {
    var (name, value) := JobPlacement.Params(wl)[k];
    FindKey(s, name) == if value.Some? then Some([value.value]) else None
  }

  // The workload of the host is read from the section WORKLOAD.
  lemma WorkloadFound(c: Friendly, m: Models, out: seq<Entry>, wl: JobPlacement.Workload, k: nat)
    requires JobPlacement.AllParsed(c.jobs) && Compiles(c, m, out) && !c.topology.explicitGroups && k < 5
    requires JobPlacement.InlineWorkload(WorkloadView(c.components)) == Some(wl)
    ensures FindSubIn(out, "WORKLOAD").Some? && ReadsParam(FindSubIn(out, "WORKLOAD").value, wl, k)
  {
    FoundBehind(c, m, out, "WORKLOAD", Section(JobPlacement.WorkloadKeys(wl)));
    JobPlacement.WorkloadReads(wl, [], k);
    NoMore(JobPlacement.WorkloadKeys(wl));
  }

  lemma FoundBehind(c: Friendly, m: Models, out: seq<Entry>, name: string, s: Section)
    requires JobPlacement.AllParsed(c.jobs) && Compiles(c, m, out) && name in ["WORKLOAD", "JOBS"]
    requires WorkloadOf(c, BaseOf(c, m).value.slots) == Some(Sub(name, s))
    ensures FindSubIn(out, name) == Some(s)
  {
    var b := BaseOf(c, m).value;
    ThirdFound(b.groups, Section(b.params.keys + Settings(c.simulation) + b.params.subs), name, s, c.passthrough);
  }

  lemma ThirdFound(groups: Section, params: Section, name: string, s: Section, more: seq<Named<Section>>)
    requires name in ["WORKLOAD", "JOBS"]
    ensures FindSubIn(Output(groups, params, Some(Sub(name, s)), more), name) == Some(s)
  {
    var out := Output(groups, params, Some(Sub(name, s)), more);
    assert out[0] == Sub("LPGROUPS", groups) && out[1] == Sub("PARAMS", params) && out[2] == Sub(name, s);
    OtherNames(name);
    NameBack(name, "LPGROUPS");
    NameBack(name, "PARAMS");
    NameBack(name, name);
    JobPlacement.FindSubAt(out, name, 2);
  }

  // The jobs are read from the section JOBS: their number, and for a job that no earlier
  // one hides its nodes, its ranks and the parameters of its workload.
  lemma JobsFound(c: Friendly, m: Models, out: seq<Entry>, i: nat)
    requires JobPlacement.AllParsed(c.jobs) && Compiles(c, m, out) && !c.topology.explicitGroups
    requires c.hasJobs && i < |c.jobs| && forall k :: 0 <= k < i ==> !SameName(c.jobs[k].id, c.jobs[i].id)
    requires !(|c.jobs| == 1 && c.jobs[0].contiguous && c.jobs[0].ranks == BaseOf(c, m).value.slots)
    ensures FindSubIn(out, "JOBS").Some? && |JobPlacement.Allocations(c.jobs)| == |c.jobs|
    ensures ReadsNumber(FindSubIn(out, "JOBS").value, "num_jobs", |c.jobs|)
    ensures FindSub(FindSubIn(out, "JOBS").value, c.jobs[i].id).Some?
    ensures var j := FindSub(FindSubIn(out, "JOBS").value, c.jobs[i].id).value;
            && FindKey(j, "nodes") == Some(JobPlacement.ShowAll(JobPlacement.Allocations(c.jobs)[i])) && ReadsNumber(j, "ranks", c.jobs[i].ranks)
            && forall k: nat :: k < 5 ==> ReadsParam(j, c.jobs[i].wl, k)
  {
    var alloc := JobPlacement.Allocations(c.jobs);
    JobPlacement.RequestedCount(c.jobs);
    var jobs := JobPlacement.JobsSection(c.jobs, alloc);
    FoundBehind(c, m, out, "JOBS", jobs);
    FoundAt(jobs, 0);
    NameBack(c.jobs[i].id, c.jobs[i].id);
    JobPlacement.JobLookup(c.jobs, alloc, i, c.jobs[i].id);
    JobPlacement.NodesReadBack(c.jobs[i], alloc[i]);
    forall k: nat | k < 5 ensures ReadsParam(JobPlacement.JobSection(c.jobs[i], alloc[i]), c.jobs[i].wl, k) {
      JobReads(c.jobs[i], alloc[i], k);
    }
  }

  lemma JobReads(j: JobPlacement.Job, nodes: seq<int>, k: nat)
    requires k < 5
    ensures ReadsParam(JobPlacement.JobSection(j, nodes), j.wl, k)
  {
    assert |"ranks"| == |"nodes"| == 5 && |"type"| == 4 && |"traffic"| == 7 && |"num_messages"| == |"payload_size"| == |"arrival_time"| == 12;
    JobPlacement.WorkloadReads(j.wl, [Key("ranks", [Decimal.ShowInt(j.ranks)]), Key("nodes", JobPlacement.ShowAll(nodes))], k);
  }

  /* ---- what acceptance rules out ---- */

  // A workload sits on the component that the topology runs, and not beside jobs.
  lemma WorkloadSits(c: Friendly, m: Models, out: seq<Entry>, i: nat)
    requires JobPlacement.AllParsed(c.jobs) && Compiles(c, m, out) && !c.topology.explicitGroups
    requires i < |c.components| && c.components[i].value.workload.Some?
    ensures c.components[i].name == (if c.topology.parametric then c.topology.fab.host else c.topology.flatComponent) && !c.hasJobs
  {
    assert WorkloadView(c.components)[i] == JobPlacement.Component(c.components[i].name, c.components[i].value.workload);
    SomeInline(WorkloadView(c.components), i);
  }

  lemma {:induction false} SomeInline(cs: seq<JobPlacement.Component>, i: nat)
    requires i < |cs| && cs[i].workload.Some?
    ensures JobPlacement.InlineWorkload(cs).Some?
    decreases |cs|
  {
    if i < |cs| - 1 {
      SomeInline(cs[..|cs| - 1], i);
    }
  }

  // A resource section that is accepted says what is available.
  lemma ResourceIsComplete(docs: seq<Document>, i: nat)
    requires AllOk(docs) && i < |Merged(docs).passthrough| && SameName(Merged(docs).passthrough[i].name, "resource")
    ensures var es := Merged(docs).passthrough[i].value.entries;
            exists k :: 0 <= k < |es| && es[k].Key? && es[k].name == "available"
  {
    MergedOk(docs);
    assert SectionOk(Merged(docs).passthrough[i]);
  }

  // Explicit groups that are accepted have repetitions and LPs, all more than none.
  lemma GroupsArePositive(docs: seq<Document>, i: nat, k: nat)
    requires AllOk(docs) && Merged(docs).topology.explicitGroups && i < |Merged(docs).topology.groups|
    ensures var g := Merged(docs).topology.groups[i];
            g.repetitions > 0 && |g.lps| > 0 && (k < |g.lps| ==> g.lps[k].1 > 0)
  {
    LastFrom(docs);
    assert GroupOk(Merged(docs).topology.groups[i]);
  }

  // Accepted settings are the two that the simulation knows.
  lemma SettingsAreKnown(docs: seq<Document>, i: nat)
    requires AllOk(docs) && i < |Merged(docs).simulation|
    ensures Merged(docs).simulation[i].name == "end_time" || Merged(docs).simulation[i].name == "pe_mem_factor"
  {
    MergedOk(docs);
    assert SettingOk(Merged(docs).simulation[i]);
  }

  // Accepted jobs have different names, ranks, and as many nodes as ranks where they list
  // them.
  lemma JobsAreSound(docs: seq<Document>, i: nat)
    requires AllOk(docs) && i < |Merged(docs).jobs|
    ensures var jobs := Merged(docs).jobs;
            && jobs[i].id != "" && (forall j :: 0 <= j < |jobs| && j != i ==> jobs[j].id != jobs[i].id)
            && jobs[i].ranks > 0 && (!jobs[i].contiguous ==> |jobs[i].nodes| == jobs[i].ranks)
            && forall k :: 0 <= k < |jobs[i].nodes| ==> jobs[i].nodes[k] >= 0
  {
    MergedOk(docs);
    assert JobPlacement.Parsed(Merged(docs).jobs[i]);
  }
}
