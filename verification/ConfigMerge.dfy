/** Merging documents in src/modelconfig/config_compiler.cxx: included documents first,
    the main document last, each overriding what came before. */
module ConfigMerge {
  import opened ConfigEqual
  import opened NamedLists
  import opened Options
  import JobPlacement

  type Pairs = seq<(string, string)>

  // A component under its key.
  datatype Component = Component(model: string, network: string, params: Pairs, workload: Option<JobPlacement.Workload>)

  datatype LinkClass = LinkClass(name: string, params: Pairs)

  // The children of a fabric block, in the order of the document.
  datatype FabricItem =
    | ModelName(model: string)
    | Shape(pairs: Pairs)
    | Links(classes: seq<LinkClass>)
    | Routing(pairs: Pairs)
    | Connections(pairs: Pairs)
    | ListParam(name: string, values: seq<string>)
    | ScalarParam(name: string, value: string)

  datatype Fabric = Fabric(model: string, shape: Pairs, links: seq<LinkClass>, routing: Pairs, connections: Pairs,
                           extra: Pairs, extraLists: seq<(string, seq<string>)>, host: string)

  const NO_FABRIC := Fabric("", [], [], [], [], [], [], "")

  datatype Group = Group(name: string, repetitions: int, lps: seq<(string, int)>)

  // A section that is being built: its keys come before its subsections.
  datatype Compiled = Compiled(keys: seq<Entry>, subs: seq<Entry>) {
    ghost predicate Ok() {
      && (forall i :: 0 <= i < |keys| ==> keys[i].Key?)
      && forall i :: 0 <= i < |subs| ==> subs[i].Sub?
    }
  }

  datatype TopologyDoc =
    | ParametricDoc(items: seq<FabricItem>, host: string)
    | FlatDoc(component: string, nodes: int)
    | GroupsDoc(groups: seq<Group>, params: Compiled)

  // The fields that reset_topology clears.
  datatype Topology = Topology(parametric: bool, fab: Fabric, flat: bool, flatComponent: string, nodeCount: int,
                               explicitGroups: bool, groups: seq<Group>, params: Compiled)

  const NO_TOPOLOGY := Topology(false, NO_FABRIC, false, "", 0, false, [], Compiled([], []))

  datatype Document = Document(components: seq<Named<Component>>, topology: Option<TopologyDoc>,
                               sections: seq<Named<Section>>, simulation: seq<Named<string>>,
                               jobs: Option<seq<JobPlacement.Job>>)

  datatype Friendly = Friendly(components: seq<Named<Component>>, topology: Topology,
                               passthrough: seq<Named<Section>>, simulation: seq<Named<string>>,
                               jobs: seq<JobPlacement.Job>, hasJobs: bool)

  const EMPTY := Friendly([], NO_TOPOLOGY, [], [], [], false)

  /* ---- which documents are accepted ---- */

  // section_has_key
  predicate HasKey(s: Section, name: string) {
    exists i :: 0 <= i < |s.entries| && s.entries[i].Key? && s.entries[i].name == name
  }

  // Not a section that the compiler emits, and a resource section says what it has.
  predicate SectionOk(e: Named<Section>) {
    && !SameName(e.name, "LPGROUPS") && !SameName(e.name, "PARAMS")
    && (SameName(e.name, "resource") ==> HasKey(e.value, "available"))
  }

  predicate SettingOk(e: Named<string>) {
    e.name == "end_time" || e.name == "pe_mem_factor"
  }

  predicate GroupOk(g: Group) {
    g.repetitions > 0 && g.lps != [] && forall i :: 0 <= i < |g.lps| ==> g.lps[i].1 > 0
  }

  ghost predicate TopologyOk(t: TopologyDoc) {
    match t
    case ParametricDoc(_, _) => true
    case FlatDoc(_, nodes) => nodes > 0
    case GroupsDoc(groups, params) => groups != [] && params.Ok() && forall i :: 0 <= i < |groups| ==> GroupOk(groups[i])
  }

  predicate JobsOk(jobs: seq<JobPlacement.Job>) {
    && JobPlacement.AllParsed(jobs)
    && (forall i :: 0 <= i < |jobs| ==> jobs[i].id != "")
    && forall i, j :: 0 <= i < j < |jobs| ==> jobs[i].id != jobs[j].id
  }

  ghost predicate DocumentOk(d: Document) {
    && (d.topology.Some? ==> TopologyOk(d.topology.value))
    && (forall i :: 0 <= i < |d.sections| ==> SectionOk(d.sections[i]))
    && (forall i :: 0 <= i < |d.simulation| ==> SettingOk(d.simulation[i]))
    && (d.jobs.Some? ==> JobsOk(d.jobs.value))
  }

  ghost predicate AllOk(docs: seq<Document>) {
    forall i :: 0 <= i < |docs| ==> DocumentOk(docs[i])
  }

  /* ---- what merging means ---- */

  function AddItem(f: Fabric, item: FabricItem): Fabric {
    match item
    case ModelName(model) => f.(model := model)
    case Shape(pairs) => f.(shape := f.shape + pairs)
    case Links(classes) => f.(links := f.links + classes)
    case Routing(pairs) => f.(routing := f.routing + pairs)
    case Connections(pairs) => f.(connections := f.connections + pairs)
    case ListParam(name, values) => f.(extraLists := f.extraLists + [(name, values)])
    case ScalarParam(name, value) => f.(extra := f.extra + [(name, value)])
  }

  function AddItems(f: Fabric, items: seq<FabricItem>): Fabric {
    if items == [] then f else AddItem(AddItems(f, items[..|items| - 1]), items[|items| - 1])
  }

  // A topology block on its own.
  function TopologyOf(t: TopologyDoc): Topology {
    match t
    case ParametricDoc(items, host) => NO_TOPOLOGY.(parametric := true, fab := AddItems(NO_FABRIC, items).(host := host))
    case FlatDoc(component, nodes) => NO_TOPOLOGY.(flat := true, flatComponent := component, nodeCount := nodes)
    case GroupsDoc(groups, params) => NO_TOPOLOGY.(explicitGroups := true, groups := groups, params := params)
  }

  function AllComponents(docs: seq<Document>): seq<Named<Component>> {
    if docs == [] then [] else AllComponents(docs[..|docs| - 1]) + docs[|docs| - 1].components
  }

  function AllSections(docs: seq<Document>): seq<Named<Section>> {
    if docs == [] then [] else AllSections(docs[..|docs| - 1]) + docs[|docs| - 1].sections
  }

  function AllSettings(docs: seq<Document>): seq<Named<string>> {
    if docs == [] then [] else AllSettings(docs[..|docs| - 1]) + docs[|docs| - 1].simulation
  }

  // The last topology block, and the last jobs block.
  function LastTopology(docs: seq<Document>): Option<TopologyDoc> {
    if docs == [] then None
    else if docs[|docs| - 1].topology.Some? then docs[|docs| - 1].topology
    else LastTopology(docs[..|docs| - 1])
  }

  function LastJobs(docs: seq<Document>): Option<seq<JobPlacement.Job>> {
    if docs == [] then None
    else if docs[|docs| - 1].jobs.Some? then docs[|docs| - 1].jobs
    else LastJobs(docs[..|docs| - 1])
  }

  // The friendly config of a list of documents, said outright.
  function Merged(docs: seq<Document>): Friendly {
    Friendly(PutAll(false, [], AllComponents(docs)),
             if LastTopology(docs).Some? then TopologyOf(LastTopology(docs).value) else NO_TOPOLOGY,
             PutAll(true, [], AllSections(docs)),
             OverwriteAll([], AllSettings(docs)),
             if LastJobs(docs).Some? then LastJobs(docs).value else [],
             LastJobs(docs).Some?)
  }

  // Names are unique and stand for their last definitions; sections are looked up
  // without regard to case.
  lemma MergedExact(docs: seq<Document>, name: string)
    ensures var m := Merged(docs);
            && Unique(false, m.components) && Find(false, m.components, name) == LastOf(false, AllComponents(docs), name)
            && Unique(true, m.passthrough) && Find(true, m.passthrough, name) == LastOf(true, AllSections(docs), name)
            && Unique(false, m.simulation) && Find(false, m.simulation, name) == LastOf(false, AllSettings(docs), name)
  {
    PutAllExact(false, [], AllComponents(docs), name);
    PutAllExact(true, [], AllSections(docs), name);
    OverwriteAllExact([], AllSettings(docs), name);
  }

  /* ---- the steps of the source ---- */

  class Merger {
    var cfg: Friendly

    constructor ()
      ensures cfg == EMPTY
    {
      cfg := EMPTY;
    }

    method ParseComponents(d: Document)
      modifies this
      ensures cfg == old(cfg).(components := PutAll(false, old(cfg).components, d.components))
    {
      for i := 0 to |d.components|
        invariant cfg == old(cfg).(components := PutAll(false, old(cfg).components, d.components[..i]))
      {
        var c := d.components[i];
        assert d.components[..i + 1][..i] == d.components[..i];
        cfg := cfg.(components := Erase(false, cfg.components, c.name));
        cfg := cfg.(components := cfg.components + [c]);
      }
      assert d.components[..|d.components|] == d.components;
    }

    method ResetTopology()
      modifies this
      ensures cfg == old(cfg).(topology := NO_TOPOLOGY)
    {
      var t := cfg.topology.(parametric := false, flat := false, explicitGroups := false);
      t := t.(fab := NO_FABRIC, flatComponent := "", nodeCount := 0);
      t := t.(groups := [], params := Compiled([], []));
      cfg := cfg.(topology := t);
    }

    // parse_fabric adds to the lists of the fabric it is given.
    method ParseFabric(items: seq<FabricItem>)
      modifies this
      ensures cfg == old(cfg).(topology := old(cfg).topology.(fab := AddItems(old(cfg).topology.fab, items)))
    {
      for i := 0 to |items|
        invariant cfg == old(cfg).(topology := old(cfg).topology.(fab := AddItems(old(cfg).topology.fab, items[..i])))
      {
        assert items[..i + 1][..i] == items[..i];
        cfg := cfg.(topology := cfg.topology.(fab := AddItem(cfg.topology.fab, items[i])));
      }
      assert items[..|items|] == items;
    }

    method ParseTopology(t: TopologyDoc) returns (ok: bool)
      modifies this
      ensures ok <==> TopologyOk(t)
      ensures ok && old(cfg).topology == NO_TOPOLOGY ==> cfg == old(cfg).(topology := TopologyOf(t))
    {
      match t
      case ParametricDoc(items, host) =>
        cfg := cfg.(topology := cfg.topology.(parametric := true));
        ParseFabric(items);
        cfg := cfg.(topology := cfg.topology.(fab := cfg.topology.fab.(host := host)));
        ok := true;
      case FlatDoc(component, nodes) =>
        cfg := cfg.(topology := cfg.topology.(flat := true, flatComponent := component, nodeCount := nodes));
        ok := nodes > 0;
      case GroupsDoc(groups, params) =>
        cfg := cfg.(topology := cfg.topology.(explicitGroups := true, groups := cfg.topology.groups + groups, params := params));
        ok := groups != [] && (forall i :: 0 <= i < |groups| ==> GroupOk(groups[i]))
              && (forall i :: 0 <= i < |params.keys| ==> params.keys[i].Key?) && forall i :: 0 <= i < |params.subs| ==> params.subs[i].Sub?;
        assert ok ==> [] + groups == groups;
    }

    // The reserved names, and validate_section_schema.
    method CheckSection(s: Named<Section>) returns (ok: bool)
      ensures ok <==> SectionOk(s)
    {
      if SameName(s.name, "LPGROUPS") || SameName(s.name, "PARAMS") {
        return false;
      }
      if SameName(s.name, "resource") && !HasKey(s.value, "available") {
        return false;
      }
      ok := true;
    }

    method ParseSections(d: Document) returns (ok: bool)
      modifies this
      ensures ok <==> forall i :: 0 <= i < |d.sections| ==> SectionOk(d.sections[i])
      ensures ok ==> cfg == old(cfg).(passthrough := PutAll(true, old(cfg).passthrough, d.sections))
    {
      for i := 0 to |d.sections|
        invariant forall j :: 0 <= j < i ==> SectionOk(d.sections[j])
        invariant cfg == old(cfg).(passthrough := PutAll(true, old(cfg).passthrough, d.sections[..i]))
      {
        var s := d.sections[i];
        assert d.sections[..i + 1][..i] == d.sections[..i];
        var accepted := CheckSection(s);
        if !accepted {
          return false;
        }
        cfg := cfg.(passthrough := Erase(true, cfg.passthrough, s.name));
        cfg := cfg.(passthrough := cfg.passthrough + [s]);
      }
      assert d.sections[..|d.sections|] == d.sections;
      ok := true;
    }

    // set_simulation: the first setting of the name is overwritten, else one is added.
    method SetSimulation(e: Named<string>)
      modifies this
      ensures cfg == old(cfg).(simulation := Overwrite(old(cfg).simulation, e))
    {
      var s := cfg.simulation;
      var i := 0;
      while i < |s|
        invariant 0 <= i <= |s| && cfg == old(cfg)
        invariant Overwrite(s, e) == s[..i] + Overwrite(s[i..], e)
      {
        assert s[i..][1..] == s[i + 1..];
        if s[i].name == e.name {
          cfg := cfg.(simulation := s[i := e]);
          assert s[i := e] == s[..i] + ([e] + s[i + 1..]);
          return;
        }
        assert s[..i] + ([s[i]] + Overwrite(s[i + 1..], e)) == s[..i + 1] + Overwrite(s[i + 1..], e);
        i := i + 1;
      }
      assert s[i..] == [] && s[..i] == s;
      cfg := cfg.(simulation := s + [e]);
    }

    method ParseSimulation(d: Document) returns (ok: bool)
      modifies this
      ensures ok <==> forall i :: 0 <= i < |d.simulation| ==> SettingOk(d.simulation[i])
      ensures ok ==> cfg == old(cfg).(simulation := OverwriteAll(old(cfg).simulation, d.simulation))
    {
      for i := 0 to |d.simulation|
        invariant forall j :: 0 <= j < i ==> SettingOk(d.simulation[j])
        invariant cfg == old(cfg).(simulation := OverwriteAll(old(cfg).simulation, d.simulation[..i]))
      {
        assert d.simulation[..i + 1][..i] == d.simulation[..i];
        if d.simulation[i].name != "end_time" && d.simulation[i].name != "pe_mem_factor" {
          return false;
        }
        SetSimulation(d.simulation[i]);
      }
      assert d.simulation[..|d.simulation|] == d.simulation;
      ok := true;
    }

    method ParseJobs(d: Document) returns (ok: bool)
      modifies this
      ensures ok <==> (d.jobs.Some? ==> JobsOk(d.jobs.value))
      ensures ok ==> cfg == if d.jobs.Some? then old(cfg).(jobs := d.jobs.value, hasJobs := true) else old(cfg)
    {
      if d.jobs.None? {
        return true;
      }
      cfg := cfg.(jobs := d.jobs.value, hasJobs := true);
      ok := JobsOk(d.jobs.value);
    }

    method MergeDocument(d: Document, ghost before: seq<Document>) returns (ok: bool)
      requires cfg == Merged(before)
      modifies this
      ensures ok <==> DocumentOk(d)
      ensures ok ==> cfg == Merged(before + [d])
    {
      ParseComponents(d);
      if d.topology.Some? {
        ResetTopology();
        ok := ParseTopology(d.topology.value);
        if !ok {
          return false;
        }
      }
      ok := ParseSections(d);
      if !ok {
        return false;
      }
      ok := ParseSimulation(d);
      if !ok {
        return false;
      }
      ok := ParseJobs(d);
      MergedNext(before, d);
    }

    // compile, up to the merged configuration.
    method MergeAll(bases: seq<Document>, main: Document) returns (ok: bool)
      requires cfg == EMPTY
      modifies this
      ensures ok <==> AllOk(bases + [main])
      ensures ok ==> cfg == Merged(bases + [main])
    {
      for i := 0 to |bases|
        invariant AllOk(bases[..i]) && cfg == Merged(bases[..i])
      {
        ok := MergeDocument(bases[i], bases[..i]);
        assert bases[..i] + [bases[i]] == bases[..i + 1];
        if !ok {
          assert (bases + [main])[i] == bases[i];
          return false;
        }
      }
      assert bases[..|bases|] == bases;
      ok := MergeDocument(main, bases);
      assert (bases + [main])[|bases|] == main;
    }
  }

  // One more document, part by part.
  lemma MergedNext(docs: seq<Document>, d: Document)
    ensures var m, n := Merged(docs), Merged(docs + [d]);
            && n.components == PutAll(false, m.components, d.components)
            && n.topology == (if d.topology.Some? then TopologyOf(d.topology.value) else m.topology)
            && n.passthrough == PutAll(true, m.passthrough, d.sections)
            && n.simulation == OverwriteAll(m.simulation, d.simulation)
            && n.jobs == (if d.jobs.Some? then d.jobs.value else m.jobs) && n.hasJobs == (d.jobs.Some? || m.hasJobs)
  {
    assert (docs + [d])[..|docs|] == docs;
    PutAllConcat(false, [], AllComponents(docs), d.components);
    PutAllConcat(true, [], AllSections(docs), d.sections);
    OverwriteAllConcat([], AllSettings(docs), d.simulation);
  }

  lemma {:induction false} AllSectionsFrom(docs: seq<Document>, e: Named<Section>)
    requires AllOk(docs) && e in AllSections(docs)
    ensures SectionOk(e)
  {
    var n := |docs| - 1;
    if e in AllSections(docs[..n]) {
      AllSectionsFrom(docs[..n], e);
    } else {
      assert DocumentOk(docs[n]);
    }
  }

  lemma {:induction false} AllSettingsFrom(docs: seq<Document>, e: Named<string>)
    requires AllOk(docs) && e in AllSettings(docs)
    ensures SettingOk(e)
  {
    var n := |docs| - 1;
    if e in AllSettings(docs[..n]) {
      AllSettingsFrom(docs[..n], e);
    } else {
      assert DocumentOk(docs[n]);
    }
  }

  lemma {:induction false} LastFrom(docs: seq<Document>)
    requires AllOk(docs)
    ensures LastTopology(docs).Some? ==> TopologyOk(LastTopology(docs).value)
    ensures LastJobs(docs).Some? ==> JobsOk(LastJobs(docs).value)
  {
    if docs != [] {
      assert DocumentOk(docs[|docs| - 1]);
      LastFrom(docs[..|docs| - 1]);
    }
  }

  // What compiling relies on holds of every merged configuration.
  lemma MergedOk(docs: seq<Document>)
    requires AllOk(docs)
    ensures var m := Merged(docs);
            && (forall i :: 0 <= i < |m.passthrough| ==> SectionOk(m.passthrough[i])) && Unique(true, m.passthrough)
            && (forall i :: 0 <= i < |m.simulation| ==> SettingOk(m.simulation[i])) && Unique(false, m.simulation)
            && JobsOk(m.jobs) && (m.topology.flat ==> m.topology.nodeCount > 0)
  {
    var m := Merged(docs);
    MergedExact(docs, "");
    PutAllFrom(true, AllSections(docs));
    OverwriteAllFrom(AllSettings(docs));
    LastFrom(docs);
    forall i | 0 <= i < |m.passthrough| ensures SectionOk(m.passthrough[i]) {
      AllSectionsFrom(docs, m.passthrough[i]);
    }
    forall i | 0 <= i < |m.simulation| ensures SettingOk(m.simulation[i]) {
      AllSettingsFrom(docs, m.simulation[i]);
    }
  }
}
