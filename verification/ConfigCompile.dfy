/** From the merged documents to the sections of the config store: compile in
    src/modelconfig/config_compiler.cxx, and why a lookup finds what the compiler put there. */
module ConfigCompile {
  import opened Arith
  import opened ConfigEqual
  import opened ConfigMerge
  import opened NamedLists
  import opened Options
  import opened Seqs
  import Decimal
  import JobPlacement

  // The entry of the model registry that the topology names, the layout its shape gives
  // (None where the derivation raises an error), and what a raw value of a parameter
  // becomes in the model's unit.
  datatype FabricModel = FabricModel(terminalLp: string, routerLp: Option<string>, termMethod: string, routerMethod: Option<string>)
  datatype NetworkModel = NetworkModel(nicLp: string, orderName: string)
  datatype Layout = Layout(repetitions: int, terminals: int, routers: int)
  datatype Models = Models(fabric: Option<FabricModel>, layout: Option<Layout>, network: Option<NetworkModel>,
                           resolve: (string, string) -> Option<string>)

  const ORDER := "modelnet_order"

  type UserParam = (string, seq<string>)

  /* ---- parameters given by the user ---- */

  // resolve_param_value of each value of a key.
  function ResolveAll(m: Models, key: string, values: seq<string>): Option<seq<string>> {
    if values == [] then Some([])
    else
      var start, last := ResolveAll(m, key, values[..|values| - 1]), m.resolve(key, values[|values| - 1]);
      if start.None? || last.None? then None else Some(start.value + [last.value])
  }

  function UserKey(m: Models, p: UserParam): Option<Entry> {
    if p.0 == ORDER || ResolveAll(m, p.0, p.1).None? then None else Some(Key(p.0, ResolveAll(m, p.0, p.1).value))
  }

  function UserKeys(m: Models, ps: seq<UserParam>): (r: Option<seq<Entry>>)
    ensures r.Some? ==> forall i :: 0 <= i < |r.value| ==> r.value[i].Key? && r.value[i].name != ORDER
  {
    if ps == [] then Some([])
    else
      var start, last := UserKeys(m, ps[..|ps| - 1]), UserKey(m, ps[|ps| - 1]);
      if start.None? || last.None? then None else Some(start.value + [last.value])
  }

  function Singles(pairs: Pairs): seq<UserParam> {
    seq(|pairs|, i requires 0 <= i < |pairs| => (pairs[i].0, [pairs[i].1]))
  }

  function Renamed(pairs: Pairs, rename: string -> string): Pairs {
    seq(|pairs|, i requires 0 <= i < |pairs| => (rename(pairs[i].0), pairs[i].1))
  }

  function LinkParams(classes: seq<LinkClass>): Pairs {
    if classes == [] then [] else
    var c := classes[|classes| - 1];
    LinkParams(classes[..|classes| - 1]) + Renamed(c.params, k => c.name + "_" + k)
  }

  function RoutingName(k: string): string {
    if k == "algorithm" then "routing" else k
  }

  function ConnectionName(k: string): string {
    if k == "intra" then "intra-group-connections" else if k == "inter" then "inter-group-connections" else k
  }

  // All parameters of a fabric in the order in which they are emitted.
  function FabricParams(f: Fabric, host: Component): seq<UserParam> {
    Singles(f.shape + LinkParams(f.links) + Renamed(f.routing, RoutingName) + Renamed(f.connections, ConnectionName) + f.extra)
    + f.extraLists + Singles(host.params)
  }

  // add_user_param
  method AddUserParam(m: Models, params: seq<Entry>, p: UserParam) returns (r: Option<seq<Entry>>)
    ensures r == if UserKey(m, p).None? then None else Some(params + [UserKey(m, p).value])
  {
    if p.0 == ORDER {
      return None;
    }
    var resolved := [];
    for i := 0 to |p.1|
      invariant ResolveAll(m, p.0, p.1[..i]) == Some(resolved)
    {
      assert p.1[..i + 1][..i] == p.1[..i];
      var value := m.resolve(p.0, p.1[i]);
      if value.None? {
        ResolveFails(m, p.0, p.1, i);
        return None;
      }
      resolved := resolved + [value.value];
    }
    assert p.1[..|p.1|] == p.1;
    r := Some(params + [Key(p.0, resolved)]);
  }

  lemma {:induction false} ResolveFails(m: Models, key: string, values: seq<string>, i: nat)
    requires i < |values| && m.resolve(key, values[i]).None?
    ensures ResolveAll(m, key, values).None?
    decreases |values|
  {
    if i < |values| - 1 {
      ResolveFails(m, key, values[..|values| - 1], i);
    }
  }

  method AddUserParams(m: Models, start: seq<Entry>, ps: seq<UserParam>) returns (r: Option<seq<Entry>>)
    ensures r == if UserKeys(m, ps).None? then None else Some(start + UserKeys(m, ps).value)
  {
    var params := start;
    for i := 0 to |ps|
      invariant UserKeys(m, ps[..i]).Some? && params == start + UserKeys(m, ps[..i]).value
    {
      assert ps[..i + 1][..i] == ps[..i];
      var more := AddUserParam(m, params, ps[i]);
      if more.None? {
        UserKeysFail(m, ps, i);
        return None;
      }
      params := more.value;
    }
    assert ps[..|ps|] == ps;
    r := Some(params);
  }

  lemma {:induction false} UserKeysFail(m: Models, ps: seq<UserParam>, i: nat)
    requires i < |ps| && UserKey(m, ps[i]).None?
    ensures UserKeys(m, ps).None?
    decreases |ps|
  {
    if i < |ps| - 1 {
      UserKeysFail(m, ps[..|ps| - 1], i);
    }
  }

  /* ---- the sections of the topology ---- */

  // LPGROUPS, PARAMS and the number of node slots.
  datatype Base = Base(groups: Section, params: Compiled, slots: int)

  function ShowKey(name: string, n: int): Entry {
    Key(name, [Decimal.ShowInt(n)])
  }

  function OneGroup(keys: seq<Entry>): Section {
    Section([Sub("MODELNET_GRP", Section(keys))])
  }

  function FabricGroups(model: FabricModel, host: Component, lay: Layout): Section {
    OneGroup([ShowKey("repetitions", lay.repetitions), ShowKey(host.model, lay.terminals), ShowKey(model.terminalLp, lay.terminals)]
             + if model.routerLp.Some? then [ShowKey(model.routerLp.value, lay.routers)] else [])
  }

  function Methods(model: FabricModel): seq<string> {
    [model.termMethod] + if model.routerMethod.Some? then [model.routerMethod.value] else []
  }

  function FabricWith(m: Models, host: Component, ps: seq<UserParam>): Option<Base> {
    if m.fabric.None? || host.model == "" || host.network != "" || m.layout.None? then None
    else
      var lay, keys := m.layout.value, UserKeys(m, ps);
      if lay.repetitions <= 0 || lay.terminals <= 0 || lay.routers < 0 || keys.None? then None
      else Some(Base(FabricGroups(m.fabric.value, host, lay),
                     Compiled([Key(ORDER, Methods(m.fabric.value))] + keys.value, []), lay.repetitions * lay.terminals))
  }

  function FabricBase(c: Friendly, m: Models): Option<Base> {
    var host := Find(false, c.components, c.topology.fab.host);
    if host.None? then None else FabricWith(m, host.value, FabricParams(c.topology.fab, host.value))
  }

  function FlatBase(c: Friendly, m: Models): Option<Base> {
    var comp := Find(false, c.components, c.topology.flatComponent);
    if comp.None? || comp.value.model == "" || comp.value.network == "" || m.network.None? then None
    else
      var keys := UserKeys(m, Singles(comp.value.params));
      if keys.None? then None
      else Some(Base(OneGroup([ShowKey("repetitions", c.topology.nodeCount), Key(comp.value.model, ["1"]), Key(m.network.value.nicLp, ["1"])]),
                     Compiled([Key(ORDER, [m.network.value.orderName])] + keys.value, []), c.topology.nodeCount))
  }

  function GroupSection(g: Group): Section {
    Section([ShowKey("repetitions", g.repetitions)] + seq(|g.lps|, i requires 0 <= i < |g.lps| => ShowKey(g.lps[i].0, g.lps[i].1)))
  }

  function GroupsBase(c: Friendly): Option<Base> {
    if c.hasJobs || exists i :: 0 <= i < |c.components| && c.components[i].value.workload.Some? then None
    else Some(Base(Section(seq(|c.topology.groups|, i requires 0 <= i < |c.topology.groups| => Sub(c.topology.groups[i].name, GroupSection(c.topology.groups[i])))),
                   c.topology.params, 0))
  }

  function BaseOf(c: Friendly, m: Models): Option<Base> {
    if c.topology.explicitGroups then GroupsBase(c)
    else if c.topology.parametric then FabricBase(c, m)
    else if c.topology.flat then FlatBase(c, m)
    else None
  }

  // What the keys of a list of parameters are: there are some exactly when no parameter
  // has the name of the derived order and every value can be resolved, and then each
  // parameter gives one key, in order, with its resolved values.
  lemma {:induction false} ResolvedExact(m: Models, key: string, values: seq<string>)
    ensures ResolveAll(m, key, values).Some? <==> forall i :: 0 <= i < |values| ==> m.resolve(key, values[i]).Some?
    ensures ResolveAll(m, key, values).Some? ==>
              var r := ResolveAll(m, key, values).value;
              |r| == |values| && forall i :: 0 <= i < |values| ==> m.resolve(key, values[i]) == Some(r[i])
    decreases |values|
  {
    if values != [] {
      var n := |values| - 1;
      ResolvedExact(m, key, values[..n]);
      assert forall i :: 0 <= i < n ==> values[..n][i] == values[i];
    }
  }

  // A parameter that is accepted, and the key it becomes.
  ghost predicate Resolvable(m: Models, p: UserParam) {
    p.0 != ORDER && forall i :: 0 <= i < |p.1| ==> m.resolve(p.0, p.1[i]).Some?
  }

  ghost predicate KeyOf(m: Models, p: UserParam, e: Entry) {
    e.Key? && e.name == p.0 && |e.values| == |p.1| && forall i :: 0 <= i < |p.1| ==> m.resolve(p.0, p.1[i]) == Some(e.values[i])
  }

  lemma {:induction false} UserKeysExact(m: Models, ps: seq<UserParam>)
    ensures UserKeys(m, ps).Some? <==> forall j :: 0 <= j < |ps| ==> Resolvable(m, ps[j])
    ensures UserKeys(m, ps).Some? ==>
              |UserKeys(m, ps).value| == |ps| && forall j :: 0 <= j < |ps| ==> KeyOf(m, ps[j], UserKeys(m, ps).value[j])
    decreases |ps|
  {
    if ps != [] {
      var n := |ps| - 1;
      UserKeysExact(m, ps[..n]);
      ResolvedExact(m, ps[n].0, ps[n].1);
      assert forall j :: 0 <= j < n ==> ps[..n][j] == ps[j];
    }
  }

  // The parts of a fabric stand in the order of the source, and the host's come last: the
  // links under the name of their class, the routing algorithm as routing, and the
  // connections under their longer names.
  lemma FabricParamAt(f: Fabric, host: Component, i: nat)
    requires i < |FabricParams(f, host)|
    ensures var a, b := |f.shape|, |f.shape| + |LinkParams(f.links)|;
            var c, d := b + |f.routing|, b + |f.routing| + |f.connections|;
            var e, g := d + |f.extra|, d + |f.extra| + |f.extraLists|;
            var p := FabricParams(f, host)[i];
            && |FabricParams(f, host)| == g + |host.params|
            && (i < a ==> p == (f.shape[i].0, [f.shape[i].1]))
            && (a <= i < b ==> p == (LinkParams(f.links)[i - a].0, [LinkParams(f.links)[i - a].1]))
            && (b <= i < c ==> p == (if f.routing[i - b].0 == "algorithm" then "routing" else f.routing[i - b].0, [f.routing[i - b].1]))
            && (c <= i < d ==>
                 p == (if f.connections[i - c].0 == "intra" then "intra-group-connections"
                       else if f.connections[i - c].0 == "inter" then "inter-group-connections" else f.connections[i - c].0,
                       [f.connections[i - c].1]))
            && (d <= i < e ==> p == (f.extra[i - d].0, [f.extra[i - d].1]))
            && (e <= i < g ==> p == f.extraLists[i - e])
            && (g <= i ==> p == (host.params[i - g].0, [host.params[i - g].1]))
  {
    var b := |f.shape| + |LinkParams(f.links)|;
    var c := b + |f.routing|;
    if b <= i < c {
      assert Renamed(f.routing, RoutingName)[i - b] == (RoutingName(f.routing[i - b].0), f.routing[i - b].1);
    } else if c <= i < c + |f.connections| {
      assert Renamed(f.connections, ConnectionName)[i - c] == (ConnectionName(f.connections[i - c].0), f.connections[i - c].1);
    }
  }

  // Where the parameters of class n of the links begin.
  function LinkStart(classes: seq<LinkClass>, n: nat): nat
    requires n <= |classes|
  {
    if n == 0 then 0 else LinkStart(classes, n - 1) + |classes[n - 1].params|
  }

  // Each parameter of a class is named after the class and itself.
  lemma {:induction false} LinkParamAt(classes: seq<LinkClass>, n: nat, k: nat)
    requires n < |classes| && k < |classes[n].params|
    ensures |LinkParams(classes)| == LinkStart(classes, |classes|) && LinkStart(classes, n) + k < |LinkParams(classes)|
    ensures LinkParams(classes)[LinkStart(classes, n) + k] == (classes[n].name + "_" + classes[n].params[k].0, classes[n].params[k].1)
    decreases |classes|
  {
    var m := |classes| - 1;
    LinkLength(classes[..m]);
    StartPrefix(classes, m, m);
    StartPrefix(classes, m, if n < m then n else m);
    if n < m {
      LinkParamAt(classes[..m], n, k);
    }
  }

  lemma {:induction false} LinkLength(classes: seq<LinkClass>)
    ensures |LinkParams(classes)| == LinkStart(classes, |classes|)
  {
    if classes != [] {
      var m := |classes| - 1;
      LinkLength(classes[..m]);
      StartPrefix(classes, m, m);
    }
  }

  lemma {:induction false} StartPrefix(classes: seq<LinkClass>, m: nat, n: nat)
    requires n <= m <= |classes|
    ensures LinkStart(classes[..m], n) == LinkStart(classes, n)
  {
    if n > 0 {
      StartPrefix(classes, m, n - 1);
    }
  }

  // When a fabric or a flat topology compiles, and to what: the number of node slots, and
  // the derived order in front of the resolved parameters.
  lemma FabricExact(m: Models, host: Component, ps: seq<UserParam>)
    ensures FabricWith(m, host, ps).Some? <==>
              && m.fabric.Some? && host.model != "" && host.network == ""
              && m.layout.Some? && m.layout.value.repetitions > 0 && m.layout.value.terminals > 0 && m.layout.value.routers >= 0
              && forall j :: 0 <= j < |ps| ==> Resolvable(m, ps[j])
    ensures FabricWith(m, host, ps).Some? ==>
              var b := FabricWith(m, host, ps).value;
              && b.slots == m.layout.value.repetitions * m.layout.value.terminals > 0
              && b.params.subs == [] && |b.params.keys| == 1 + |ps| && b.params.keys[0] == Key(ORDER, Methods(m.fabric.value))
              && forall j :: 0 <= j < |ps| ==> KeyOf(m, ps[j], b.params.keys[1 + j])
  {
    UserKeysExact(m, ps);
    if FabricWith(m, host, ps).Some? {
      MulPositive(m.layout.value.repetitions, m.layout.value.terminals);
    }
  }

  lemma FlatExact(c: Friendly, m: Models)
    ensures var comp := Find(false, c.components, c.topology.flatComponent);
            && (FlatBase(c, m).Some? <==>
                 && comp.Some? && comp.value.model != "" && comp.value.network != "" && m.network.Some?
                 && forall j :: 0 <= j < |comp.value.params| ==> Resolvable(m, Singles(comp.value.params)[j]))
            && (FlatBase(c, m).Some? ==>
                 var b, ps := FlatBase(c, m).value, Singles(comp.value.params);
                 && b.slots == c.topology.nodeCount
                 && b.params.subs == [] && |b.params.keys| == 1 + |ps| && b.params.keys[0] == Key(ORDER, [m.network.value.orderName])
                 && forall j :: 0 <= j < |ps| ==> KeyOf(m, ps[j], b.params.keys[1 + j]))
  {
    var comp := Find(false, c.components, c.topology.flatComponent);
    if comp.Some? {
      UserKeysExact(m, Singles(comp.value.params));
    }
  }

  method CompileFabric(c: Friendly, m: Models) returns (r: Option<Base>)
    ensures r == FabricBase(c, m)
  {
    var host := Find(false, c.components, c.topology.fab.host);
    if m.fabric.None? || host.None? || host.value.model == "" || host.value.network != "" || m.layout.None? {
      return None;
    }
    var lay := m.layout.value;
    if lay.repetitions <= 0 || lay.terminals <= 0 || lay.routers < 0 {
      return None;
    }
    var params := [Key(ORDER, Methods(m.fabric.value))];
    var all := AddUserParams(m, params, FabricParams(c.topology.fab, host.value));
    if all.None? {
      return None;
    }
    r := Some(Base(FabricGroups(m.fabric.value, host.value, lay), Compiled(all.value, []), lay.repetitions * lay.terminals));
  }

  method CompileFlat(c: Friendly, m: Models) returns (r: Option<Base>)
    ensures r == FlatBase(c, m)
  {
    var comp := Find(false, c.components, c.topology.flatComponent);
    if comp.None? || comp.value.model == "" || comp.value.network == "" || m.network.None? {
      return None;
    }
    var params := [Key(ORDER, [m.network.value.orderName])];
    var all := AddUserParams(m, params, Singles(comp.value.params));
    if all.None? {
      return None;
    }
    var groups := OneGroup([ShowKey("repetitions", c.topology.nodeCount), Key(comp.value.model, ["1"]), Key(m.network.value.nicLp, ["1"])]);
    r := Some(Base(groups, Compiled(all.value, []), c.topology.nodeCount));
  }

  /* ---- simulation settings ---- */

  function Settings(s: seq<Named<string>>): (es: seq<Entry>)
    ensures |es| == |s| && forall i :: 0 <= i < |s| ==> es[i] == Key(s[i].name, [s[i].value])
  {
    seq(|s|, i requires 0 <= i < |s| => Key(s[i].name, [s[i].value]))
  }

  // Some key already has the name of a setting.
  predicate Collides(keys: seq<Entry>, s: seq<Named<string>>) {
    exists i, j :: 0 <= i < |keys| && 0 <= j < |s| && keys[i].name == s[j].name
  }

  // apply_simulation: the keys of PARAMS with the settings after them, or an error.
  method ApplySimulation(s: seq<Named<string>>, keys: seq<Entry>) returns (r: Option<seq<Entry>>)
    requires Unique(false, s)
    ensures r == if Collides(keys, s) then None else Some(keys + Settings(s))
  {
    var params := keys;
    for j := 0 to |s|
      invariant params == keys + Settings(s)[..j]
      invariant !Collides(keys, s[..j])
    {
      for i := 0 to |params|
        invariant forall k :: 0 <= k < i ==> params[k].name != s[j].name
      {
        if params[i].name == s[j].name {
          assert i < |keys|;
          assert keys[i].name == s[j].name;
          return None;
        }
      }
      assert forall k :: 0 <= k < |keys| ==> keys[k] == params[k];
      assert s[..j + 1] == s[..j] + [s[j]];
      params := params + [Key(s[j].name, [s[j].value])];
    }
    assert s[..|s|] == s && Settings(s)[..|s|] == Settings(s);
    r := Some(params);
  }

  /* ---- the whole output ---- */

  function WorkloadView(cs: seq<Named<Component>>): seq<JobPlacement.Component> {
    seq(|cs|, i requires 0 <= i < |cs| => JobPlacement.Component(cs[i].name, cs[i].value.workload))
  }

  function Passthrough(s: seq<Named<Section>>): (es: seq<Entry>)
    ensures |es| == |s| && forall i :: 0 <= i < |s| ==> es[i] == Sub(s[i].name, s[i].value)
  {
    seq(|s|, i requires 0 <= i < |s| => Sub(s[i].name, s[i].value))
  }

  // LPGROUPS, PARAMS, the workload section if there is one, and the pass-through sections.
  function Output(groups: Section, params: Section, workload: Option<Entry>, s: seq<Named<Section>>): seq<Entry> {
    [Sub("LPGROUPS", groups), Sub("PARAMS", params)] + (if workload.Some? then [workload.value] else []) + Passthrough(s)
  }

  // The workload section, for the two forms that have node slots.
  function WorkloadOf(c: Friendly, slots: int): Option<Entry>
    requires JobPlacement.AllParsed(c.jobs)
  {
    if c.topology.explicitGroups || slots < 0 then None
    else JobPlacement.Emitted(JobPlacement.InlineWorkload(WorkloadView(c.components)), c.hasJobs, c.jobs, slots)
  }

  function HostOf(c: Friendly): string {
    if c.topology.parametric then c.topology.fab.host else c.topology.flatComponent
  }

  // The inline workload sits on the host, excludes jobs, and the jobs can be placed.
  ghost predicate WorkloadOk(c: Friendly, slots: nat)
    requires JobPlacement.AllParsed(c.jobs)
  {
    var cs := WorkloadView(c.components);
    && (forall i :: 0 <= i < |cs| && cs[i].workload.Some? ==> cs[i].key == HostOf(c))
    && !(JobPlacement.InlineWorkload(cs).Some? && c.hasJobs)
    && (c.hasJobs ==> JobPlacement.Placeable(c.jobs, slots))
  }

  ghost predicate Accepted(c: Friendly, m: Models)
    requires JobPlacement.AllParsed(c.jobs)
  {
    var b := BaseOf(c, m);
    && b.Some? && !Collides(b.value.params.keys, c.simulation)
    && (c.topology.explicitGroups || (b.value.slots > 0 && WorkloadOk(c, b.value.slots)))
  }

  ghost predicate Compiles(c: Friendly, m: Models, out: seq<Entry>)
    requires JobPlacement.AllParsed(c.jobs)
  {
    && Accepted(c, m)
    && var b := BaseOf(c, m).value;
       out == Output(b.groups, Section(b.params.keys + Settings(c.simulation) + b.params.subs), WorkloadOf(c, b.slots), c.passthrough)
  }

  // compile, from the merged configuration on.
  method Compile(c: Friendly, m: Models) returns (r: Option<seq<Entry>>)
    requires JobPlacement.AllParsed(c.jobs) && Unique(false, c.simulation)
    requires c.topology.flat ==> c.topology.nodeCount > 0
    ensures r.Some? <==> Accepted(c, m)
    ensures r.Some? ==> Compiles(c, m, r.value)
  {
    if !c.topology.parametric && !c.topology.flat && !c.topology.explicitGroups {
      return None;
    }
    var b: Option<Base>, host := None, "";
    if c.topology.explicitGroups {
      b := GroupsBase(c);
    } else if c.topology.parametric {
      b := CompileFabric(c, m);
      host := c.topology.fab.host;
    } else {
      b := CompileFlat(c, m);
      host := c.topology.flatComponent;
    }
    if b.None? {
      return None;
    }
    var keys := ApplySimulation(c.simulation, b.value.params.keys);
    if keys.None? {
      return None;
    }
    var workload: Option<Entry> := None;
    if !c.topology.explicitGroups {
      SlotsPositive(c, m);
      var placed := JobPlacement.Compile(WorkloadView(c.components), c.hasJobs, c.jobs, b.value.slots, host);
      if placed.Err? {
        return None;
      }
      workload := placed.value;
    }
    r := Some(Output(b.value.groups, Section(keys.value + b.value.params.subs), workload, c.passthrough));
  }

  lemma SlotsPositive(c: Friendly, m: Models)
    requires BaseOf(c, m).Some? && !c.topology.explicitGroups && (c.topology.flat ==> c.topology.nodeCount > 0)
    ensures BaseOf(c, m).value.slots > 0
  {
    if c.topology.parametric {
      MulPositive(m.layout.value.repetitions, m.layout.value.terminals);
    }
  }

  /* ---- what a lookup finds ---- */

  lemma OutputAt(groups: Section, params: Section, workload: Option<Entry>, s: seq<Named<Section>>, i: nat)
    requires 2 <= i < |Output(groups, params, workload, s)|
    ensures var e := Output(groups, params, workload, s)[i];
            (workload.Some? && e == workload.value) || exists k :: 0 <= k < |s| && e == Sub(s[k].name, s[k].value)
  {
    var k := i - 2 - if workload.Some? then 1 else 0;
    if k >= 0 {
      assert Output(groups, params, workload, s)[i] == Passthrough(s)[k];
    }
  }

  lemma OtherNames(name: string)
    requires name == "WORKLOAD" || name == "JOBS" || name == "workload"
    ensures !SameName(name, "LPGROUPS") && !SameName(name, "PARAMS")
  {
    assert Lower("WORKLOAD"[0]) == 'w' && Lower("LPGROUPS"[0]) == 'l';
  }

  lemma TopologyNames()
    ensures !SameName("LPGROUPS", "PARAMS") && !SameName("PARAMS", "LPGROUPS")
    ensures SameName("LPGROUPS", "LPGROUPS") && SameName("PARAMS", "PARAMS")
  {
    assert |"LPGROUPS"| == 8 && |"PARAMS"| == 6;
  }

  ghost predicate AllSectionsOk(s: seq<Named<Section>>) {
    forall k :: 0 <= k < |s| ==> SectionOk(s[k])
  }

  lemma NotReserved(c: Friendly, m: Models, out: seq<Entry>, i: nat)
    requires JobPlacement.AllParsed(c.jobs) && Compiles(c, m, out) && 2 <= i < |out| && AllSectionsOk(c.passthrough)
    ensures out[i].Sub? && !SameName(out[i].name, "LPGROUPS") && !SameName(out[i].name, "PARAMS")
  {
    var b := BaseOf(c, m).value;
    OutputAt(b.groups, Section(b.params.keys + Settings(c.simulation) + b.params.subs), WorkloadOf(c, b.slots), c.passthrough, i);
    OtherNames("WORKLOAD");
    OtherNames("JOBS");
  }

  // There is exactly one LPGROUPS and one PARAMS, ignoring case, and lookup opens them.
  lemma TopologySections(c: Friendly, m: Models, out: seq<Entry>, i: nat)
    requires JobPlacement.AllParsed(c.jobs) && Compiles(c, m, out) && i < |out| && AllSectionsOk(c.passthrough)
    ensures SameName(out[i].name, "LPGROUPS") <==> i == 0
    ensures SameName(out[i].name, "PARAMS") <==> i == 1
  {
    TopologyNames();
    if i >= 2 {
      NotReserved(c, m, out, i);
    }
  }

  lemma TopologyInOutput(groups: Section, params: Section, w: Option<Entry>, s: seq<Named<Section>>)
    ensures var out := Output(groups, params, w, s);
            && |out| >= 2 && out[0] == Sub("LPGROUPS", groups) && out[1] == Sub("PARAMS", params)
            && FindSubIn(out, "LPGROUPS") == Some(groups) && FindSubIn(out, "PARAMS") == Some(params)
  {
    TopologyNames();
    JobPlacement.FindSubAt(Output(groups, params, w, s), "LPGROUPS", 0);
    JobPlacement.FindSubAt(Output(groups, params, w, s), "PARAMS", 1);
  }

  lemma TopologyFound(c: Friendly, m: Models, out: seq<Entry>)
    requires JobPlacement.AllParsed(c.jobs) && Compiles(c, m, out)
    ensures |out| >= 2 && out[0].Sub? && out[1].Sub?
    ensures FindSubIn(out, "LPGROUPS") == Some(out[0].section) && FindSubIn(out, "PARAMS") == Some(out[1].section)
  {
    var b := BaseOf(c, m).value;
    TopologyInOutput(b.groups, Section(b.params.keys + Settings(c.simulation) + b.params.subs), WorkloadOf(c, b.slots), c.passthrough);
  }

  // Each setting of the simulation block is in PARAMS once, and lookup finds it.
  lemma SettingFound(c: Friendly, m: Models, out: seq<Entry>, j: nat)
    requires JobPlacement.AllParsed(c.jobs) && Compiles(c, m, out) && j < |c.simulation| && Unique(false, c.simulation)
    ensures FindKey(out[1].section, c.simulation[j].name) == Some([c.simulation[j].value])
    ensures var b := BaseOf(c, m).value;
            forall i :: 0 <= i < |b.params.keys| + |c.simulation| ==>
              (out[1].section.entries[i].name == c.simulation[j].name <==> i == |b.params.keys| + j)
  {
    var b, s := BaseOf(c, m).value, c.simulation;
    var es, n := out[1].section.entries, |b.params.keys| + j;
    assert es == b.params.keys + Settings(s) + b.params.subs;
    forall i | 0 <= i < |b.params.keys| + |s| ensures es[i].name == s[j].name <==> i == n {
      if i < |b.params.keys| {
        assert es[i] == b.params.keys[i];
      } else {
        assert es[i] == Settings(s)[i - |b.params.keys|];
      }
    }
    JobPlacement.FindKeyAt(es, s[j].name, n);
  }

  // The derived order of the models comes first in PARAMS, no other key has its name,
  // and lookup finds it: the terminal, and behind it the router if it is a method of its
  // own.
  lemma OrderFound(c: Friendly, m: Models, out: seq<Entry>)
    requires JobPlacement.AllParsed(c.jobs) && Compiles(c, m, out) && !c.topology.explicitGroups
    requires forall k :: 0 <= k < |c.simulation| ==> SettingOk(c.simulation[k])
    ensures FindKey(out[1].section, "modelnet_order") ==
              Some(if !c.topology.parametric then [m.network.value.orderName]
                   else if m.fabric.value.routerMethod.None? then [m.fabric.value.termMethod]
                   else [m.fabric.value.termMethod, m.fabric.value.routerMethod.value])
    ensures forall i :: 0 < i < |out[1].section.entries| ==> out[1].section.entries[i].name != "modelnet_order"
  {
    OrderFirst(c, m, out);
    if c.topology.parametric {
      MethodsAre(m.fabric.value);
    }
  }

  lemma MethodsAre(model: FabricModel)
    ensures Methods(model) == if model.routerMethod.None? then [model.termMethod] else [model.termMethod, model.routerMethod.value]
  {
  }

  lemma OrderFirst(c: Friendly, m: Models, out: seq<Entry>)
    requires JobPlacement.AllParsed(c.jobs) && Compiles(c, m, out) && !c.topology.explicitGroups
    requires forall k :: 0 <= k < |c.simulation| ==> SettingOk(c.simulation[k])
    ensures FindKey(out[1].section, ORDER) == Some(if c.topology.parametric then Methods(m.fabric.value) else [m.network.value.orderName])
    ensures forall i :: 0 < i < |out[1].section.entries| ==> out[1].section.entries[i].name != ORDER
  {
    var b := BaseOf(c, m).value;
    var es := out[1].section.entries;
    assert es == b.params.keys + Settings(c.simulation);
    assert es[0] == b.params.keys[0];
    JobPlacement.FindKeyAt(es, ORDER, 0);
  }

  // Looking a pass-through section up: the entries before it have other names, except
  // perhaps the workload section.
  lemma FindInOutput(groups: Section, params: Section, w: Option<Entry>, s: seq<Named<Section>>, k: nat)
    requires k < |s| && Unique(true, s) && !SameName("LPGROUPS", s[k].name) && !SameName("PARAMS", s[k].name)
    ensures FindSubIn(Output(groups, params, w, s), s[k].name)
         == Some(if w.Some? && w.value.Sub? && SameName(w.value.name, s[k].name) then w.value.section else s[k].value)
  {
    var out, name := Output(groups, params, w, s), s[k].name;
    if w.Some? && w.value.Sub? && SameName(w.value.name, name) {
      assert out[2] == w.value;
      JobPlacement.FindSubAt(out, name, 2);
    } else {
      var n := 2 + if w.Some? then 1 else 0;
      forall i | n <= i <= n + k ensures out[i] == Sub(s[i - n].name, s[i - n].value) {
        assert out[i] == Passthrough(s)[i - n];
      }
      forall i | 0 <= i < n + k && out[i].Sub? ensures !SameName(out[i].name, name) {
        if i >= n {
          assert !Same(true, s[i - n].name, s[k].name);
        }
      }
      JobPlacement.FindSubAt(out, name, n + k);
    }
  }

  // What a lookup of a pass-through section opens.
  lemma PassthroughFound(c: Friendly, m: Models, out: seq<Entry>, k: nat)
    requires JobPlacement.AllParsed(c.jobs) && Compiles(c, m, out)
    requires k < |c.passthrough| && AllSectionsOk(c.passthrough) && Unique(true, c.passthrough)
    ensures var w, e := WorkloadOf(c, BaseOf(c, m).value.slots), c.passthrough[k];
            FindSubIn(out, e.name) == Some(if w.Some? && w.value.Sub? && SameName(w.value.name, e.name) then w.value.section else e.value)
  {
    var b, e := BaseOf(c, m).value, c.passthrough[k];
    assert SectionOk(e);
    NameBack(e.name, "LPGROUPS");
    NameBack(e.name, "PARAMS");
    FindInOutput(b.groups, Section(b.params.keys + Settings(c.simulation) + b.params.subs), WorkloadOf(c, b.slots), c.passthrough, k);
  }

  // A pass-through section that differs from the workload section is the one that lookup
  // opens exactly when the workload section does not have its name.
  lemma PassthroughFoundIff(c: Friendly, m: Models, out: seq<Entry>, k: nat)
    requires JobPlacement.AllParsed(c.jobs) && Compiles(c, m, out)
    requires k < |c.passthrough| && AllSectionsOk(c.passthrough) && Unique(true, c.passthrough)
    requires WorkloadOf(c, BaseOf(c, m).value.slots) != Some(Sub("WORKLOAD", c.passthrough[k].value))
    requires WorkloadOf(c, BaseOf(c, m).value.slots) != Some(Sub("JOBS", c.passthrough[k].value))
    ensures var w, e := WorkloadOf(c, BaseOf(c, m).value.slots), c.passthrough[k];
            FindSubIn(out, e.name) == Some(e.value) <==> (w.Some? ==> !SameName(w.value.name, e.name))
  {
    PassthroughFound(c, m, out, k);
  }

  lemma NameBack(a: string, b: string)
    ensures SameName(a, b) <==> SameName(b, a)
    ensures SameName(a, a)
  {
  }

  // A section called workload is accepted next to a workload, and nothing finds it: the
  // document's own section is dropped without a message.
  lemma WorkloadHidesSection(c: Friendly, m: Models, out: seq<Entry>, s: Section, wl: JobPlacement.Workload)
    requires JobPlacement.AllParsed(c.jobs) && Compiles(c, m, out) && !c.topology.explicitGroups
    requires c.passthrough == [Named("workload", s)] && JobPlacement.InlineWorkload(WorkloadView(c.components)) == Some(wl)
    ensures AllSectionsOk(c.passthrough)
    ensures FindSubIn(out, "workload") == Some(Section(JobPlacement.WorkloadKeys(wl)))
  {
    assert Lower("workload"[0]) == 'w' && Lower("LPGROUPS"[0]) == 'l' && |"workload"| == 8 && |"PARAMS"| == 6 && |"resource"| == 8 && Lower("resource"[0]) == 'r';
    assert SectionOk(Named("workload", s));
    PassthroughFound(c, m, out, 0);
    WorkloadName();
  }

  // A document of this kind, for any workload and section: a flat topology whose one
  // component carries the workload.
  function HiddenDocument(wl: JobPlacement.Workload, s: Section): Document {
    Document([Named("host", Component("nw-lp", "simplenet", [], Some(wl)))], Some(FlatDoc("host", 2)), [Named("workload", s)], [], None)
  }

  function HiddenModels(): Models {
    Models(None, None, Some(NetworkModel("modelnet_simplenet", "simplenet")), (key, value) => Some(value))
  }

  lemma OnePut<V>(ci: bool, e: Named<V>)
    ensures PutAll(ci, [], [e]) == [e]
  {
    assert [e][..0] == [];
  }

  lemma OneDocument(d: Document)
    ensures AllComponents([d]) == d.components && AllSections([d]) == d.sections && AllSettings([d]) == d.simulation
    ensures LastTopology([d]) == (if d.topology.Some? then d.topology else None)
    ensures LastJobs([d]) == if d.jobs.Some? then d.jobs else None
  {
    assert [d][..0] == [];
    NoMore(d.components);
    NoMore(d.sections);
    NoMore(d.simulation);
  }

  // What it becomes.
  function HiddenConfig(wl: JobPlacement.Workload, s: Section): Friendly {
    Friendly([Named("host", Component("nw-lp", "simplenet", [], Some(wl)))],
             NO_TOPOLOGY.(flat := true, flatComponent := "host", nodeCount := 2), [Named("workload", s)], [], [], false)
  }

  lemma HiddenMerged(wl: JobPlacement.Workload, s: Section)
    ensures var d := HiddenDocument(wl, s); AllSections([d]) == d.sections && Merged([d]) == HiddenConfig(wl, s)
  {
    var d := HiddenDocument(wl, s);
    OneDocument(d);
    OnePut(false, d.components[0]);
    OnePut(true, d.sections[0]);
  }

  lemma HiddenOk(wl: JobPlacement.Workload, s: Section)
    ensures AllOk([HiddenDocument(wl, s)])
  {
    OtherNames("workload");
    assert !SameName("workload", "resource") by { assert Lower("workload"[0]) == 'w' && Lower("resource"[0]) == 'r'; }
    assert SectionOk(Named("workload", s));
    assert DocumentOk(HiddenDocument(wl, s));
  }

  lemma HiddenBase(wl: JobPlacement.Workload, s: Section)
    ensures var b := BaseOf(HiddenConfig(wl, s), HiddenModels()); b.Some? && b.value.slots == 2
  {
    assert UserKeys(HiddenModels(), []) == Some([]);
    assert Singles([]) == [];
  }

  lemma HiddenAccepted(wl: JobPlacement.Workload, s: Section)
    ensures var c := HiddenConfig(wl, s);
            && Accepted(c, HiddenModels()) && JobPlacement.InlineWorkload(WorkloadView(c.components)) == Some(wl)
  {
    HiddenBase(wl, s);
    assert WorkloadView(HiddenConfig(wl, s).components) == [JobPlacement.Component("host", Some(wl))];
  }

  // It is accepted, and reads the workload where it says something else.
  lemma WorkloadHidden(wl: JobPlacement.Workload, s: Section, out: seq<Entry>)
    requires s != Section(JobPlacement.WorkloadKeys(wl))
    ensures var d, m := HiddenDocument(wl, s), HiddenModels();
            && AllOk([d]) && JobPlacement.AllParsed(Merged([d]).jobs) && Accepted(Merged([d]), m)
            && LastOf(true, AllSections([d]), "workload") == Some(s)
            && (Compiles(Merged([d]), m, out) ==> FindSubIn(out, "workload") != Some(s))
  {
    var d, m := HiddenDocument(wl, s), HiddenModels();
    HiddenOk(wl, s);
    HiddenAccepted(wl, s);
    HiddenMerged(wl, s);
    NameBack("workload", "workload");
    if Compiles(Merged([d]), m, out) {
      WorkloadHidesSection(Merged([d]), m, out, s, wl);
    }
  }

  lemma WorkloadName()
    ensures SameName("WORKLOAD", "workload")
  {
    var a, b := "WORKLOAD", "workload";
    assert a[0] == 'W' && a[1] == 'O' && a[2] == 'R' && a[3] == 'K' && a[4] == 'L' && a[5] == 'O' && a[6] == 'A' && a[7] == 'D';
    assert b[0] == 'w' && b[1] == 'o' && b[2] == 'r' && b[3] == 'k' && b[4] == 'l' && b[5] == 'o' && b[6] == 'a' && b[7] == 'd';
  }

  /* ---- from the documents to the lookups ---- */

  // compile: the included documents, then the main one.
  method CompileDocuments(bases: seq<Document>, main: Document, m: Models) returns (r: Option<seq<Entry>>)
    ensures r.Some? <==>
            && AllOk(bases + [main]) && JobPlacement.AllParsed(Merged(bases + [main]).jobs)
            && Accepted(Merged(bases + [main]), m)
    ensures r.Some? ==> Compiles(Merged(bases + [main]), m, r.value)
  {
    var merger := new Merger();
    var ok := merger.MergeAll(bases, main);
    if !ok {
      return None;
    }
    MergedOk(bases + [main]);
    r := Compile(merger.cfg, m);
  }

  // A setting of the simulation block reads as the last document that gives it says.
  lemma SettingIsLastSaid(docs: seq<Document>, m: Models, out: seq<Entry>, name: string)
    requires AllOk(docs) && LastOf(false, AllSettings(docs), name).Some?
    requires JobPlacement.AllParsed(Merged(docs).jobs) && Compiles(Merged(docs), m, out)
    ensures |out| >= 2 && out[1].Sub? && FindSubIn(out, "PARAMS") == Some(out[1].section)
    ensures FindKey(out[1].section, name) == Some([LastOf(false, AllSettings(docs), name).value])
  {
    var c := Merged(docs);
    MergedOk(docs);
    MergedExact(docs, name);
    TopologyFound(c, m, out);
    var j := FindIndex(false, c.simulation, name);
    SettingFound(c, m, out, j);
  }

  // A pass-through section reads as the last document that gives it says, unless the
  // workload section has its name.
  lemma SectionIsLastSaid(docs: seq<Document>, m: Models, out: seq<Entry>, name: string)
    requires AllOk(docs) && LastOf(true, AllSections(docs), name).Some?
    requires JobPlacement.AllParsed(Merged(docs).jobs) && Compiles(Merged(docs), m, out)
    ensures var w := WorkloadOf(Merged(docs), BaseOf(Merged(docs), m).value.slots);
            (w.Some? && w.value.Sub? ==> !SameName(w.value.name, name)) ==> FindSubIn(out, name) == LastOf(true, AllSections(docs), name)
  {
    var c := Merged(docs);
    MergedOk(docs);
    MergedExact(docs, name);
    var k := FindIndex(true, c.passthrough, name);
    var w := WorkloadOf(c, BaseOf(c, m).value.slots);
    PassthroughFound(c, m, out, k);
    FindSubSame(out, c.passthrough[k].name, name);
    if w.Some? && w.value.Sub? {
      SameIsEquivalence(true, w.value.name, c.passthrough[k].name, name);
    }
  }
}
