/** The placement of jobs on node slots and the sections it compiles to:
    compile_workload_jobs in src/modelconfig/config_compiler.cxx. */
module JobPlacement {
  import opened Options
  import opened Seqs
  import opened ConfigEqual
  import Decimal

  // workload_block: the resolved parameters, those that are present.
  datatype Workload = Workload(kind: string, traffic: Option<string>, numMessages: Option<string>,
                               payloadSize: Option<string>, arrivalTime: Option<string>)

  datatype Job = Job(id: string, wl: Workload, ranks: int, contiguous: bool, nodes: seq<int>)

  // What parse_jobs has checked.
  predicate Parsed(j: Job) {
    j.ranks > 0 && (!j.contiguous ==> |j.nodes| == j.ranks) && forall i :: 0 <= i < |j.nodes| ==> j.nodes[i] >= 0
  }

  predicate AllParsed(jobs: seq<Job>) {
    forall i :: 0 <= i < |jobs| ==> Parsed(jobs[i])
  }

  datatype Error = OutOfRange(job: string, node: int) | DoubleBooked(job: string, node: int) | TooManyRanks
                 | NotTheHost(component: string) | BothForms

  datatype Result<T> = Ok(value: T) | Err(error: Error)

  /* ---- the slots that are asked for ---- */

  // The ranks of the contiguous jobs: where the next contiguous job starts.
  function Cursor(jobs: seq<Job>): nat
    requires AllParsed(jobs)
  {
    if jobs == [] then 0 else
      Cursor(jobs[..|jobs| - 1]) + if jobs[|jobs| - 1].contiguous then jobs[|jobs| - 1].ranks else 0
  }

  function Range(from: nat, n: nat): seq<int> {
    seq(n, i => from + i)
  }

  // The slots of a job that comes after the given ones.
  function SlotsAfter(before: seq<Job>, j: Job): seq<int>
    requires AllParsed(before) && Parsed(j)
  {
    if j.contiguous then Range(Cursor(before), j.ranks) else j.nodes
  }

  function Allocations(jobs: seq<Job>): seq<seq<int>>
    requires AllParsed(jobs)
  {
    if jobs == [] then [] else
      Allocations(jobs[..|jobs| - 1]) + [SlotsAfter(jobs[..|jobs| - 1], jobs[|jobs| - 1])]
  }

  // All requested slots, job after job.
  function Requested(jobs: seq<Job>): seq<int>
    requires AllParsed(jobs)
  {
    if jobs == [] then [] else
      Requested(jobs[..|jobs| - 1]) + SlotsAfter(jobs[..|jobs| - 1], jobs[|jobs| - 1])
  }

  function TotalRanks(jobs: seq<Job>): int {
    if jobs == [] then 0 else TotalRanks(jobs[..|jobs| - 1]) + jobs[|jobs| - 1].ranks
  }

  // Every requested slot exists and none is requested twice.
  ghost predicate Placeable(jobs: seq<Job>, slots: nat)
    requires AllParsed(jobs)
  {
    Distinct(Requested(jobs)) && forall i :: 0 <= i < |Requested(jobs)| ==> 0 <= Requested(jobs)[i] < slots
  }

  lemma {:induction false} RequestedCount(jobs: seq<Job>)
    requires AllParsed(jobs)
    ensures |Requested(jobs)| == TotalRanks(jobs) && |Allocations(jobs)| == |jobs|
    ensures forall i :: 0 <= i < |Requested(jobs)| ==> Requested(jobs)[i] >= 0
  {
    if jobs != [] {
      RequestedCount(jobs[..|jobs| - 1]);
    }
  }

  // Pigeonhole: the closing check on the number of ranks can never fail.
  lemma RanksFit(jobs: seq<Job>, slots: nat)
    requires AllParsed(jobs) && Placeable(jobs, slots)
    ensures TotalRanks(jobs) <= slots
  {
    RequestedCount(jobs);
    Pigeonhole(Requested(jobs), slots);
  }

  /* ---- booking ---- */

  // What the booking array says once the slots s have been booked.
  ghost predicate Booked(booked: seq<bool>, s: seq<int>) {
    && Distinct(s) && (forall i :: 0 <= i < |s| ==> 0 <= s[i] < |booked|)
    && forall k :: 0 <= k < |booked| ==> (booked[k] <==> k in s)
  }

  lemma BookedMore(booked: seq<bool>, s: seq<int>, idx: int)
    requires Booked(booked, s) && 0 <= idx < |booked| && !booked[idx]
    ensures Booked(booked[idx := true], s + [idx])
  {
  }

  // The inner loop: book the slots of one job.
  method BookJob(id: string, nodes: seq<int>, booked: array<bool>, ghost before: seq<int>) returns (r: Result<bool>)
    requires Booked(booked[..], before) && forall i :: 0 <= i < |nodes| ==> nodes[i] >= 0
    modifies booked
    ensures r.Ok? <==> Distinct(before + nodes) && forall i :: 0 <= i < |nodes| ==> nodes[i] < booked.Length
    ensures r.Ok? ==> Booked(booked[..], before + nodes)
    ensures r.Err? ==> r.error != TooManyRanks
  {
    for n := 0 to |nodes|
      invariant Booked(booked[..], before + nodes[..n])
      invariant forall i :: 0 <= i < n ==> nodes[i] < booked.Length
    {
      var idx := nodes[n];
      ghost var now := before + nodes[..n];
      assert before + nodes[..n + 1] == now + [idx];
      assert (before + nodes)[|now|] == idx;
      if idx >= booked.Length {
        return Err(OutOfRange(id, idx));
      }
      if booked[idx] {
        ghost var k :| 0 <= k < |now| && now[k] == idx;
        assert (before + nodes)[k] == now[k];
        return Err(DoubleBooked(id, idx));
      }
      ghost var was := booked[..];
      booked[idx] := true;
      BookedMore(was, now, idx);
      assert booked[..] == was[idx := true];
    }
    assert nodes[..|nodes|] == nodes;
    return Ok(true);
  }

  lemma DistinctPrefix(s: seq<int>, t: seq<int>)
    requires Distinct(s + t)
    ensures Distinct(s)
  {
    forall i, j | 0 <= i < j < |s| ensures s[i] != s[j] {
      assert (s + t)[i] == s[i] && (s + t)[j] == s[j];
    }
  }

  lemma {:induction false} PlaceablePrefix(jobs: seq<Job>, slots: nat, n: nat)
    requires AllParsed(jobs) && n <= |jobs| && Placeable(jobs, slots)
    ensures Placeable(jobs[..n], slots)
  {
    if n < |jobs| {
      var before := jobs[..|jobs| - 1];
      var r := Requested(before);
      var s := SlotsAfter(before, jobs[|jobs| - 1]);
      assert Requested(jobs) == r + s;
      DistinctPrefix(r, s);
      forall i | 0 <= i < |r| ensures 0 <= r[i] < slots {
        assert (r + s)[i] == r[i];
      }
      PlaceablePrefix(before, slots, n);
      assert before[..n] == jobs[..n];
    } else {
      assert jobs[..n] == jobs;
    }
  }

  // The placement loop: it accepts exactly the placeable job lists.
  method Place(jobs: seq<Job>, slots: nat) returns (r: Result<seq<seq<int>>>)
    requires AllParsed(jobs)
    ensures r.Ok? <==> Placeable(jobs, slots)
    ensures r.Ok? ==> r.value == Allocations(jobs)
    ensures r.Err? ==> r.error != TooManyRanks
  {
    var booked := new bool[slots](_ => false);
    var cursor, totalRanks, alloc := 0, 0, [];
    for n := 0 to |jobs|
      invariant cursor == Cursor(jobs[..n]) && totalRanks == TotalRanks(jobs[..n]) && alloc == Allocations(jobs[..n])
      invariant Placeable(jobs[..n], slots) && Booked(booked[..], Requested(jobs[..n]))
    {
      var j := jobs[n];
      assert jobs[..n + 1][..n] == jobs[..n];
      totalRanks := totalRanks + j.ranks;
      var nodes;
      if j.contiguous {
        nodes := Range(cursor, j.ranks);
        cursor := cursor + j.ranks;
      } else {
        nodes := j.nodes;
      }
      ghost var before := Requested(jobs[..n]);
      var ok := BookJob(j.id, nodes, booked, before);
      if ok.Err? {
        NotPlaceable(jobs, slots, n);
        return Err(ok.error);
      }
      alloc := alloc + [nodes];
    }
    assert jobs[..|jobs|] == jobs;
    RanksFit(jobs, slots);
    if totalRanks > slots {
      return Err(TooManyRanks);
    }
    return Ok(alloc);
  }

  lemma NotPlaceable(jobs: seq<Job>, slots: nat, n: nat)
    requires AllParsed(jobs) && n < |jobs| && Placeable(jobs[..n], slots)
    requires var s := SlotsAfter(jobs[..n], jobs[n]);
             !(Distinct(Requested(jobs[..n]) + s) && forall i :: 0 <= i < |s| ==> s[i] < slots)
    ensures !Placeable(jobs, slots)
  {
    if Placeable(jobs, slots) {
      PlaceablePrefix(jobs, slots, n + 1);
      assert jobs[..n + 1][..n] == jobs[..n];
      var r, s := Requested(jobs[..n]), SlotsAfter(jobs[..n], jobs[n]);
      assert Requested(jobs[..n + 1]) == r + s;
      forall i | 0 <= i < |s| ensures s[i] < slots {
        assert (r + s)[|r| + i] == s[i];
      }
    }
  }

  lemma {:induction false} AllocationAt(jobs: seq<Job>, i: nat)
    requires AllParsed(jobs) && i < |jobs|
    ensures |Allocations(jobs)| == |jobs| && Allocations(jobs)[i] == SlotsAfter(jobs[..i], jobs[i])
  {
    var n := |jobs| - 1;
    RequestedCount(jobs[..n]);
    if i < n {
      AllocationAt(jobs[..n], i);
      assert jobs[..n][..i] == jobs[..i];
    }
  }

  // Which slots a job gets, told without the cursor: a list of nodes is taken as it is, a
  // contiguous job gets slots in a row, the first one from slot 0 on and each later one
  // from where the contiguous job before it ends.
  lemma SlotsExact(jobs: seq<Job>, i: nat)
    requires AllParsed(jobs) && i < |jobs|
    ensures |Allocations(jobs)| == |jobs|
    ensures var slots := Allocations(jobs)[i];
            && (!jobs[i].contiguous ==> slots == jobs[i].nodes)
            && (jobs[i].contiguous ==> |slots| == jobs[i].ranks && forall k :: 0 < k < |slots| ==> slots[k] == slots[k - 1] + 1)
            && (jobs[i].contiguous && (forall j :: 0 <= j < i ==> !jobs[j].contiguous) ==> slots[0] == 0)
  {
    AllocationAt(jobs, i);
    if forall j :: 0 <= j < i ==> !jobs[j].contiguous {
      CursorStays(jobs, 0, i);
      assert jobs[..0] == [];
    }
  }

  lemma NextSlots(jobs: seq<Job>, h: nat, i: nat)
    requires AllParsed(jobs) && h < i < |jobs| && jobs[h].contiguous && jobs[i].contiguous
    requires forall j :: h < j < i ==> !jobs[j].contiguous
    ensures |Allocations(jobs)| == |jobs|
    ensures var before, slots := Allocations(jobs)[h], Allocations(jobs)[i];
            |before| > 0 && |slots| > 0 && slots[0] == before[|before| - 1] + 1
  {
    AllocationAt(jobs, h);
    AllocationAt(jobs, i);
    assert Parsed(jobs[h]) && Parsed(jobs[i]);
    assert jobs[..h + 1][..h] == jobs[..h];
    CursorStays(jobs, h + 1, i);
  }

  lemma {:induction false} CursorStays(jobs: seq<Job>, h: nat, i: nat)
    requires AllParsed(jobs) && h <= i <= |jobs| && forall j :: h <= j < i ==> !jobs[j].contiguous
    ensures Cursor(jobs[..i]) == Cursor(jobs[..h])
    decreases i
  {
    if h < i {
      CursorStays(jobs, h, i - 1);
      assert jobs[..i][..i - 1] == jobs[..i - 1];
    }
  }

  lemma {:induction false} SlotsAreRequested(jobs: seq<Job>, i: nat, n: nat, k: nat)
    requires AllParsed(jobs) && i < n <= |jobs| && k < |SlotsAfter(jobs[..i], jobs[i])|
    ensures SlotsAfter(jobs[..i], jobs[i])[k] in Requested(jobs[..n])
  {
    assert jobs[..n][..n - 1] == jobs[..n - 1];
    if i < n - 1 {
      SlotsAreRequested(jobs, i, n - 1, k);
    } else {
      var r, s := Requested(jobs[..i]), SlotsAfter(jobs[..i], jobs[i]);
      assert (r + s)[|r| + k] == s[k];
    }
  }

  // The allocations of an accepted list: each job gets as many different slots as it
  // has ranks, all of them exist, and no two jobs share one.
  lemma AllocationsDisjoint(jobs: seq<Job>, slots: nat, i: nat, j: nat)
    requires AllParsed(jobs) && Placeable(jobs, slots) && i < |jobs| && j < |jobs|
    ensures |Allocations(jobs)| == |jobs|
    ensures |Allocations(jobs)[j]| == jobs[j].ranks && Distinct(Allocations(jobs)[j])
    ensures forall k :: 0 <= k < |Allocations(jobs)[j]| ==> 0 <= Allocations(jobs)[j][k] < slots
    ensures i != j ==> Apart(Allocations(jobs)[i], Allocations(jobs)[j])
  {
    AllocationAt(jobs, i);
    AllocationAt(jobs, j);
    LaterApart(jobs, slots, i, j);
    if j < i {
      LaterApart(jobs, slots, j, i);
    }
  }

  lemma LaterApart(jobs: seq<Job>, slots: nat, i: nat, j: nat)
    requires AllParsed(jobs) && Placeable(jobs, slots) && i < |jobs| && j < |jobs|
    ensures var a, b := SlotsAfter(jobs[..i], jobs[i]), SlotsAfter(jobs[..j], jobs[j]);
            Distinct(b) && (forall k :: 0 <= k < |b| ==> 0 <= b[k] < slots) && (i < j ==> Apart(a, b))
  {
    var a, b, r := SlotsAfter(jobs[..i], jobs[i]), SlotsAfter(jobs[..j], jobs[j]), Requested(jobs[..j]);
    PlaceablePrefix(jobs, slots, j + 1);
    assert jobs[..j + 1][..j] == jobs[..j];
    assert Requested(jobs[..j + 1]) == r + b;
    LastApart(r, b, slots);
    if i < j {
      forall k, l | 0 <= k < |a| && 0 <= l < |b| ensures a[k] != b[l] {
        SlotsAreRequested(jobs, i, j, k);
      }
    }
  }

  lemma LastApart(r: seq<int>, s: seq<int>, slots: nat)
    requires Distinct(r + s) && forall i :: 0 <= i < |r + s| ==> 0 <= (r + s)[i] < slots
    ensures Distinct(s) && (forall l :: 0 <= l < |s| ==> 0 <= s[l] < slots && s[l] !in r && s[l] in r + s)
    ensures forall k :: 0 <= k < |r| ==> r[k] in r + s
  {
    forall l | 0 <= l < |s| ensures 0 <= s[l] < slots && s[l] !in r && s[l] in r + s {
      assert (r + s)[|r| + l] == s[l];
      forall k | 0 <= k < |r| ensures r[k] != s[l] {
        assert (r + s)[k] == r[k];
      }
    }
    forall i, j | 0 <= i < j < |s| ensures s[i] != s[j] {
      assert (r + s)[|r| + i] == s[i] && (r + s)[|r| + j] == s[j];
    }
  }

  /* ---- what is emitted ---- */

  function OptionalKey(name: string, value: Option<string>): seq<Entry> {
    if value.Some? then [Key(name, [value.value])] else []
  }

  // add_workload_keys: a fixed order, whatever the order in the document.
  function WorkloadKeys(wl: Workload): seq<Entry> {
    [Key("type", [wl.kind])] + OptionalKey("traffic", wl.traffic) + OptionalKey("num_messages", wl.numMessages)
    + OptionalKey("payload_size", wl.payloadSize) + OptionalKey("arrival_time", wl.arrivalTime)
  }

  function WorkloadSection(wl: Workload): Entry {
    Sub("WORKLOAD", Section(WorkloadKeys(wl)))
  }

  function ShowAll(nodes: seq<int>): seq<string> {
    seq(|nodes|, i requires 0 <= i < |nodes| => Decimal.ShowInt(nodes[i]))
  }

  function JobSection(j: Job, nodes: seq<int>): Section {
    Section(WorkloadKeys(j.wl) + [Key("ranks", [Decimal.ShowInt(j.ranks)]), Key("nodes", ShowAll(nodes))])
  }

  function JobEntries(jobs: seq<Job>, alloc: seq<seq<int>>, n: nat): (es: seq<Entry>)
    requires n <= |jobs| && n <= |alloc|
    ensures |es| == n && forall i :: 0 <= i < n ==> es[i] == Sub(jobs[i].id, JobSection(jobs[i], alloc[i]))
  {
    if n == 0 then [] else JobEntries(jobs, alloc, n - 1) + [Sub(jobs[n - 1].id, JobSection(jobs[n - 1], alloc[n - 1]))]
  }

  function JobsSection(jobs: seq<Job>, alloc: seq<seq<int>>): Section
    requires |jobs| == |alloc|
  {
    Section([Key("num_jobs", [Decimal.ShowInt(|jobs|)])] + JobEntries(jobs, alloc, |jobs|))
  }

  datatype Component = Component(key: string, workload: Option<Workload>)

  // The section that follows PARAMS, if any.
  function Emitted(wl: Option<Workload>, hasJobs: bool, jobs: seq<Job>, slots: nat): Option<Entry>
    requires AllParsed(jobs)
  {
    if wl.Some? then Some(WorkloadSection(wl.value))
    else if !hasJobs then None
    else if |jobs| == 1 && jobs[0].contiguous && jobs[0].ranks == slots then Some(WorkloadSection(jobs[0].wl))
    else
      RequestedCount(jobs);
      Some(Sub("JOBS", JobsSection(jobs, Allocations(jobs))))
  }

  // The workload of the last component that carries one.
  function InlineWorkload(cs: seq<Component>): Option<Workload> {
    if cs == [] then None
    else if cs[|cs| - 1].workload.Some? then cs[|cs| - 1].workload
    else InlineWorkload(cs[..|cs| - 1])
  }

  // compile_workload_jobs
  method Compile(cs: seq<Component>, hasJobs: bool, jobs: seq<Job>, slots: nat, host: string) returns (r: Result<Option<Entry>>)
    requires AllParsed(jobs)
    ensures r.Ok? <==>
            && (forall i :: 0 <= i < |cs| && cs[i].workload.Some? ==> cs[i].key == host)
            && !(InlineWorkload(cs).Some? && hasJobs)
            && (hasJobs ==> Placeable(jobs, slots))
    ensures r.Ok? ==> r.value == Emitted(InlineWorkload(cs), hasJobs, jobs, slots)
    ensures r.Err? ==> r.error != TooManyRanks
  {
    var wl: Option<Workload> := None;
    for i := 0 to |cs|
      invariant wl == InlineWorkload(cs[..i])
      invariant forall j :: 0 <= j < i && cs[j].workload.Some? ==> cs[j].key == host
    {
      assert cs[..i + 1][..i] == cs[..i];
      if cs[i].workload.Some? {
        if cs[i].key != host {
          return Err(NotTheHost(cs[i].key));
        }
        wl := cs[i].workload;
      }
    }
    assert cs[..|cs|] == cs;
    if wl.Some? && hasJobs {
      return Err(BothForms);
    }
    if wl.Some? {
      return Ok(Some(WorkloadSection(wl.value)));
    }
    if !hasJobs {
      return Ok(None);
    }
    var alloc := Place(jobs, slots);
    if alloc.Err? {
      return Err(alloc.error);
    }
    if |jobs| == 1 && jobs[0].contiguous && jobs[0].ranks == slots {
      return Ok(Some(WorkloadSection(jobs[0].wl)));
    }
    var entries := [];
    RequestedCount(jobs);
    for i := 0 to |jobs|
      invariant entries == JobEntries(jobs, alloc.value, i)
    {
      entries := entries + [Sub(jobs[i].id, JobSection(jobs[i], alloc.value[i]))];
    }
    return Ok(Some(Sub("JOBS", Section([Key("num_jobs", [Decimal.ShowInt(|jobs|)])] + entries))));
  }

  // One contiguous job on all slots is accepted and is the inline workload, spelled
  // differently.
  lemma SingleJobIsInline(wl: Workload, id: string, slots: nat)
    requires slots > 0
    ensures var j := Job(id, wl, slots, true, []);
            && AllParsed([j]) && Placeable([j], slots)
            && Emitted(None, true, [j], slots) == Emitted(Some(wl), false, [], slots)
  {
    OneContiguous(Job(id, wl, slots, true, []), slots);
  }

  lemma OneContiguous(j: Job, slots: nat)
    requires Parsed(j) && j.contiguous && j.ranks == slots
    ensures Placeable([j], slots)
  {
    var r := Range(0, slots);
    assert [j][..0] == [];
    assert SlotsAfter([], j) == r;
    assert Requested([j]) == [] + r == r;
  }

  /* ---- reading it back ---- */

  // Keys that may be missing, one after the other, are each found under their own names.
  function OptionalKeys(ps: seq<(string, Option<string>)>): seq<Entry> {
    if ps == [] then [] else OptionalKey(ps[0].0, ps[0].1) + OptionalKeys(ps[1..])
  }

  lemma {:induction false} OptionalKeyRead(ps: seq<(string, Option<string>)>, more: seq<Entry>, k: nat)
    requires k < |ps| && forall j :: 0 <= j < |ps| && j != k ==> ps[j].0 != ps[k].0
    requires forall j :: 0 <= j < |more| ==> more[j].name != ps[k].0
    ensures FindKeyIn(OptionalKeys(ps) + more, ps[k].0) == if ps[k].1.Some? then Some([ps[k].1.value]) else None
  {
    var rest := OptionalKeys(ps[1..]) + more;
    assert OptionalKeys(ps) + more == OptionalKey(ps[0].0, ps[0].1) + rest;
    FirstKey(ps[0].0, ps[0].1, rest, ps[k].0);
    if k > 0 {
      OptionalKeyRead(ps[1..], more, k - 1);
    } else {
      OptionalKeyMissing(ps[1..], more, ps[0].0);
    }
  }

  lemma {:induction false} OptionalKeyMissing(ps: seq<(string, Option<string>)>, more: seq<Entry>, name: string)
    requires forall j :: 0 <= j < |ps| ==> ps[j].0 != name
    requires forall j :: 0 <= j < |more| ==> more[j].name != name
    ensures FindKeyIn(OptionalKeys(ps) + more, name) == None
  {
    if ps == [] {
      assert OptionalKeys(ps) + more == more;
      NoKey(more, name);
    } else {
      OptionalKeyMissing(ps[1..], more, name);
      assert OptionalKeys(ps) + more == OptionalKey(ps[0].0, ps[0].1) + (OptionalKeys(ps[1..]) + more);
      FirstKey(ps[0].0, ps[0].1, OptionalKeys(ps[1..]) + more, name);
    }
  }

  // The parameters of a workload by their names.
  function Params(wl: Workload): seq<(string, Option<string>)> {
    [("type", Some(wl.kind)), ("traffic", wl.traffic), ("num_messages", wl.numMessages), ("payload_size", wl.payloadSize),
     ("arrival_time", wl.arrivalTime)]
  }

  // What a lookup in the section of a workload, or of a job, gives for each of them.
  lemma WorkloadReads(wl: Workload, more: seq<Entry>, k: nat)
    requires k < 5 && forall j :: 0 <= j < |more| ==> more[j].name != Params(wl)[k].0
    ensures var (name, value) := Params(wl)[k];
            FindKeyIn(WorkloadKeys(wl) + more, name) == if value.Some? then Some([value.value]) else None
  {
    KeysAreOptional(wl);
    ParamsDiffer(wl, k);
    OptionalKeyRead(Params(wl), more, k);
  }

  lemma KeysAreOptional(wl: Workload)
    ensures WorkloadKeys(wl) == OptionalKeys(Params(wl))
  {
    var a, b, c, d, e := Params(wl)[0], Params(wl)[1], Params(wl)[2], Params(wl)[3], Params(wl)[4];
    OptionalCons(e, []);
    OptionalCons(d, [e]);
    OptionalCons(c, [d, e]);
    OptionalCons(b, [c, d, e]);
    OptionalCons(a, [b, c, d, e]);
    assert [e] + [] == [e] && [d] + [e] == [d, e] && [c] + [d, e] == [c, d, e] && [b] + [c, d, e] == [b, c, d, e];
    assert [a] + [b, c, d, e] == Params(wl);
  }

  lemma OptionalCons(p: (string, Option<string>), ps: seq<(string, Option<string>)>)
    ensures OptionalKeys([p] + ps) == OptionalKey(p.0, p.1) + OptionalKeys(ps)
  {
    ConsTail(p, ps);
  }

  lemma ParamsDiffer(wl: Workload, k: nat)
    requires k < 5
    ensures forall j :: 0 <= j < 5 && j != k ==> Params(wl)[j].0 != Params(wl)[k].0
  {
    assert |"type"| == 4 && |"traffic"| == 7 && |"num_messages"| == |"payload_size"| == |"arrival_time"| == 12;
    assert "num_messages"[0] == 'n' && "payload_size"[0] == 'p' && "arrival_time"[0] == 'a';
  }

  lemma FirstKey(first: string, value: Option<string>, rest: seq<Entry>, name: string)
    ensures FindKeyIn(OptionalKey(first, value) + rest, name) == if first == name && value.Some? then Some([value.value]) else FindKeyIn(rest, name)
  {
    if value.None? {
      assert OptionalKey(first, value) + rest == rest;
    } else {
      assert (OptionalKey(first, value) + rest)[1..] == rest;
    }
  }

  lemma {:induction false} NoKey(es: seq<Entry>, name: string)
    requires forall i :: 0 <= i < |es| ==> es[i].name != name
    ensures FindKeyIn(es, name) == None
  {
    if es != [] {
      NoKey(es[1..], name);
    }
  }

  // The job's section holds its allocation under "nodes".
  lemma NodesReadBack(j: Job, nodes: seq<int>)
    ensures FindKey(JobSection(j, nodes), "nodes") == Some(ShowAll(nodes))
    ensures FindKey(JobSection(j, nodes), "ranks") == Some([Decimal.ShowInt(j.ranks)])
  {
    var es := JobSection(j, nodes).entries;
    var n := |WorkloadKeys(j.wl)|;
    forall i | 0 <= i < n ensures es[i].Key? && es[i].name != "nodes" && es[i].name != "ranks" {
      assert es[i] in WorkloadKeys(j.wl);
    }
    FindKeyAt(es, "ranks", n);
    FindKeyAt(es, "nodes", n + 1);
  }

  lemma {:induction false} FindKeyAt(es: seq<Entry>, name: string, n: nat)
    requires n < |es| && es[n].Key? && es[n].name == name && forall i :: 0 <= i < n ==> es[i].name != name
    ensures FindKeyIn(es, name) == Some(es[n].values)
  {
    if n > 0 {
      FindKeyAt(es[1..], name, n - 1);
    }
  }

  lemma {:induction false} FindSubAt(es: seq<Entry>, name: string, n: nat)
    requires n < |es| && es[n].Sub? && SameName(es[n].name, name)
    requires forall i :: 0 <= i < n && es[i].Sub? ==> !SameName(es[i].name, name)
    ensures FindSubIn(es, name) == Some(es[n].section)
  {
    if n > 0 {
      FindSubAt(es[1..], name, n - 1);
    }
  }

  // Looking a job up by its id gives the first job whose id is the same without
  // regard to case: ids that differ in case only are accepted, and the later job
  // cannot be reached.
  lemma JobLookup(jobs: seq<Job>, alloc: seq<seq<int>>, i: nat, name: string)
    requires |jobs| == |alloc| && i < |jobs| && SameName(jobs[i].id, name)
    requires forall k :: 0 <= k < i ==> !SameName(jobs[k].id, name)
    ensures FindSub(JobsSection(jobs, alloc), name) == Some(JobSection(jobs[i], alloc[i]))
  {
    var es := JobEntries(jobs, alloc, |jobs|);
    FindSubCons(Key("num_jobs", [Decimal.ShowInt(|jobs|)]), es, name);
    FindSubAt(es, name, i);
  }

  // Some job before i has the id of job i ignoring case, and then there is a first one.
  lemma {:induction false} FirstOfName(jobs: seq<Job>, name: string, n: nat) returns (k: nat)
    requires n < |jobs| && SameName(jobs[n].id, name)
    ensures k <= n && SameName(jobs[k].id, name) && forall l :: 0 <= l < k ==> !SameName(jobs[l].id, name)
    decreases n
  {
    k := n;
    if l :| 0 <= l < n && SameName(jobs[l].id, name) {
      k := FirstOfName(jobs, name, l);
    }
  }

  // The sections of two jobs that share no slot differ.
  lemma SectionsDiffer(j: Job, a: seq<int>, l: Job, b: seq<int>)
    requires |a| > 0 && a[0] >= 0 && Apart(a, b) && forall k :: 0 <= k < |b| ==> b[k] >= 0
    ensures JobSection(j, a) != JobSection(l, b)
  {
    NodesReadBack(j, a);
    NodesReadBack(l, b);
    if ShowAll(a) == ShowAll(b) {
      assert ShowAll(a)[0] == ShowAll(b)[0];
      Decimal.ShowInjective(a[0], b[0]);
    }
  }

  // So the jobs of an accepted list that can be reached by their ids are those without
  // an earlier job of the same id ignoring case.
  lemma ReachableIff(jobs: seq<Job>, slots: nat, i: nat)
    requires AllParsed(jobs) && Placeable(jobs, slots) && i < |jobs|
    ensures |Allocations(jobs)| == |jobs|
    ensures FindSub(JobsSection(jobs, Allocations(jobs)), jobs[i].id) == Some(JobSection(jobs[i], Allocations(jobs)[i]))
       <==> forall k :: 0 <= k < i ==> !SameName(jobs[k].id, jobs[i].id)
  {
    AllocationsDisjoint(jobs, slots, i, i);
    var alloc := Allocations(jobs);
    var k := FirstOfName(jobs, jobs[i].id, i);
    JobLookup(jobs, alloc, k, jobs[i].id);
    if k < i {
      AllocationsDisjoint(jobs, slots, i, k);
      AllocationsDisjoint(jobs, slots, k, k);
      SectionsDiffer(jobs[k], alloc[k], jobs[i], alloc[i]);
    }
  }

  // Two jobs "a" and "A" on two slots compile, and both names open the first one.
  lemma CaseHidesJob(wl: Workload)
    ensures var jobs := [Job("a", wl, 1, true, []), Job("A", wl, 1, true, [])];
            && AllParsed(jobs) && jobs[0].id != jobs[1].id && Placeable(jobs, 2) && |Allocations(jobs)| == 2
            && FindSub(JobsSection(jobs, Allocations(jobs)), "A") == FindSub(JobsSection(jobs, Allocations(jobs)), "a")
  {
    var one, two := Job("a", wl, 1, true, []), Job("A", wl, 1, true, []);
    TwoContiguous(one, two);
    JobLookup([one, two], Allocations([one, two]), 0, "a");
    JobLookup([one, two], Allocations([one, two]), 0, "A");
  }

  lemma TwoContiguous(one: Job, two: Job)
    requires one.contiguous && two.contiguous && one.ranks == two.ranks == 1 && Parsed(one) && Parsed(two)
    ensures Placeable([one, two], 2) && |Allocations([one, two])| == 2
  {
    assert [one, two][..1] == [one] && [one][..0] == [];
    assert SlotsAfter([], one) == [0];
    assert Requested([]) == [] && Cursor([]) == 0;
    assert Requested([one]) == [] + [0] && Cursor([one]) == 0 + 1;
    assert SlotsAfter([one], two) == [1];
    assert Requested([one, two]) == [0, 1];
    RequestedCount([one, two]);
  }
}
