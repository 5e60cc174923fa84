/** The two clusters of doc/example_heterogeneous/example.c. Every node of cluster foo
    pings one node of cluster bar through the forwarders of both clusters and waits for
    the pong before it sends its next ping. A step delivers any one message in flight. */
module Forwarding {
  import opened Residues
  import opened Seqs

  datatype Config = Config(foo: nat, bar: nat, fooForwarders: nat, barForwarders: nat, pings: int) {
    predicate Valid() {
      foo > 0 && bar > 0 && fooForwarders > 0 && barForwarders > 0
    }

    // The kickoff sends one ping before anything looks at num_pings.
    function Rounds(): (r: int)
      ensures r >= 1
    {
      if pings >= 1 then pings else 1
    }
  }

  datatype Node = Node(inFoo: bool, id: int, processed: int)

  datatype NodeEvent = RecvPing | RecvPong

  datatype Addr = FooNode(i: int) | BarNode(i: int) | FooForwarder(i: int) | BarForwarder(i: int)

  datatype Msg =
    | Kickoff
    | ToNode(event: NodeEvent, src: int)
    | Fwd(src: int, dst: int, event: NodeEvent)
    | Recv(src: int, dst: int, event: NodeEvent)

  datatype Packet = Packet(to: Addr, msg: Msg)

  // A failed assertion and a call of tw_error end the whole simulation.
  datatype Outcome<T> = Ok(value: T) | Aborted

  /* ---- the handlers ---- */

  // handle_node_next
  function Next(c: Config, n: Node): Outcome<seq<Packet>>
    requires c.Valid()
  {
    if !n.inFoo then Aborted else
    Ok([Packet(FooForwarder(n.id % c.fooForwarders), Fwd(n.id, n.id % c.bar, RecvPing))])
  }

  // node_event_handler: the node afterwards and what it sends.
  function OnNode(c: Config, n: Node, m: Msg): Outcome<(Node, seq<Packet>)>
    requires c.Valid()
  {
    match m
    case Kickoff => (
      if n.inFoo then With(n, Next(c, n)) else Ok((n, [])))
    case ToNode(RecvPing, src) => (
      if n.inFoo || src % c.bar != n.id then Aborted else
      Ok((n.(processed := n.processed + 1),
          [Packet(BarForwarder(n.id % c.barForwarders), Fwd(n.id, src, RecvPong))])))
    case ToNode(RecvPong, _) => (
      if n.id >= c.foo then Aborted else
      var t := n.(processed := n.processed + 1);
      if t.processed < c.pings then With(t, Next(c, t)) else Ok((t, [])))
    case _ => Aborted
  }

  function With(n: Node, sent: Outcome<seq<Packet>>): Outcome<(Node, seq<Packet>)> {
    if sent.Ok? then Ok((n, sent.value)) else Aborted
  }

  // forwarder_event_handler of forwarder id: what it sends.
  function OnForwarder(c: Config, inFoo: bool, id: int, m: Msg): Outcome<seq<Packet>>
    requires c.Valid()
  {
    match m
    case Fwd(src, dst, event) =>
      Ok([Packet(if inFoo then BarForwarder(id % c.barForwarders) else FooForwarder(id % c.fooForwarders), Recv(src, dst, event))])
    case Recv(src, dst, event) =>
      Ok([Packet(if inFoo then FooNode(dst) else BarNode(dst), ToNode(event, src))])
    case _ => Aborted
  }

  datatype System = System(foo: seq<Node>, bar: seq<Node>, flight: seq<Packet>)

  // Delivering packet k; a receiver that does not exist is an error of the mapping.
  function Deliver(c: Config, s: System, k: nat): Outcome<System>
    requires c.Valid() && k < |s.flight|
  {
    var p, rest := s.flight[k], Without(s.flight, k);
    match p.to
    case FooNode(i) => (
      if !(0 <= i < |s.foo|) then Aborted else
      var r := OnNode(c, s.foo[i], p.msg);
      if r.Aborted? then Aborted else Ok(System(s.foo[i := r.value.0], s.bar, rest + r.value.1)))
    case BarNode(i) => (
      if !(0 <= i < |s.bar|) then Aborted else
      var r := OnNode(c, s.bar[i], p.msg);
      if r.Aborted? then Aborted else Ok(System(s.foo, s.bar[i := r.value.0], rest + r.value.1)))
    case FooForwarder(i) => (
      if !(0 <= i < c.fooForwarders) then Aborted else
      var r := OnForwarder(c, true, i, p.msg);
      if r.Aborted? then Aborted else Ok(s.(flight := rest + r.value)))
    case BarForwarder(i) => (
      if !(0 <= i < c.barForwarders) then Aborted else
      var r := OnForwarder(c, false, i, p.msg);
      if r.Aborted? then Aborted else Ok(s.(flight := rest + r.value)))
  }

  function FooKicks(n: nat): seq<Packet> {
    if n == 0 then [] else FooKicks(n - 1) + [Packet(FooNode(n - 1), Kickoff)]
  }

  function BarKicks(n: nat): seq<Packet> {
    if n == 0 then [] else BarKicks(n - 1) + [Packet(BarNode(n - 1), Kickoff)]
  }

  // node_lp_init of every node
  function Start(c: Config): System {
    System(seq(c.foo, i => Node(true, i, 0)), seq(c.bar, i => Node(false, i, 0)), FooKicks(c.foo) + BarKicks(c.bar))
  }

  /* ---- measures of the messages in flight ---- */

  // The node of foo on whose behalf a message travels, -1 for the kickoffs of bar.
  function Owner(p: Packet): int {
    match p.msg
    case Kickoff => if p.to.FooNode? then p.to.i else -1
    case ToNode(RecvPing, src) => src
    case ToNode(RecvPong, _) => p.to.i
    case Fwd(src, dst, event) => if event.RecvPing? then src else dst
    case Recv(src, dst, event) => if event.RecvPing? then src else dst
  }

  // The node of bar has counted the ping.
  predicate OnTheWayBack(m: Msg) {
    !m.Kickoff? && m.event.RecvPong?
  }

  // How many deliveries a message leads to before its node of foo counts a pong.
  function Hops(p: Packet): nat {
    match p.msg
    case Kickoff => if p.to.FooNode? then 7 else 1
    case ToNode(event, _) => if event.RecvPing? then 4 else 1
    case Fwd(_, _, event) => if event.RecvPing? then 6 else 3
    case Recv(_, _, event) => if event.RecvPing? then 5 else 2
  }

  datatype Measure = OwnedBy(i: int) | BackFrom(bar: nat, j: int) | AllHops

  function Score(p: Packet, m: Measure): nat {
    match m
    case OwnedBy(i) => if Owner(p) == i then 1 else 0
    case BackFrom(bar, j) => if OnTheWayBack(p.msg) && bar > 0 && Owner(p) % bar == j then 1 else 0
    case AllHops => Hops(p)
  }

  function Total(s: seq<Packet>, m: Measure): nat {
    if s == [] then 0 else Total(s[..|s| - 1], m) + Score(s[|s| - 1], m)
  }

  lemma {:induction false} TotalWithout(s: seq<Packet>, k: nat, m: Measure)
    requires k < |s|
    ensures Total(Without(s, k), m) == Total(s, m) - Score(s[k], m)
  {
    var n := |s| - 1;
    if k < n {
      TotalWithout(s[..n], k, m);
      assert Without(s, k)[..n - 1] == Without(s[..n], k);
    } else {
      assert Without(s, k) == s[..n];
    }
  }

  lemma TotalPlus(s: seq<Packet>, p: Packet, m: Measure)
    ensures Total(s + [p], m) == Total(s, m) + Score(p, m)
  {
    assert (s + [p])[..|s|] == s;
  }

  // One message replaced by at most one other.
  lemma TotalReplace(s: seq<Packet>, k: nat, sent: seq<Packet>, m: Measure)
    requires k < |s| && |sent| <= 1
    ensures Total(Without(s, k) + sent, m) == Total(s, m) - Score(s[k], m) + if sent == [] then 0 else Score(sent[0], m)
  {
    TotalWithout(s, k, m);
    if sent == [] {
      assert Without(s, k) + sent == Without(s, k);
    } else {
      assert sent == [sent[0]];
      TotalPlus(Without(s, k), sent[0], m);
    }
  }

  /* ---- measures of the nodes of foo ---- */

  datatype Tally = Pongs(bar: nat, j: int) | RoundsLeft(rounds: int)

  // What node i adds: the pongs it has counted if it pings node j of bar, or six hops
  // for every round it has not begun.
  function Adds(n: Node, i: int, t: Tally): int {
    match t
    case Pongs(bar, j) => if bar > 0 && i % bar == j then n.processed else 0
    case RoundsLeft(rounds) => if n.processed < rounds then 6 * (rounds - n.processed - 1) else 0
  }

  function Sum(foo: seq<Node>, t: Tally): int {
    if foo == [] then 0 else Sum(foo[..|foo| - 1], t) + Adds(foo[|foo| - 1], |foo| - 1, t)
  }

  lemma {:induction false} SumUpdate(foo: seq<Node>, i: nat, n: Node, t: Tally)
    requires i < |foo|
    ensures Sum(foo[i := n], t) == Sum(foo, t) - Adds(foo[i], i, t) + Adds(n, i, t)
  {
    var last := |foo| - 1;
    if i < last {
      SumUpdate(foo[..last], i, n, t);
      assert foo[i := n][..last] == foo[..last][i := n];
    } else {
      assert foo[i := n][..last] == foo[..last];
    }
  }

  /* ---- what every reachable state satisfies ---- */

  // Messages are where the protocol sends them: a ping of node i goes through forwarder
  // i mod F of foo and that number mod B of bar to node i mod bar, and its pong through
  // forwarder (i mod bar) mod B of bar and that number mod F of foo back to i.
  predicate OnRoute(c: Config, p: Packet)
    requires c.Valid()
  {
    match p.msg
    case Kickoff => (p.to.FooNode? && 0 <= p.to.i < c.foo) || (p.to.BarNode? && 0 <= p.to.i < c.bar)
    case ToNode(event, src) =>
      if event.RecvPing? then p.to == BarNode(src % c.bar) && 0 <= src < c.foo
      else p.to.FooNode? && 0 <= p.to.i < c.foo && src == p.to.i % c.bar
    case Fwd(src, dst, event) =>
      if event.RecvPing? then p.to == FooForwarder(src % c.fooForwarders) && 0 <= src < c.foo && dst == src % c.bar
      else p.to == BarForwarder(dst % c.bar % c.barForwarders) && 0 <= dst < c.foo && src == dst % c.bar
    case Recv(src, dst, event) =>
      if event.RecvPing? then p.to == BarForwarder(src % c.fooForwarders % c.barForwarders) && 0 <= src < c.foo && dst == src % c.bar
      else p.to == FooForwarder(dst % c.bar % c.barForwarders % c.fooForwarders) && 0 <= dst < c.foo && src == dst % c.bar
  }

  // A node of foo has one message under way until it has counted all its pongs.
  ghost predicate FooInv(c: Config, n: Node, i: int, flight: seq<Packet>) {
    && n.inFoo && n.id == i && 0 <= n.processed <= c.Rounds()
    && Total(flight, OwnedBy(i)) == if n.processed < c.Rounds() then 1 else 0
  }

  // A node of bar has counted every ping whose pong has arrived or is under way.
  ghost predicate BarInv(c: Config, n: Node, j: int, foo: seq<Node>, flight: seq<Packet>) {
    && !n.inFoo && n.id == j
    && n.processed == Sum(foo, Pongs(c.bar, j)) + Total(flight, BackFrom(c.bar, j))
  }

  ghost predicate Inv(c: Config, s: System) {
    && c.Valid() && |s.foo| == c.foo && |s.bar| == c.bar
    && (forall k :: 0 <= k < |s.flight| ==> OnRoute(c, s.flight[k]))
    && (forall i :: 0 <= i < c.foo ==> FooInv(c, s.foo[i], i, s.flight))
    && (forall j :: 0 <= j < c.bar ==> BarInv(c, s.bar[j], j, s.foo, s.flight))
  }

  ghost function Work(c: Config, s: System): int {
    Sum(s.foo, RoundsLeft(c.Rounds())) + Total(s.flight, AllHops)
  }

  // The message that a delivery sends.
  function Sent(c: Config, s: System, k: nat): seq<Packet>
    requires c.Valid() && k < |s.flight| && Deliver(c, s, k).Ok?
  {
    Deliver(c, s, k).value.flight[|s.flight| - 1..]
  }

  // No delivery aborts, and each replaces its message by the next one on the route.
  lemma DeliverShape(c: Config, s: System, k: nat)
    requires Inv(c, s) && k < |s.flight|
    ensures Deliver(c, s, k).Ok?
    ensures var t, p, sent := Deliver(c, s, k).value, s.flight[k], Sent(c, s, k);
            && t.flight == Without(s.flight, k) + sent && |sent| <= 1
            && (sent != [] ==> OnRoute(c, sent[0]) && Owner(sent[0]) == Owner(p))
            && |t.foo| == c.foo && |t.bar| == c.bar
  {
    assert OnRoute(c, s.flight[k]);
    var i := s.flight[k].to.i;
    if s.flight[k].to.FooNode? {
      assert FooInv(c, s.foo[i], i, s.flight);
    } else if s.flight[k].to.BarNode? {
      assert BarInv(c, s.bar[i], i, s.foo, s.flight);
    }
  }

  // Which node a delivery changes, and how the messages in flight change with it.
  lemma DeliverTotals(c: Config, s: System, k: nat, m: Measure)
    requires Inv(c, s) && k < |s.flight| && Deliver(c, s, k).Ok?
    ensures var sent := Sent(c, s, k);
            Total(Deliver(c, s, k).value.flight, m) == Total(s.flight, m) - Score(s.flight[k], m) + if sent == [] then 0 else Score(sent[0], m)
  {
    DeliverShape(c, s, k);
    TotalReplace(s.flight, k, Sent(c, s, k), m);
  }

  // A message of node i in flight means that i still waits for a pong.
  lemma {:induction false} OneOwned(s: seq<Packet>, k: nat)
    requires k < |s|
    ensures Total(s, OwnedBy(Owner(s[k]))) >= 1
  {
    TotalWithout(s, k, OwnedBy(Owner(s[k])));
  }

  lemma StepFoo(c: Config, s: System, k: nat, i: int)
    requires Inv(c, s) && k < |s.flight| && 0 <= i < c.foo
    ensures Deliver(c, s, k).Ok?
    ensures var t := Deliver(c, s, k).value; |t.foo| == c.foo && FooInv(c, t.foo[i], i, t.flight)
  {
    DeliverShape(c, s, k);
    DeliverTotals(c, s, k, OwnedBy(i));
    OneOwned(s.flight, k);
    assert OnRoute(c, s.flight[k]) && FooInv(c, s.foo[i], i, s.flight);
  }

  lemma StepBar(c: Config, s: System, k: nat, j: int)
    requires Inv(c, s) && k < |s.flight| && 0 <= j < c.bar
    ensures Deliver(c, s, k).Ok?
    ensures var t := Deliver(c, s, k).value; |t.bar| == c.bar && BarInv(c, t.bar[j], j, t.foo, t.flight)
  {
    DeliverShape(c, s, k);
    DeliverTotals(c, s, k, BackFrom(c.bar, j));
    var p, t := s.flight[k], Deliver(c, s, k).value;
    assert OnRoute(c, p) && BarInv(c, s.bar[j], j, s.foo, s.flight);
    if p.to.FooNode? {
      SumUpdate(s.foo, p.to.i, t.foo[p.to.i], Pongs(c.bar, j));
    }
  }

  lemma StepKeepsInv(c: Config, s: System, k: nat)
    requires Inv(c, s) && k < |s.flight|
    ensures Deliver(c, s, k).Ok? && Inv(c, Deliver(c, s, k).value)
  {
    DeliverShape(c, s, k);
    var t := Deliver(c, s, k).value;
    forall i | 0 <= i < c.foo ensures FooInv(c, t.foo[i], i, t.flight) {
      StepFoo(c, s, k, i);
    }
    forall j | 0 <= j < c.bar ensures BarInv(c, t.bar[j], j, t.foo, t.flight) {
      StepBar(c, s, k, j);
    }
  }

  // Every delivery is one hop of the work there is.
  lemma StepWorks(c: Config, s: System, k: nat)
    requires Inv(c, s) && k < |s.flight|
    ensures Deliver(c, s, k).Ok? && Work(c, Deliver(c, s, k).value) == Work(c, s) - 1
  {
    DeliverShape(c, s, k);
    DeliverTotals(c, s, k, AllHops);
    OneOwned(s.flight, k);
    var p, t := s.flight[k], Deliver(c, s, k).value;
    assert OnRoute(c, p);
    if p.to.FooNode? {
      assert FooInv(c, s.foo[p.to.i], p.to.i, s.flight);
      SumUpdate(s.foo, p.to.i, t.foo[p.to.i], RoundsLeft(c.Rounds()));
    }
  }

  /* ---- the start ---- */

  lemma {:induction false} FooKicksTotal(n: nat, m: Measure)
    ensures Total(FooKicks(n), m) == match m case OwnedBy(i) => (if 0 <= i < n then 1 else 0) case BackFrom(_, _) => 0 case AllHops => 7 * n
    ensures forall k :: 0 <= k < |FooKicks(n)| ==> FooKicks(n)[k].msg.Kickoff? && FooKicks(n)[k].to.FooNode? && 0 <= FooKicks(n)[k].to.i < n
  {
    if n > 0 {
      FooKicksTotal(n - 1, m);
      TotalPlus(FooKicks(n - 1), Packet(FooNode(n - 1), Kickoff), m);
    }
  }

  lemma {:induction false} BarKicksTotal(s: seq<Packet>, n: nat, m: Measure)
    ensures Total(s + BarKicks(n), m) == Total(s, m) + match m case OwnedBy(i) => (if i == -1 then n else 0) case BackFrom(_, _) => 0 case AllHops => n
    ensures forall k :: 0 <= k < |BarKicks(n)| ==> BarKicks(n)[k].msg.Kickoff? && BarKicks(n)[k].to.BarNode? && 0 <= BarKicks(n)[k].to.i < n
  {
    if n == 0 {
      assert s + [] == s;
    } else {
      BarKicksTotal(s, n - 1, m);
      assert s + BarKicks(n) == (s + BarKicks(n - 1)) + [Packet(BarNode(n - 1), Kickoff)];
      TotalPlus(s + BarKicks(n - 1), Packet(BarNode(n - 1), Kickoff), m);
    }
  }

  // When all nodes of foo have counted the same number of pongs.
  lemma {:induction false} EqualRounds(foo: seq<Node>, t: Tally, done: int, six: int)
    requires forall i :: 0 <= i < |foo| ==> foo[i].processed == done
    requires t.Pongs? ==> t.bar > 0
    requires t.RoundsLeft? ==> six == if done < t.rounds then 6 * (t.rounds - done - 1) else 0
    ensures Sum(foo, t) == if t.Pongs? then done * Leaving(|foo|, t.bar, t.j) else |foo| * six
  {
    if foo != [] {
      var n := |foo| - 1;
      EqualRounds(foo[..n], t, done, six);
      if t.Pongs? {
        assert done * (Leaving(n, t.bar, t.j) + 1) == done * Leaving(n, t.bar, t.j) + done;
      } else {
        assert (n + 1) * six == n * six + six;
      }
    } else if t.Pongs? {
      assert Leaving(0, t.bar, t.j) == 0;
    }
  }

  // What is in flight at the start, by any measure.
  lemma StartTotal(c: Config, m: Measure)
    ensures Total(FooKicks(c.foo) + BarKicks(c.bar), m) ==
            match m case OwnedBy(i) => (if 0 <= i < c.foo then 1 else 0) + (if i == -1 then c.bar else 0)
                    case BackFrom(_, _) => 0
                    case AllHops => 7 * c.foo + c.bar
  {
    FooKicksTotal(c.foo, m);
    BarKicksTotal(FooKicks(c.foo), c.bar, m);
  }

  lemma StartOnRoute(c: Config, k: nat)
    requires c.Valid() && k < |Start(c).flight|
    ensures OnRoute(c, Start(c).flight[k])
  {
    FooKicksTotal(c.foo, AllHops);
    BarKicksTotal([], c.bar, AllHops);
  }

  lemma StartHasInv(c: Config)
    requires c.Valid()
    ensures Inv(c, Start(c))
  {
    var s := Start(c);
    forall k | 0 <= k < |s.flight| ensures OnRoute(c, s.flight[k]) {
      StartOnRoute(c, k);
    }
    forall i | 0 <= i < c.foo ensures FooInv(c, s.foo[i], i, s.flight) {
      StartTotal(c, OwnedBy(i));
    }
    forall j | 0 <= j < c.bar ensures BarInv(c, s.bar[j], j, s.foo, s.flight) {
      StartTotal(c, BackFrom(c.bar, j));
      EqualRounds(s.foo, Pongs(c.bar, j), 0, 0);
    }
  }

  lemma StartWork(c: Config)
    requires c.Valid()
    ensures Work(c, Start(c)) == c.foo * (6 * c.Rounds() + 1) + c.bar
  {
    var f, r := c.foo, c.Rounds();
    StartTotal(c, AllHops);
    EqualRounds(Start(c).foo, RoundsLeft(r), 0, 6 * (r - 1));
    assert f * (6 * (r - 1)) + 7 * f == f * (6 * r + 1);
  }

  /* ---- whole runs ---- */

  ghost predicate Step(c: Config, s: System, t: System) {
    exists k: nat :: c.Valid() && k < |s.flight| && Deliver(c, s, k) == Ok(t)
  }

  ghost predicate IsRun(c: Config, run: seq<System>) {
    && c.Valid() && |run| > 0 && run[0] == Start(c)
    && forall n :: 0 < n < |run| ==> Step(c, run[n - 1], run[n])
  }

  lemma {:induction false} RunFacts(c: Config, run: seq<System>)
    requires IsRun(c, run)
    ensures Inv(c, run[|run| - 1])
    ensures Work(c, run[|run| - 1]) + |run| - 1 == c.foo * (6 * c.Rounds() + 1) + c.bar
  {
    var n := |run| - 1;
    if n == 0 {
      StartHasInv(c);
      StartWork(c);
    } else {
      RunFacts(c, run[..n]);
      assert Step(c, run[n - 1], run[n]);
      var k: nat :| k < |run[n - 1].flight| && Deliver(c, run[n - 1], k) == Ok(run[n]);
      StepKeepsInv(c, run[n - 1], k);
      StepWorks(c, run[n - 1], k);
    }
  }

  // So in every reachable state each message in flight is at the place that its number on
  // the way of its ping says.
  lemma MessagesOnRoute(c: Config, run: seq<System>, k: nat)
    requires IsRun(c, run) && k < |run[|run| - 1].flight|
    ensures OnRoute(c, run[|run| - 1].flight[k])
  {
    RunFacts(c, run);
  }

  // In no reachable state can a delivery fail: no assertion of a handler, no unknown
  // event type and no message to a node or forwarder that does not exist.
  lemma NeverAborts(c: Config, run: seq<System>, k: nat)
    requires IsRun(c, run) && k < |run[|run| - 1].flight|
    ensures Deliver(c, run[|run| - 1], k).Ok?
  {
    RunFacts(c, run);
    StepKeepsInv(c, run[|run| - 1], k);
  }

  lemma {:induction false} NoWork(foo: seq<Node>, rounds: int)
    ensures Sum(foo, RoundsLeft(rounds)) >= 0
  {
    if foo != [] {
      NoWork(foo[..|foo| - 1], rounds);
    }
  }

  // Every run ends, and whatever the order of delivery, after the same number of
  // deliveries: seven for the first round of a node of foo, six for any other, and
  // one for each kickoff of bar.
  lemma RunsTerminate(c: Config, run: seq<System>)
    requires IsRun(c, run)
    ensures |run| - 1 <= c.foo * (6 * c.Rounds() + 1) + c.bar
    ensures run[|run| - 1].flight == [] <==> |run| - 1 == c.foo * (6 * c.Rounds() + 1) + c.bar
  {
    RunFacts(c, run);
    var s := run[|run| - 1];
    NoWork(s.foo, c.Rounds());
    if s.flight == [] {
      forall i | 0 <= i < |s.foo| ensures s.foo[i].processed == c.Rounds() {
        assert FooInv(c, s.foo[i], i, []);
      }
      EqualRounds(s.foo, RoundsLeft(c.Rounds()), c.Rounds(), 0);
    } else {
      assert Score(s.flight[|s.flight| - 1], AllHops) >= 1;
    }
  }

  // What is counted when nothing is in flight any more.
  lemma FinalCounts(c: Config, run: seq<System>)
    requires IsRun(c, run) && run[|run| - 1].flight == []
    ensures var s := run[|run| - 1];
            && |s.foo| == c.foo && |s.bar| == c.bar
            && (forall i :: 0 <= i < c.foo ==> s.foo[i] == Node(true, i, c.Rounds()))
            && (forall j :: 0 <= j < c.bar ==>
                  s.bar[j] == Node(false, j, c.Rounds() * (c.foo / c.bar + if c.foo % c.bar > j then 1 else 0)))
  {
    RunFacts(c, run);
    var s := run[|run| - 1];
    forall i | 0 <= i < c.foo ensures s.foo[i] == Node(true, i, c.Rounds()) {
      assert FooInv(c, s.foo[i], i, []);
    }
    forall j | 0 <= j < c.bar ensures s.bar[j] == Node(false, j, c.Rounds() * (c.foo / c.bar + if c.foo % c.bar > j then 1 else 0)) {
      assert BarInv(c, s.bar[j], j, s.foo, []);
      EqualRounds(s.foo, Pongs(c.bar, j), c.Rounds(), 0);
      ResiduesExact(c.foo, c.bar, j);
    }
  }

  // node_finalize: whether it reports a mismatch.
  predicate Mismatch(c: Config, n: Node)
    requires c.Valid()
  {
    n.processed != c.pings * if n.inFoo then 1 else c.foo / c.bar + if c.foo % c.bar > n.id then 1 else 0
  }

  // After a whole run no node reports a mismatch exactly when at least one ping was
  // asked for; otherwise every node of foo does.
  lemma NoMismatchIff(c: Config, run: seq<System>)
    requires IsRun(c, run) && run[|run| - 1].flight == []
    ensures var s := run[|run| - 1];
            && ((forall n :: n in s.foo || n in s.bar ==> !Mismatch(c, n)) <==> c.pings >= 1)
            && (c.pings < 1 ==> forall n :: n in s.foo ==> Mismatch(c, n))
  {
    FinalCounts(c, run);
    assert run[|run| - 1].foo[0] in run[|run| - 1].foo;
  }

  /* ---- the node as the source has it ---- */

  // A node whose handlers update its fields and send.
  class NodeLp {
    var state: Node
    var outbox: seq<Packet>

    constructor (n: Node)
      ensures state == n && outbox == []
    {
      state, outbox := n, [];
    }

    // Each handler returns false where the source stops the simulation.
    method HandleNext(c: Config) returns (ok: bool)
      requires c.Valid()
      modifies this`outbox
      ensures ok <==> Next(c, state).Ok?
      ensures outbox == old(outbox) + if ok then Next(c, state).value else []
      ensures ok <==> state.inFoo
      ensures ok ==> outbox == old(outbox) + [Packet(FooForwarder(state.id % c.fooForwarders), Fwd(state.id, state.id % c.bar, RecvPing))]
    {
      if !state.inFoo {
        return false;
      }
      var dest := state.id % c.fooForwarders;
      outbox := outbox + [Packet(FooForwarder(dest), Fwd(state.id, state.id % c.bar, RecvPing))];
      ok := true;
    }

    method HandleRecvPing(c: Config, src: int) returns (ok: bool)
      requires c.Valid()
      modifies this
      ensures ok <==> OnNode(c, old(state), ToNode(RecvPing, src)).Ok?
      ensures ok ==> (state, outbox) == (OnNode(c, old(state), ToNode(RecvPing, src)).value.0, old(outbox) + OnNode(c, old(state), ToNode(RecvPing, src)).value.1)
      ensures ok <==> !old(state.inFoo) && src % c.bar == old(state.id)
      ensures ok ==> state == old(state).(processed := old(state.processed) + 1)
      ensures ok ==> outbox == old(outbox) + [Packet(BarForwarder(state.id % c.barForwarders), Fwd(state.id, src, RecvPong))]
    {
      if state.inFoo || src % c.bar != state.id {
        return false;
      }
      var dest := state.id % c.barForwarders;
      outbox := outbox + [Packet(BarForwarder(dest), Fwd(state.id, src, RecvPong))];
      state := state.(processed := state.processed + 1);
      ok := true;
    }

    method HandleRecvPong(c: Config, src: int) returns (ok: bool)
      requires c.Valid()
      modifies this
      ensures ok <==> OnNode(c, old(state), ToNode(RecvPong, src)).Ok?
      ensures ok ==> (state, outbox) == (OnNode(c, old(state), ToNode(RecvPong, src)).value.0, old(outbox) + OnNode(c, old(state), ToNode(RecvPong, src)).value.1)
      ensures ok ==> old(state.id) < c.foo && state == old(state).(processed := old(state.processed) + 1)
      ensures ok && state.processed >= c.pings ==> outbox == old(outbox)
      ensures ok && state.processed < c.pings ==>
                outbox == old(outbox) + [Packet(FooForwarder(state.id % c.fooForwarders), Fwd(state.id, state.id % c.bar, RecvPing))]
    {
      if state.id >= c.foo {
        return false;
      }
      state := state.(processed := state.processed + 1);
      ok := true;
      assert outbox == outbox + [];
      if state.processed < c.pings {
        ok := HandleNext(c);
      }
    }

    method Handle(c: Config, m: Msg) returns (ok: bool)
      requires c.Valid()
      modifies this
      ensures ok <==> OnNode(c, old(state), m).Ok?
      ensures ok ==> (state, outbox) == (OnNode(c, old(state), m).value.0, old(outbox) + OnNode(c, old(state), m).value.1)
    {
      match m
      case Kickoff =>
        ok := true;
        assert outbox == outbox + [];
        if state.inFoo {
          ok := HandleNext(c);
        }
      case ToNode(RecvPing, src) =>
        ok := HandleRecvPing(c, src);
      case ToNode(RecvPong, src) =>
        ok := HandleRecvPong(c, src);
      case _ =>
        ok := false;
    }
  }
}
