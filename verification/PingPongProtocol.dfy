/** The servers of doc/example/tutorial-synthetic-ping-pong.c exchanging messages.
    A step delivers any one message in flight, so every order of delivery and every
    outcome of the random draws is a run. */
module PingPongProtocol {
  import opened Arith
  import opened PingPong
  import opened Seqs

  datatype Params = Params(cfg: Config, numInitial: int, draws: int -> int -> nat) {
    ghost predicate Valid() {
      cfg.numNodes >= 3 && cfg.numMsgs >= 1 && numInitial >= 1
    }

    // the number of kickoff events that svr_init schedules
    function Kicks(): int {
      if numInitial <= cfg.numMsgs then numInitial else cfg.numMsgs
    }
  }

  datatype System = System(servers: seq<State>, flight: seq<Packet>)

  /* ---- counting ---- */

  datatype Kind = Kicks | KickTo(i: int) | Pings | PingFrom(i: int) | Pongs | PongTo(i: int)

  predicate Is(p: Packet, kind: Kind) {
    match kind
    case Kicks => p.msg.Kickoff?
    case KickTo(i) => p.msg.Kickoff? && p.dest == i
    case Pings => p.msg.Ping?
    case PingFrom(i) => p.msg.Ping? && p.msg.sender == i
    case Pongs => p.msg.Pong?
    case PongTo(i) => p.msg.Pong? && p.dest == i
  }

  function One(p: Packet, kind: Kind): nat {
    if Is(p, kind) then 1 else 0
  }

  function Count(s: seq<Packet>, kind: Kind): nat {
    if s == [] then 0 else Count(s[..|s| - 1], kind) + One(s[|s| - 1], kind)
  }

  lemma {:induction false} CountWithout(s: seq<Packet>, k: nat, kind: Kind)
    requires k < |s|
    ensures Count(Without(s, k), kind) == Count(s, kind) - One(s[k], kind)
  {
    var n := |s| - 1;
    if k < n {
      CountWithout(s[..n], k, kind);
      assert Without(s, k)[..n - 1] == Without(s[..n], k);
    } else {
      assert Without(s, k) == s[..n];
    }
  }

  lemma CountPlus(s: seq<Packet>, p: Packet, kind: Kind)
    ensures Count(s + [p], kind) == Count(s, kind) + One(p, kind)
  {
    assert (s + [p])[..|s|] == s;
  }

  datatype Field = PingsSent | PingsRecvd | PongsSent | PongsRecvd | Remaining

  function Get(cfg: Config, s: State, f: Field): int {
    match f
    case PingsSent => s.total.pingsSent
    case PingsRecvd => s.total.pingsRecvd
    case PongsSent => s.total.pongsSent
    case PongsRecvd => s.total.pongsRecvd
    case Remaining => if s.total.pingsSent < cfg.numMsgs then cfg.numMsgs - s.total.pingsSent else 0
  }

  function Sum(cfg: Config, servers: seq<State>, f: Field): int {
    if servers == [] then 0 else Sum(cfg, servers[..|servers| - 1], f) + Get(cfg, servers[|servers| - 1], f)
  }

  lemma {:induction false} SumUpdate(cfg: Config, servers: seq<State>, i: nat, t: State, f: Field)
    requires i < |servers|
    ensures Sum(cfg, servers[i := t], f) == Sum(cfg, servers, f) - Get(cfg, servers[i], f) + Get(cfg, t, f)
  {
    var n := |servers| - 1;
    if i < n {
      SumUpdate(cfg, servers[..n], i, t, f);
      assert servers[i := t][..n] == servers[..n][i := t];
    } else {
      assert servers[i := t][..n] == servers[..n];
    }
  }

  /* ---- the transition system ---- */

  // svr_init of every server: one loop of kickoff events each.
  function InitialFlight(n: nat, kicks: nat): seq<Packet> {
    if n == 0 then [] else InitialFlight(n - 1, kicks) + seq(kicks, _ => Packet(n - 1, Kickoff))
  }

  ghost predicate Init(p: Params, sys: System) {
    && p.Valid() && |sys.servers| == p.cfg.numNodes
    && (forall i :: 0 <= i < |sys.servers| ==>
          sys.servers[i] == Initial(i, sys.servers[i].startTs, sys.servers[i].rng))
    && sys.flight == InitialFlight(p.cfg.numNodes, p.Kicks())
  }

  function DeliverAt(p: Params, sys: System, k: nat, now: real, netDraws: nat): System
    requires p.cfg.numNodes >= 3 && k < |sys.flight| && 0 <= sys.flight[k].dest < |sys.servers|
  {
    var to := sys.flight[k].dest;
    var f := Forward(p.cfg, p.draws(to), sys.servers[to], sys.flight[k].msg, now, netDraws, false);
    System(sys.servers[to := f.0], Without(sys.flight, k) + (if f.2.Some? then [f.2.value] else []))
  }

  ghost predicate Step(p: Params, s: System, t: System) {
    exists k: nat, now: real, netDraws: nat ::
      p.cfg.numNodes >= 3 && k < |s.flight| && 0 <= s.flight[k].dest < |s.servers| && t == DeliverAt(p, s, k, now, netDraws)
  }

  // A message has a real receiver, and a ping a real sender that is not its receiver.
  predicate Addressed(p: Params, x: Packet) {
    && 0 <= x.dest < p.cfg.numNodes
    && (x.msg.Ping? ==> 0 <= x.msg.sender < p.cfg.numNodes && x.msg.sender != x.dest)
  }

  // The pings of server i that have not come back as a pong.
  function Open(flight: seq<Packet>, i: int): int {
    Count(flight, PingFrom(i)) + Count(flight, PongTo(i))
  }

  ghost predicate ServerInv(p: Params, s: State, flight: seq<Packet>, i: int) {
    var kicks := Count(flight, KickTo(i));
    && s.svrId == i
    && s.total.pingsSent == Open(flight, i) + s.total.pongsRecvd
    && s.total.pongsSent == s.total.pingsRecvd
    && kicks + Open(flight, i) <= p.Kicks()
    && (s.total.pingsSent < p.cfg.numMsgs ==> kicks + Open(flight, i) == p.Kicks())
    && s.total.pingsSent + kicks <= p.cfg.numMsgs + p.Kicks() - 1
  }

  ghost predicate Conserved(p: Params, sys: System) {
    && Sum(p.cfg, sys.servers, PingsSent) == Sum(p.cfg, sys.servers, PingsRecvd) + Count(sys.flight, Pings)
    && Sum(p.cfg, sys.servers, PongsSent) == Sum(p.cfg, sys.servers, PongsRecvd) + Count(sys.flight, Pongs)
  }

  ghost predicate Inv(p: Params, sys: System) {
    && p.Valid() && |sys.servers| == p.cfg.numNodes
    && (forall k :: 0 <= k < |sys.flight| ==> Addressed(p, sys.flight[k]))
    && (forall i :: 0 <= i < |sys.servers| ==> ServerInv(p, sys.servers[i], sys.flight, i))
    && Conserved(p, sys)
  }

  /* ---- the choice of the receiver ---- */

  // A server never pings itself -- and never the server before it either; every
  // other server is the outcome of some draw.
  lemma DestinationExact(cfg: Config, s: State, d: int)
    requires cfg.numNodes >= 3 && 0 <= s.svrId < cfg.numNodes
    ensures (exists draw: int -> nat :: Destination(cfg, draw, s) == d)
       <==> 0 <= d < cfg.numNodes && d != s.svrId && d != (s.svrId - 1) % cfg.numNodes
  {
    var n := cfg.numNodes;
    if draw: int -> nat :| Destination(cfg, draw, s) == d {
      DestinationOther(cfg, draw, s);
    }
    if 0 <= d < n && d != s.svrId && d != (s.svrId - 1) % n {
      var off := if d > s.svrId then d - s.svrId else d - s.svrId + n;
      assert 1 <= off <= n - 2 by {
        if s.svrId == 0 { DivModUnique(-1, n, -1, n - 1); } else { DivModUnique(s.svrId - 1, n, 0, s.svrId - 1); }
      }
      var draw: int -> nat := _ => off - 1;
      DivModUnique(off - 1, n - 2, 0, off - 1);
      DivModUnique(s.svrId + off, n, if d > s.svrId then 0 else 1, d);
      assert Destination(cfg, draw, s) == d;
    }
  }

  lemma DestinationOther(cfg: Config, draw: int -> nat, s: State)
    requires cfg.numNodes >= 3 && 0 <= s.svrId < cfg.numNodes
    ensures var d := Destination(cfg, draw, s);
            0 <= d < cfg.numNodes && d != s.svrId && d != (s.svrId - 1) % cfg.numNodes
  {
    var n, off := cfg.numNodes, RandInteger(draw, s.rng, 1, cfg.numNodes - 2);
    assert 1 <= off <= n - 2;
    if s.svrId + off < n {
      DivModUnique(s.svrId + off, n, 0, s.svrId + off);
    } else {
      DivModUnique(s.svrId + off, n, 1, s.svrId + off - n);
    }
    if s.svrId == 0 { DivModUnique(-1, n, -1, n - 1); } else { DivModUnique(s.svrId - 1, n, 0, s.svrId - 1); }
  }

  /* ---- what every step keeps ---- */

  // The shape of one delivery: the receiver's counters move by the effect of the
  // event, one packet leaves and at most one, from the receiver, enters.
  lemma StepShape(p: Params, sys: System, k: nat, now: real, netDraws: nat)
    requires Inv(p, sys) && k < |sys.flight|
    ensures var x := sys.flight[k];
            var s := sys.servers[x.dest];
            var t := DeliverAt(p, sys, k, now, netDraws);
            var f := Forward(p.cfg, p.draws(x.dest), s, x.msg, now, netDraws, false);
            && t.servers[x.dest].svrId == x.dest
            && t.servers[x.dest].total == Plus(s.total, OnlyMessages(Effect(p.cfg, s, x.msg, now)))
            && (f.2.Some? ==> Addressed(p, f.2.value))
            && (SendsPing(p.cfg, s, x.msg) ==> f.2.Some? && f.2.value.msg.Ping? && f.2.value.msg.sender == x.dest)
            && (x.msg.Ping? ==> f.2.Some? && f.2.value.msg.Pong? && f.2.value.dest == x.msg.sender)
            && (!SendsPing(p.cfg, s, x.msg) && !x.msg.Ping? ==> f.2.None?)
  {
    DestinationOther(p.cfg, p.draws(sys.flight[k].dest), sys.servers[sys.flight[k].dest]);
  }

  // How the count of a kind of message changes.
  lemma StepCount(p: Params, sys: System, k: nat, now: real, netDraws: nat, kind: Kind)
    requires Inv(p, sys) && k < |sys.flight|
    ensures var x := sys.flight[k];
            var f := Forward(p.cfg, p.draws(x.dest), sys.servers[x.dest], x.msg, now, netDraws, false);
            Count(DeliverAt(p, sys, k, now, netDraws).flight, kind)
              == Count(sys.flight, kind) - One(x, kind) + (if f.2.Some? then One(f.2.value, kind) else 0)
  {
    var x := sys.flight[k];
    var f := Forward(p.cfg, p.draws(x.dest), sys.servers[x.dest], x.msg, now, netDraws, false);
    CountWithout(sys.flight, k, kind);
    if f.2.Some? {
      CountPlus(Without(sys.flight, k), f.2.value, kind);
    } else {
      assert Without(sys.flight, k) + [] == Without(sys.flight, k);
    }
  }

  lemma StepServer(p: Params, sys: System, k: nat, now: real, netDraws: nat, i: int)
    requires Inv(p, sys) && k < |sys.flight| && 0 <= i < |sys.servers|
    ensures var t := DeliverAt(p, sys, k, now, netDraws); ServerInv(p, t.servers[i], t.flight, i)
  {
    StepShape(p, sys, k, now, netDraws);
    StepCount(p, sys, k, now, netDraws, KickTo(i));
    StepCount(p, sys, k, now, netDraws, PingFrom(i));
    StepCount(p, sys, k, now, netDraws, PongTo(i));
    assert ServerInv(p, sys.servers[i], sys.flight, i);
  }

  lemma StepConserves(p: Params, sys: System, k: nat, now: real, netDraws: nat)
    requires Inv(p, sys) && k < |sys.flight|
    ensures Conserved(p, DeliverAt(p, sys, k, now, netDraws))
  {
    var to := sys.flight[k].dest;
    var t := DeliverAt(p, sys, k, now, netDraws).servers[to];
    StepShape(p, sys, k, now, netDraws);
    StepCount(p, sys, k, now, netDraws, Pings);
    StepCount(p, sys, k, now, netDraws, Pongs);
    SumUpdate(p.cfg, sys.servers, to, t, PingsSent);
    SumUpdate(p.cfg, sys.servers, to, t, PingsRecvd);
    SumUpdate(p.cfg, sys.servers, to, t, PongsSent);
    SumUpdate(p.cfg, sys.servers, to, t, PongsRecvd);
  }

  lemma StepKeepsInv(p: Params, sys: System, k: nat, now: real, netDraws: nat)
    requires Inv(p, sys) && k < |sys.flight|
    ensures Inv(p, DeliverAt(p, sys, k, now, netDraws))
  {
    var t := DeliverAt(p, sys, k, now, netDraws);
    StepShape(p, sys, k, now, netDraws);
    forall i | 0 <= i < |t.servers| ensures ServerInv(p, t.servers[i], t.flight, i) {
      StepServer(p, sys, k, now, netDraws, i);
    }
    StepConserves(p, sys, k, now, netDraws);
  }

  /* ---- the start ---- */

  lemma {:induction false} CountKickoffs(s: seq<Packet>, to: int, m: nat, kind: Kind)
    ensures Count(s + seq(m, _ => Packet(to, Kickoff)), kind) == Count(s, kind) + if Is(Packet(to, Kickoff), kind) then m else 0
  {
    var kicks := seq(m, _ => Packet(to, Kickoff));
    if m == 0 {
      assert s + kicks == s;
    } else {
      var before := seq(m - 1, _ => Packet(to, Kickoff));
      CountKickoffs(s, to, m - 1, kind);
      assert s + kicks == (s + before) + [Packet(to, Kickoff)];
      CountPlus(s + before, Packet(to, Kickoff), kind);
    }
  }

  lemma {:induction false} InitialCount(n: nat, kicks: nat, kind: Kind)
    ensures Count(InitialFlight(n, kicks), kind) ==
            match kind case Kicks => n * kicks case KickTo(i) => (if 0 <= i < n then kicks else 0) case _ => 0
  {
    if n > 0 {
      InitialCount(n - 1, kicks, kind);
      CountKickoffs(InitialFlight(n - 1, kicks), n - 1, kicks, kind);
      assert (n - 1) * kicks + kicks == n * kicks;
    }
  }

  lemma {:induction false} InitialAddressed(n: nat, kicks: nat)
    ensures forall k :: 0 <= k < |InitialFlight(n, kicks)| ==>
              InitialFlight(n, kicks)[k].msg.Kickoff? && 0 <= InitialFlight(n, kicks)[k].dest < n
  {
    if n > 0 {
      InitialAddressed(n - 1, kicks);
    }
  }

  lemma {:induction false} InitialSum(cfg: Config, servers: seq<State>, f: Field)
    requires forall i :: 0 <= i < |servers| ==> servers[i].total == Zero
    ensures Sum(cfg, servers, f) == if f.Remaining? && cfg.numMsgs > 0 then |servers| * cfg.numMsgs else 0
  {
    if servers != [] {
      InitialSum(cfg, servers[..|servers| - 1], f);
    }
  }

  lemma InitHasInv(p: Params, sys: System)
    requires Init(p, sys)
    ensures Inv(p, sys)
  {
    InitialAddressed(p.cfg.numNodes, p.Kicks());
    forall i | 0 <= i < |sys.servers| ensures ServerInv(p, sys.servers[i], sys.flight, i) {
      InitialCount(p.cfg.numNodes, p.Kicks(), KickTo(i));
      InitialCount(p.cfg.numNodes, p.Kicks(), PingFrom(i));
      InitialCount(p.cfg.numNodes, p.Kicks(), PongTo(i));
    }
    InitialCount(p.cfg.numNodes, p.Kicks(), Pings);
    InitialCount(p.cfg.numNodes, p.Kicks(), Pongs);
    InitialSum(p.cfg, sys.servers, PingsSent);
    InitialSum(p.cfg, sys.servers, PingsRecvd);
    InitialSum(p.cfg, sys.servers, PongsSent);
    InitialSum(p.cfg, sys.servers, PongsRecvd);
  }

  // At the start each server has as many kickoffs as there are initial messages, but no
  // more than messages, and nothing else is in flight.
  lemma StartExact(p: Params, sys: System, i: int)
    requires Init(p, sys) && 0 <= i < p.cfg.numNodes
    ensures var kicks := if p.numInitial <= p.cfg.numMsgs then p.numInitial else p.cfg.numMsgs;
            Count(sys.flight, KickTo(i)) == kicks && Count(sys.flight, Kicks) == p.cfg.numNodes * kicks
    ensures forall k :: 0 <= k < |sys.flight| ==> sys.flight[k].msg.Kickoff? && 0 <= sys.flight[k].dest < p.cfg.numNodes
  {
    InitialCount(p.cfg.numNodes, p.Kicks(), KickTo(i));
    InitialCount(p.cfg.numNodes, p.Kicks(), Kicks);
    InitialAddressed(p.cfg.numNodes, p.Kicks());
  }

  /* ---- termination ---- */

  // What is still to be delivered: a kickoff leads to a ping, a ping to a pong, and
  // every ping still to be sent counts for itself and its pong.
  ghost function Work(p: Params, sys: System): int {
    2 * Sum(p.cfg, sys.servers, Remaining) + 3 * Count(sys.flight, Kicks) + 2 * Count(sys.flight, Pings) + Count(sys.flight, Pongs)
  }

  lemma StepWorks(p: Params, sys: System, k: nat, now: real, netDraws: nat)
    requires Inv(p, sys) && k < |sys.flight|
    ensures Work(p, DeliverAt(p, sys, k, now, netDraws)) < Work(p, sys)
  {
    var to := sys.flight[k].dest;
    var t := DeliverAt(p, sys, k, now, netDraws).servers[to];
    StepShape(p, sys, k, now, netDraws);
    StepCount(p, sys, k, now, netDraws, Kicks);
    StepCount(p, sys, k, now, netDraws, Pings);
    StepCount(p, sys, k, now, netDraws, Pongs);
    SumUpdate(p.cfg, sys.servers, to, t, Remaining);
  }

  lemma {:induction false} RemainingNonNegative(cfg: Config, servers: seq<State>)
    ensures Sum(cfg, servers, Remaining) >= 0
  {
    if servers != [] {
      RemainingNonNegative(cfg, servers[..|servers| - 1]);
    }
  }

  /* ---- whole runs ---- */

  ghost predicate IsRun(p: Params, run: seq<System>) {
    && |run| > 0 && Init(p, run[0])
    && forall j :: 0 < j < |run| ==> Step(p, run[j - 1], run[j])
  }

  // In every reachable state the invariant holds, and a run is no longer than the
  // work there was at its start.
  lemma {:induction false} RunFacts(p: Params, run: seq<System>)
    requires IsRun(p, run)
    ensures Inv(p, run[|run| - 1])
    ensures Work(p, run[|run| - 1]) + |run| - 1 <= Work(p, run[0])
    ensures Work(p, run[0]) == p.cfg.numNodes * (2 * p.cfg.numMsgs + 3 * p.Kicks())
  {
    var n := |run| - 1;
    if n == 0 {
      InitHasInv(p, run[0]);
      InitialCount(p.cfg.numNodes, p.Kicks(), Kicks);
      InitialCount(p.cfg.numNodes, p.Kicks(), Pings);
      InitialCount(p.cfg.numNodes, p.Kicks(), Pongs);
      InitialSum(p.cfg, run[0].servers, Remaining);
      var a, b, m := p.cfg.numNodes, p.Kicks(), p.cfg.numMsgs;
      assert a * (2 * m + 3 * b) == 2 * (a * m) + 3 * (a * b);
    } else {
      RunFacts(p, run[..n]);
      assert Step(p, run[n - 1], run[n]);
      var k: nat, now: real, netDraws: nat :|
        p.cfg.numNodes >= 3 && k < |run[n - 1].flight| && 0 <= run[n - 1].flight[k].dest < |run[n - 1].servers|
        && run[n] == DeliverAt(p, run[n - 1], k, now, netDraws);
      StepKeepsInv(p, run[n - 1], k, now, netDraws);
      StepWorks(p, run[n - 1], k, now, netDraws);
    }
  }

  // Pings and pongs are conserved in every reachable state.
  lemma MessagesConserved(p: Params, run: seq<System>)
    requires IsRun(p, run)
    ensures var sys := run[|run| - 1];
            && Sum(p.cfg, sys.servers, PingsSent) == Sum(p.cfg, sys.servers, PingsRecvd) + Count(sys.flight, Pings)
            && Sum(p.cfg, sys.servers, PongsSent) == Sum(p.cfg, sys.servers, PongsRecvd) + Count(sys.flight, Pongs)
  {
    RunFacts(p, run);
  }

  // Every run ends after a bounded number of deliveries.
  lemma RunsTerminate(p: Params, run: seq<System>)
    requires IsRun(p, run)
    ensures |run| - 1 <= p.cfg.numNodes * (2 * p.cfg.numMsgs + 3 * p.Kicks())
  {
    RunFacts(p, run);
    RemainingNonNegative(p.cfg, run[|run| - 1].servers);
  }

  // When nothing is in flight any more, every server has had a pong for each of
  // its pings and has sent at least num_msgs of them, and less than one extra
  // ping for every further kickoff.
  lemma Quiescence(p: Params, run: seq<System>, i: int)
    requires IsRun(p, run) && run[|run| - 1].flight == [] && 0 <= i < p.cfg.numNodes
    ensures |run[|run| - 1].servers| == p.cfg.numNodes
    ensures var s := run[|run| - 1].servers[i].total;
            && s.pongsRecvd == s.pingsSent && s.pongsSent == s.pingsRecvd
            && p.cfg.numMsgs <= s.pingsSent <= p.cfg.numMsgs - 1 + if p.numInitial <= p.cfg.numMsgs then p.numInitial else p.cfg.numMsgs
  {
    RunFacts(p, run);
    assert ServerInv(p, run[|run| - 1].servers[i], [], i);
  }
}
