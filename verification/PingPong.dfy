/** The ping-pong server LP of doc/example/tutorial-synthetic-ping-pong.c: forward
    and reverse event handlers, the reversible virtual-time sampler and the
    collection callback.

    Everything a handler adds to the counters is one vector of `Counts`; the same
    vector goes to the running totals, to the collection accumulators (32 bits
    wide) and to the virtual-time accumulators. */
module PingPong {
  import opened Options

  datatype Config = Config(numNodes: int, numMsgs: int, payloadSz: int)

  // enum svr_event and the message fields that travel.
  datatype Msg =
    | Kickoff
    | Ping(sender: int, payload: int, sendTs: real)
    | Pong(sender: int, sendTs: real)

  datatype Packet = Packet(dest: int, msg: Msg)

  // What a handler leaves in the message and in the event's bit field for its reversal.
  datatype Scratch = Scratch(previousTs: real, savedRtt: real, eventRc: nat, c1: bool)

  datatype Counts = Counts(
    pingsSent: int, pingsRecvd: int, pongsSent: int, pongsRecvd: int, bytesSent: int, rttSum: real, rttCount: int)

  const Zero := Counts(0, 0, 0, 0, 0, 0.0, 0)

  function Plus(a: Counts, b: Counts): Counts {
    Counts(a.pingsSent + b.pingsSent, a.pingsRecvd + b.pingsRecvd, a.pongsSent + b.pongsSent,
           a.pongsRecvd + b.pongsRecvd, a.bytesSent + b.bytesSent, a.rttSum + b.rttSum, a.rttCount + b.rttCount)
  }

  function Neg(a: Counts): Counts {
    Counts(-a.pingsSent, -a.pingsRecvd, -a.pongsSent, -a.pongsRecvd, -a.bytesSent, -a.rttSum, -a.rttCount)
  }

  const U32 := 0x1_0000_0000

  // The uint32_t members wrap; bytes (int64_t) and the RTT sum (double) do not.
  function Wrap(a: Counts): Counts {
    a.(pingsSent := a.pingsSent % U32, pingsRecvd := a.pingsRecvd % U32, pongsSent := a.pongsSent % U32,
       pongsRecvd := a.pongsRecvd % U32, rttCount := a.rttCount % U32)
  }

  lemma WrapPlus(a: Counts, b: Counts)
    ensures Wrap(Plus(Wrap(a), b)) == Wrap(Plus(a, b))
  {
  }

  // struct svr_state and the position of the LP's random stream.  The totals use
  // the four message counters of `Counts` only.
  datatype State = State(
    svrId: int, total: Counts, payloadSum: int, startTs: real, endTs: real,
    gvt: Counts, vt: Counts, vtId: int, vtEnd: real, rng: int)

  function OnlyMessages(a: Counts): Counts {
    a.(bytesSent := 0, rttSum := 0.0, rttCount := 0)
  }

  // uint32_t accumulators hold values below 2^32.
  predicate InWidth(s: State) {
    s.gvt == Wrap(s.gvt) && s.total == OnlyMessages(s.total)
  }

  // svr_init: everything zero; the start time is when the first ping is generated.
  function Initial(id: int, kickoffTime: real, rng: int): State {
    State(id, Zero, 0, kickoffTime, 0.0, Zero, Zero, 0, 0.0, rng)
  }

  /* ---- what a forward event does ---- */

  // tw_rand_integer: one draw of the stream, brought into lo..hi.
  function RandInteger(draw: int -> nat, pos: int, lo: int, hi: int): int
    requires lo <= hi
  {
    lo + draw(pos) % (hi - lo + 1)
  }

  function Destination(cfg: Config, draw: int -> nat, s: State): int
    requires cfg.numNodes >= 3
  {
    (s.svrId + RandInteger(draw, s.rng, 1, cfg.numNodes - 2)) % cfg.numNodes
  }

  predicate SendsPing(cfg: Config, s: State, m: Msg) {
    m.Kickoff? || (m.Pong? && s.total.pingsSent < cfg.numMsgs)
  }

  // The vector of counts of one event.
  function Effect(cfg: Config, s: State, m: Msg, now: real): Counts {
    match m
    case Kickoff => Zero.(pingsSent := 1, bytesSent := cfg.payloadSz)
    case Ping(_, _, _) => Zero.(pingsRecvd := 1, pongsSent := 1, bytesSent := cfg.payloadSz)
    case Pong(_, sendTs) =>
      var d := Zero.(pongsRecvd := 1, rttSum := now - sendTs, rttCount := 1);
      if SendsPing(cfg, s, m) then d.(pingsSent := 1, bytesSent := cfg.payloadSz) else d
  }

  function Payload(m: Msg): int {
    if m.Ping? then m.payload else 0
  }

  function AddCounts(s: State, d: Counts): State {
    s.(total := Plus(s.total, OnlyMessages(d)), gvt := Wrap(Plus(s.gvt, d)), vt := Plus(s.vt, d))
  }

  // svr_event, started with bit field c1; netDraws is the number of draws that
  // model_net_event takes when it is called.
  function Forward(cfg: Config, draw: int -> nat, s: State, m: Msg, now: real, netDraws: nat, c1: bool)
    : (r: (State, Scratch, Option<Packet>))
    requires cfg.numNodes >= 3
  {
    var t := AddCounts(s, Effect(cfg, s, m, now)).(payloadSum := s.payloadSum + Payload(m), endTs := now);
    var rtt := if m.Pong? then now - m.sendTs else 0.0;
    if SendsPing(cfg, s, m) then
      var ping := Ping(s.svrId, RandInteger(draw, s.rng + 1, 1, 10), now);
      (t.(rng := s.rng + 2 + netDraws), Scratch(s.endTs, rtt, netDraws, c1),
       Some(Packet(Destination(cfg, draw, s), ping)))
    else if m.Ping? then
      (t.(rng := s.rng + netDraws), Scratch(s.endTs, rtt, netDraws, c1), Some(Packet(m.sender, Pong(s.svrId, m.sendTs))))
    else
      (t, Scratch(s.endTs, rtt, 0, true), None)
  }

  // Spelled out: a kickoff, and a pong that comes before num_msgs pings are sent, sends a
  // ping to the server so many places further on; a ping is answered; other pongs end here.
  // Every event sets the end time, and saves the one before.
  lemma ForwardIs(cfg: Config, draw: int -> nat, s: State, m: Msg, now: real, netDraws: nat, c1: bool)
    requires cfg.numNodes >= 3
    ensures var (t, k, out) := Forward(cfg, draw, s, m, now, netDraws, c1);
            && t.endTs == now && k.previousTs == s.endTs && t.svrId == s.svrId && t.startTs == s.startTs && t.vtId == s.vtId && t.vtEnd == s.vtEnd
            && t.payloadSum == s.payloadSum + (if m.Ping? then m.payload else 0)
            && (m.Kickoff? || (m.Pong? && s.total.pingsSent < cfg.numMsgs) ==>
                 && t.rng == s.rng + 2 + netDraws && t.total.pingsSent == s.total.pingsSent + 1
                 && out == Some(Packet((s.svrId + 1 + draw(s.rng) % (cfg.numNodes - 2)) % cfg.numNodes,
                                       Ping(s.svrId, 1 + draw(s.rng + 1) % 10, now))))
            && (m.Ping? ==> t.rng == s.rng + netDraws && t.total.pingsSent == s.total.pingsSent && out == Some(Packet(m.sender, Pong(s.svrId, m.sendTs))))
            && (m.Pong? && s.total.pingsSent >= cfg.numMsgs ==> t.rng == s.rng && t.total.pingsSent == s.total.pingsSent && out == None)
  {
  }

  // The counts that a reverse handler takes away: it sees only the message and
  // what the forward handler saved.
  function Undone(cfg: Config, m: Msg, k: Scratch): Counts {
    match m
    case Kickoff => Zero.(pingsSent := 1, bytesSent := cfg.payloadSz)
    case Ping(_, _, _) => Zero.(pingsRecvd := 1, pongsSent := 1, bytesSent := cfg.payloadSz)
    case Pong(_, _) =>
      var d := Zero.(pongsRecvd := 1, rttSum := k.savedRtt, rttCount := 1);
      if k.c1 then d else d.(pingsSent := 1, bytesSent := cfg.payloadSz)
  }

  // svr_rev_event
  function Reverse(cfg: Config, s: State, m: Msg, k: Scratch): State {
    var draws := match m case Kickoff => 2 + k.eventRc case Ping(_, _, _) => k.eventRc case Pong(_, _) => if k.c1 then 0 else 2 + k.eventRc;
    AddCounts(s, Neg(Undone(cfg, m, k)))
      .(payloadSum := s.payloadSum - Payload(m), endTs := k.previousTs, rng := s.rng - draws)
  }

  // Two saves that a reverse handler cannot tell apart.
  predicate SameSave(m: Msg, k: Scratch, l: Scratch) {
    && k.previousTs == l.previousTs && (m.Pong? ==> k.savedRtt == l.savedRtt && k.c1 == l.c1)
    && (!(m.Pong? && k.c1) ==> k.eventRc == l.eventRc)
  }

  // Exact rollback: the reverse handler restores the whole state and the stream
  // position, unless the event was a pong that sends a ping and its bit field was
  // not cleared before it ran.
  lemma RollbackIffFlagClear(cfg: Config, draw: int -> nat, s: State, m: Msg, now: real, netDraws: nat, c1: bool)
    requires cfg.numNodes >= 3 && InWidth(s)
    ensures var f := Forward(cfg, draw, s, m, now, netDraws, c1);
            Reverse(cfg, f.0, m, f.1) == s <==> !(c1 && m.Pong? && SendsPing(cfg, s, m))
  {
    var f := Forward(cfg, draw, s, m, now, netDraws, c1);
    var d, u := Effect(cfg, s, m, now), Undone(cfg, m, f.1);
    WrapPlus(Plus(s.gvt, d), Neg(u));
    if d == u {
      assert Plus(Plus(s.gvt, d), Neg(u)) == s.gvt;
      assert Plus(Plus(s.vt, d), Neg(u)) == s.vt;
    } else {
      assert d.pingsSent == u.pingsSent + 1;
    }
  }

  /* ---- sampling and collection ---- */

  datatype Sample = Sample(svrId: int, counts: Counts, endTime: real)

  // svr_sample_fn copies the accumulator out and clears the whole struct.
  function TakeSample(s: State, now: real): (State, Sample) {
    (s.(vt := Zero, vtId := 0, vtEnd := 0.0), Sample(s.svrId, s.vt, now))
  }

  // svr_sample_rc_fn adds the sampled counters back, but not the two labels.
  function UndoSample(s: State, k: Sample): State {
    s.(vt := Plus(s.vt, k.counts))
  }

  lemma SampleRollbackIffUnlabelled(s: State, now: real)
    ensures var f := TakeSample(s, now); UndoSample(f.0, f.1) == s <==> s.vtId == 0 && s.vtEnd == 0.0
  {
    assert Plus(Zero, s.vt) == s.vt;
  }

  // svr_model_stat_collect
  function Collect(s: State): (State, Counts) {
    (s.(gvt := Zero), s.gvt)
  }

  /* ---- whole runs with rollbacks ---- */

  // What the simulator can make the LP do, forwards.
  datatype Forwards = Deliver(m: Msg, now: real, netDraws: nat) | DoSample(now: real)

  // What it keeps to undo it.
  datatype Log = EventLog(m: Msg, k: Scratch) | SampleLog(sample: Sample)

  // Rollback undoes the last thing not yet undone; a collection may come at any time.
  datatype Action = Go(f: Forwards) | Rollback | Collection

  // The LP in a run.  `done` names the surviving forward steps, `collected` adds
  // up everything that collections reported.
  datatype Machine = Machine(s: State, log: seq<Log>, done: seq<Forwards>, collected: Counts)

  function Execute(cfg: Config, draw: int -> nat, s: State, f: Forwards): (State, Log)
    requires cfg.numNodes >= 3
  {
    match f
    case Deliver(m, now, netDraws) => var r := Forward(cfg, draw, s, m, now, netDraws, false); (r.0, EventLog(m, r.1))
    case DoSample(now) => var r := TakeSample(s, now); (r.0, SampleLog(r.1))
  }

  function Undo(cfg: Config, s: State, l: Log): State {
    match l
    case EventLog(m, k) => Reverse(cfg, s, m, k)
    case SampleLog(k) => UndoSample(s, k)
  }

  function Act(cfg: Config, draw: int -> nat, x: Machine, a: Action): Machine
    requires cfg.numNodes >= 3
  {
    match a
    case Go(f) => var r := Execute(cfg, draw, x.s, f); x.(s := r.0, log := x.log + [r.1], done := x.done + [f])
    case Rollback =>
      if x.log == [] || x.done == [] then x else
        x.(s := Undo(cfg, x.s, x.log[|x.log| - 1]), log := x.log[..|x.log| - 1], done := x.done[..|x.done| - 1])
    case Collection => var r := Collect(x.s); x.(s := r.0, collected := Plus(x.collected, r.1))
  }

  function Run(cfg: Config, draw: int -> nat, s0: State, acts: seq<Action>): Machine
    requires cfg.numNodes >= 3
  {
    if acts == [] then Machine(s0, [], [], Zero)
    else Act(cfg, draw, Run(cfg, draw, s0, acts[..|acts| - 1]), acts[|acts| - 1])
  }

  // A run that never goes back and is never collected.
  function Straight(cfg: Config, draw: int -> nat, s0: State, fs: seq<Forwards>): (State, seq<Log>)
    requires cfg.numNodes >= 3
  {
    if fs == [] then (s0, []) else
      var before := Straight(cfg, draw, s0, fs[..|fs| - 1]);
      var r := Execute(cfg, draw, before.0, fs[|fs| - 1]);
      (r.0, before.1 + [r.1])
  }

  predicate Clean(s: State) {
    InWidth(s) && s.vtId == 0 && s.vtEnd == 0.0
  }

  function Shift(s: State, c: Counts): State {
    s.(gvt := Wrap(Plus(s.gvt, c)))
  }

  // The state with the collections put back into the accumulators they emptied.
  function Restored(x: Machine): State {
    Shift(x.s, x.collected)
  }

  // Handlers do not look at the collection accumulators, so shifting them commutes
  // with every step in either direction.
  lemma ShiftAdd(s: State, c: Counts, d: Counts)
    ensures Shift(AddCounts(s, d), c) == AddCounts(Shift(s, c), d)
  {
    WrapPlus(Plus(s.gvt, d), c);
    WrapPlus(Plus(s.gvt, c), d);
    assert Plus(Plus(s.gvt, d), c) == Plus(Plus(s.gvt, c), d);
  }

  lemma ShiftExecute(cfg: Config, draw: int -> nat, s: State, f: Forwards, c: Counts)
    requires cfg.numNodes >= 3
    ensures var r, q := Execute(cfg, draw, s, f), Execute(cfg, draw, Shift(s, c), f);
            q.0 == Shift(r.0, c) && q.1 == r.1
  {
    if f.Deliver? {
      ShiftAdd(s, c, Effect(cfg, s, f.m, f.now));
    }
  }

  lemma ShiftUndo(cfg: Config, s: State, l: Log, c: Counts)
    ensures Undo(cfg, Shift(s, c), l) == Shift(Undo(cfg, s, l), c)
  {
    if l.EventLog? {
      ShiftAdd(s, c, Neg(Undone(cfg, l.m, l.k)));
    }
  }

  lemma ExecuteUndo(cfg: Config, draw: int -> nat, s: State, f: Forwards)
    requires cfg.numNodes >= 3 && Clean(s)
    ensures var r := Execute(cfg, draw, s, f); Clean(r.0) && Undo(cfg, r.0, r.1) == s
  {
    match f {
      case Deliver(m, now, netDraws) =>
        RollbackIffFlagClear(cfg, draw, s, m, now, netDraws, false);
        WrapPlus(Plus(s.gvt, Effect(cfg, s, m, now)), Zero);
      case DoSample(now) =>
        SampleRollbackIffUnlabelled(s, now);
    }
  }

  lemma {:induction false} StraightClean(cfg: Config, draw: int -> nat, s0: State, fs: seq<Forwards>)
    requires cfg.numNodes >= 3 && Clean(s0)
    ensures Clean(Straight(cfg, draw, s0, fs).0)
  {
    if fs != [] {
      StraightClean(cfg, draw, s0, fs[..|fs| - 1]);
      ExecuteUndo(cfg, draw, Straight(cfg, draw, s0, fs[..|fs| - 1]).0, fs[|fs| - 1]);
    }
  }

  // The rollback theorem.  After any mix of events, samples, rollbacks and
  // collections the LP is where the straight run of the surviving steps ends, with
  // the collected amounts missing from the collection accumulators and from
  // nothing else; what is kept for later rollbacks is that of the straight run.
  lemma {:induction false} RunIsStraight(cfg: Config, draw: int -> nat, s0: State, acts: seq<Action>)
    requires cfg.numNodes >= 3 && Clean(s0)
    ensures var x := Run(cfg, draw, s0, acts);
            Straight(cfg, draw, s0, x.done) == (Restored(x), x.log)
  {
    if acts == [] {
      assert Plus(s0.gvt, Zero) == s0.gvt;
    } else {
      var w, a := Run(cfg, draw, s0, acts[..|acts| - 1]), acts[|acts| - 1];
      RunIsStraight(cfg, draw, s0, acts[..|acts| - 1]);
      StepIsStraight(cfg, draw, s0, w, a);
    }
  }

  lemma StepIsStraight(cfg: Config, draw: int -> nat, s0: State, w: Machine, a: Action)
    requires cfg.numNodes >= 3 && Clean(s0)
    requires Straight(cfg, draw, s0, w.done) == (Restored(w), w.log)
    ensures var x := Act(cfg, draw, w, a); Straight(cfg, draw, s0, x.done) == (Restored(x), x.log)
  {
    var x := Act(cfg, draw, w, a);
    match a {
      case Go(f) =>
        assert x.done[..|x.done| - 1] == w.done;
        ShiftExecute(cfg, draw, w.s, f, w.collected);
      case Rollback =>
        if w.log != [] && w.done != [] {
          var before := Straight(cfg, draw, s0, x.done);
          StraightClean(cfg, draw, s0, x.done);
          ExecuteUndo(cfg, draw, before.0, w.done[|w.done| - 1]);
          ShiftUndo(cfg, w.s, w.log[|w.log| - 1], w.collected);
        }
      case Collection =>
        assert Plus(Zero, Plus(w.collected, w.s.gvt)) == Plus(w.s.gvt, w.collected);
    }
  }

  /* ---- conservation of the deltas ---- */

  // The counts of all deliveries of a straight run.
  function Net(cfg: Config, draw: int -> nat, s0: State, fs: seq<Forwards>): Counts
    requires cfg.numNodes >= 3
  {
    if fs == [] then Zero else
      var n, f := Net(cfg, draw, s0, fs[..|fs| - 1]), fs[|fs| - 1];
      if f.DoSample? then n else Plus(n, Effect(cfg, Straight(cfg, draw, s0, fs[..|fs| - 1]).0, f.m, f.now))
  }

  // What the samples that were not undone reported.
  function Sampled(log: seq<Log>): Counts {
    if log == [] then Zero else
      var n, l := Sampled(log[..|log| - 1]), log[|log| - 1];
      if l.SampleLog? then Plus(n, l.sample.counts) else n
  }

  lemma {:induction false} StraightCounts(cfg: Config, draw: int -> nat, s0: State, fs: seq<Forwards>)
    requires cfg.numNodes >= 3 && InWidth(s0)
    ensures var r, net := Straight(cfg, draw, s0, fs), Net(cfg, draw, s0, fs);
            && r.0.total == Plus(s0.total, OnlyMessages(net))
            && r.0.gvt == Wrap(Plus(s0.gvt, net))
            && Plus(r.0.vt, Sampled(r.1)) == Plus(s0.vt, net)
  {
    if fs != [] {
      var g, f := fs[..|fs| - 1], fs[|fs| - 1];
      StraightCounts(cfg, draw, s0, g);
      var before, net := Straight(cfg, draw, s0, g), Net(cfg, draw, s0, g);
      var r := Execute(cfg, draw, before.0, f);
      assert (before.1 + [r.1])[..|before.1|] == before.1;
      if f.Deliver? {
        var d := Effect(cfg, before.0, f.m, f.now);
        WrapPlus(Plus(s0.gvt, net), d);
        assert Plus(Plus(s0.gvt, net), d) == Plus(s0.gvt, Plus(net, d));
      }
    }
  }

  // Every message sent carries the payload size, every pong closes one round trip
  // and every ping is answered by one pong.
  predicate Balanced(sz: int, n: Counts) {
    n.bytesSent == sz * (n.pingsSent + n.pongsSent) && n.rttCount == n.pongsRecvd && n.pongsSent == n.pingsRecvd
  }

  lemma BalancedPlus(sz: int, m: Counts, n: Counts)
    requires Balanced(sz, m) && Balanced(sz, n)
    ensures Balanced(sz, Plus(m, n))
  {
    assert sz * (m.pingsSent + m.pongsSent + (n.pingsSent + n.pongsSent))
        == sz * (m.pingsSent + m.pongsSent) + sz * (n.pingsSent + n.pongsSent);
  }

  lemma {:induction false} NetBalanced(cfg: Config, draw: int -> nat, s0: State, fs: seq<Forwards>)
    requires cfg.numNodes >= 3
    ensures Balanced(cfg.payloadSz, Net(cfg, draw, s0, fs))
  {
    if fs != [] {
      var g, f := fs[..|fs| - 1], fs[|fs| - 1];
      NetBalanced(cfg, draw, s0, g);
      if f.Deliver? {
        BalancedPlus(cfg.payloadSz, Net(cfg, draw, s0, g), Effect(cfg, Straight(cfg, draw, s0, g).0, f.m, f.now));
      }
    }
  }

  // Over any run of a freshly initialised LP, rollbacks and collections included,
  // nothing is lost or counted twice: the collected deltas and the accumulators
  // give the net counts modulo 2^32, the samples that were not undone and the
  // virtual-time accumulators give them exactly, and so do the totals.
  lemma DeltasConserved(cfg: Config, draw: int -> nat, id: int, kickoffTime: real, rng: int, acts: seq<Action>)
    requires cfg.numNodes >= 3
    ensures var s0 := Initial(id, kickoffTime, rng);
            var x := Run(cfg, draw, s0, acts);
            var net := Net(cfg, draw, s0, x.done);
            && Wrap(Plus(x.s.gvt, x.collected)) == Wrap(net)
            && Plus(x.s.vt, Sampled(x.log)) == net
            && x.s.total == OnlyMessages(net)
            && Balanced(cfg.payloadSz, net)
  {
    var s0 := Initial(id, kickoffTime, rng);
    var x := Run(cfg, draw, s0, acts);
    RunIsStraight(cfg, draw, s0, acts);
    StraightCounts(cfg, draw, s0, x.done);
    NetBalanced(cfg, draw, s0, x.done);
    assert Plus(Zero, Net(cfg, draw, s0, x.done)) == Net(cfg, draw, s0, x.done);
  }

  /* ---- the handlers as the source writes them ---- */

  // The event: its message, the fields a handler saves in it, and its bit c1.
  class Event {
    const msg: Msg
    var previousTs: real
    var savedRtt: real
    var eventRc: nat
    var c1: bool

    constructor (msg: Msg)
      ensures this.msg == msg && !c1
    {
      this.msg, previousTs, savedRtt, eventRc, c1 := msg, 0.0, 0.0, 0, false;
    }

    function Saved(): Scratch
      reads this
    {
      Scratch(previousTs, savedRtt, eventRc, c1)
    }
  }

  // svr_state.  The four message counters, the collection accumulators and the
  // virtual-time accumulators are three structs of counters.
  class Server {
    var svrId: int
    var total: Counts
    var payloadSum: int
    var startTs: real
    var endTs: real
    var gvt: Counts
    var vt: Counts
    var vtId: int
    var vtEnd: real
    var rng: int

    // svr_init
    constructor (id: int, kickoffTime: real, rng: int)
      ensures Snapshot() == Initial(id, kickoffTime, rng) && Clean(Snapshot())
      ensures svrId == id && startTs == kickoffTime && endTs == 0.0 && total == gvt == vt == Zero && payloadSum == 0
    {
      svrId, startTs, endTs, payloadSum, this.rng := id, kickoffTime, 0.0, 0, rng;
      total, gvt, vt, vtId, vtEnd := Zero, Zero, Zero, 0, 0.0;
    }

    function Snapshot(): State
      reads this
    {
      State(svrId, total, payloadSum, startTs, endTs, gvt, vt, vtId, vtEnd, rng)
    }

    // tw_rand_integer
    method Draw(draw: int -> nat, lo: int, hi: int) returns (x: int)
      requires lo <= hi
      modifies this`rng
      ensures rng == old(rng) + 1 && x == RandInteger(draw, old(rng), lo, hi)
    {
      x := RandInteger(draw, rng, lo, hi);
      rng := rng + 1;
    }

    // The part that handle_kickoff_event and handle_pong_event share: pick another
    // server and send it a ping.
    method SendPing(cfg: Config, draw: int -> nat, e: Event, now: real, netDraws: nat) returns (out: Option<Packet>)
      requires cfg.numNodes >= 3
      modifies this`rng, this`total, this`gvt, this`vt, e`eventRc
      ensures rng == old(rng) + 2 + netDraws && e.eventRc == netDraws
      ensures total == old(total).(pingsSent := old(total.pingsSent) + 1)
      ensures gvt == old(gvt).(pingsSent := (old(gvt.pingsSent) + 1) % U32, bytesSent := old(gvt.bytesSent) + cfg.payloadSz)
      ensures vt == old(vt).(pingsSent := old(vt.pingsSent) + 1, bytesSent := old(vt.bytesSent) + cfg.payloadSz)
      ensures out == Some(Packet(Destination(cfg, draw, old(Snapshot())), Ping(svrId, RandInteger(draw, old(rng) + 1, 1, 10), now)))
    {
      var dest := Draw(draw, 1, cfg.numNodes - 2);
      dest := (svrId + dest) % cfg.numNodes;
      var payload := Draw(draw, 1, 10);
      total := total.(pingsSent := total.pingsSent + 1);
      gvt := gvt.(pingsSent := (gvt.pingsSent + 1) % U32);
      gvt := gvt.(bytesSent := gvt.bytesSent + cfg.payloadSz);
      vt := vt.(pingsSent := vt.pingsSent + 1);
      vt := vt.(bytesSent := vt.bytesSent + cfg.payloadSz);
      e.eventRc := netDraws;
      rng := rng + netDraws;
      out := Some(Packet(dest, Ping(svrId, payload, now)));
    }

    method HandlePing(cfg: Config, e: Event, netDraws: nat) returns (out: Option<Packet>)
      requires e.msg.Ping?
      modifies this`total, this`gvt, this`vt, this`payloadSum, this`rng, e`eventRc
      ensures rng == old(rng) + netDraws && e.eventRc == netDraws && payloadSum == old(payloadSum) + e.msg.payload
      ensures total == old(total).(pingsRecvd := old(total.pingsRecvd) + 1, pongsSent := old(total.pongsSent) + 1)
      ensures gvt == old(gvt).(pingsRecvd := (old(gvt.pingsRecvd) + 1) % U32, pongsSent := (old(gvt.pongsSent) + 1) % U32, bytesSent := old(gvt.bytesSent) + cfg.payloadSz)
      ensures vt == old(vt).(pingsRecvd := old(vt.pingsRecvd) + 1, pongsSent := old(vt.pongsSent) + 1, bytesSent := old(vt.bytesSent) + cfg.payloadSz)
      ensures out == Some(Packet(e.msg.sender, Pong(svrId, e.msg.sendTs)))
    {
      total := total.(pingsRecvd := total.pingsRecvd + 1);
      gvt := gvt.(pingsRecvd := (gvt.pingsRecvd + 1) % U32);
      vt := vt.(pingsRecvd := vt.pingsRecvd + 1);
      payloadSum := payloadSum + e.msg.payload;
      total := total.(pongsSent := total.pongsSent + 1);
      gvt := gvt.(pongsSent := (gvt.pongsSent + 1) % U32, bytesSent := gvt.bytesSent + cfg.payloadSz);
      vt := vt.(pongsSent := vt.pongsSent + 1, bytesSent := vt.bytesSent + cfg.payloadSz);
      e.eventRc := netDraws;
      rng := rng + netDraws;
      out := Some(Packet(e.msg.sender, Pong(svrId, e.msg.sendTs)));
    }

    // The part of handle_pong_event before its early return.
    method CountPong(e: Event, now: real)
      requires e.msg.Pong?
      modifies this`total, this`gvt, this`vt, e`savedRtt
      ensures e.savedRtt == now - e.msg.sendTs
      ensures total == old(total).(pongsRecvd := old(total.pongsRecvd) + 1)
      ensures gvt == old(gvt).(pongsRecvd := (old(gvt.pongsRecvd) + 1) % U32, rttSum := old(gvt.rttSum) + e.savedRtt, rttCount := (old(gvt.rttCount) + 1) % U32)
      ensures vt == old(vt).(pongsRecvd := old(vt.pongsRecvd) + 1, rttSum := old(vt.rttSum) + e.savedRtt, rttCount := old(vt.rttCount) + 1)
    {
      total := total.(pongsRecvd := total.pongsRecvd + 1);
      gvt := gvt.(pongsRecvd := (gvt.pongsRecvd + 1) % U32);
      vt := vt.(pongsRecvd := vt.pongsRecvd + 1);
      e.savedRtt := now - e.msg.sendTs;
      gvt := gvt.(rttSum := gvt.rttSum + e.savedRtt, rttCount := (gvt.rttCount + 1) % U32);
      vt := vt.(rttSum := vt.rttSum + e.savedRtt, rttCount := vt.rttCount + 1);
    }

    // svr_event with its handlers: the state and the message sent are those of the
    // specification, and what is left in the event takes the state back.
    method Handle(cfg: Config, draw: int -> nat, e: Event, now: real, netDraws: nat) returns (out: Option<Packet>)
      requires cfg.numNodes >= 3 && !e.c1 && InWidth(Snapshot())
      modifies this, e
      ensures var f := Forward(cfg, draw, old(Snapshot()), e.msg, now, netDraws, false);
              Snapshot() == f.0 && out == f.2 && SameSave(e.msg, e.Saved(), f.1)
      ensures Reverse(cfg, Snapshot(), e.msg, e.Saved()) == old(Snapshot())
      ensures endTs == now && e.previousTs == old(endTs) && svrId == old(svrId) && startTs == old(startTs)
    {
      RollbackIffFlagClear(cfg, draw, Snapshot(), e.msg, now, netDraws, false);
      e.previousTs := endTs;
      endTs := now;
      match e.msg {
        case Kickoff =>
          out := SendPing(cfg, draw, e, now, netDraws);
        case Ping(_, _, _) =>
          out := HandlePing(cfg, e, netDraws);
        case Pong(_, _) =>
          CountPong(e, now);
          if total.pingsSent >= cfg.numMsgs {
            e.c1 := true;
            out := None;
          } else {
            out := SendPing(cfg, draw, e, now, netDraws);
          }
      }
    }

    // The part that handle_kickoff_rev_event and handle_pong_rev_event share.
    method UnsendPing(cfg: Config, e: Event)
      modifies this`rng, this`total, this`gvt, this`vt
      ensures rng == old(rng) - 2 - e.eventRc
      ensures total == old(total).(pingsSent := old(total.pingsSent) - 1)
      ensures gvt == old(gvt).(pingsSent := (old(gvt.pingsSent) - 1) % U32, bytesSent := old(gvt.bytesSent) - cfg.payloadSz)
      ensures vt == old(vt).(pingsSent := old(vt.pingsSent) - 1, bytesSent := old(vt.bytesSent) - cfg.payloadSz)
    {
      rng := rng - e.eventRc;
      total := total.(pingsSent := total.pingsSent - 1);
      gvt := gvt.(pingsSent := (gvt.pingsSent - 1) % U32);
      gvt := gvt.(bytesSent := gvt.bytesSent - cfg.payloadSz);
      vt := vt.(pingsSent := vt.pingsSent - 1);
      vt := vt.(bytesSent := vt.bytesSent - cfg.payloadSz);
      rng := rng - 1;
      rng := rng - 1;
    }

    method UnhandlePing(cfg: Config, e: Event)
      requires e.msg.Ping?
      modifies this`total, this`gvt, this`vt, this`payloadSum, this`rng
      ensures rng == old(rng) - e.eventRc && payloadSum == old(payloadSum) - e.msg.payload
      ensures total == old(total).(pingsRecvd := old(total.pingsRecvd) - 1, pongsSent := old(total.pongsSent) - 1)
      ensures gvt == old(gvt).(pingsRecvd := (old(gvt.pingsRecvd) - 1) % U32, pongsSent := (old(gvt.pongsSent) - 1) % U32, bytesSent := old(gvt.bytesSent) - cfg.payloadSz)
      ensures vt == old(vt).(pingsRecvd := old(vt.pingsRecvd) - 1, pongsSent := old(vt.pongsSent) - 1, bytesSent := old(vt.bytesSent) - cfg.payloadSz)
    {
      rng := rng - e.eventRc;
      total := total.(pongsSent := total.pongsSent - 1);
      payloadSum := payloadSum - e.msg.payload;
      total := total.(pingsRecvd := total.pingsRecvd - 1);
      gvt := gvt.(pingsRecvd := (gvt.pingsRecvd - 1) % U32, pongsSent := (gvt.pongsSent - 1) % U32);
      gvt := gvt.(bytesSent := gvt.bytesSent - cfg.payloadSz);
      vt := vt.(pingsRecvd := vt.pingsRecvd - 1, pongsSent := vt.pongsSent - 1);
      vt := vt.(bytesSent := vt.bytesSent - cfg.payloadSz);
    }

    // The part of handle_pong_rev_event after its conditional part.
    method UncountPong(e: Event)
      modifies this`total, this`gvt, this`vt
      ensures total == old(total).(pongsRecvd := old(total.pongsRecvd) - 1)
      ensures gvt == old(gvt).(pongsRecvd := (old(gvt.pongsRecvd) - 1) % U32, rttSum := old(gvt.rttSum) - e.savedRtt, rttCount := (old(gvt.rttCount) - 1) % U32)
      ensures vt == old(vt).(pongsRecvd := old(vt.pongsRecvd) - 1, rttSum := old(vt.rttSum) - e.savedRtt, rttCount := old(vt.rttCount) - 1)
    {
      total := total.(pongsRecvd := total.pongsRecvd - 1);
      gvt := gvt.(pongsRecvd := (gvt.pongsRecvd - 1) % U32);
      vt := vt.(pongsRecvd := vt.pongsRecvd - 1);
      gvt := gvt.(rttSum := gvt.rttSum - e.savedRtt, rttCount := (gvt.rttCount - 1) % U32);
      vt := vt.(rttSum := vt.rttSum - e.savedRtt, rttCount := vt.rttCount - 1);
    }

    // svr_rev_event with its handlers.
    method Unhandle(cfg: Config, e: Event)
      requires InWidth(Snapshot())
      modifies this, e`c1
      ensures Snapshot() == Reverse(cfg, old(Snapshot()), e.msg, old(e.Saved()))
    {
      match e.msg {
        case Kickoff =>
          UnsendPing(cfg, e);
        case Ping(_, _, _) =>
          UnhandlePing(cfg, e);
        case Pong(_, _) =>
          if !e.c1 {
            UnsendPing(cfg, e);
            e.c1 := false;
          }
          UncountPong(e);
      }
      endTs := e.previousTs;
    }

    // svr_sample_fn
    method SampleOut(now: real) returns (sample: Sample)
      modifies this`vtId, this`vt, this`vtEnd
      ensures (Snapshot(), sample) == TakeSample(old(Snapshot()), now)
      ensures sample == Sample(svrId, old(vt), now) && vt == Zero
    {
      sample := Sample(svrId, vt, now);
      vtId, vt, vtEnd := 0, Zero, 0.0;
    }

    // svr_sample_rc_fn
    method SampleBack(sample: Sample)
      modifies this`vt
      ensures Snapshot() == UndoSample(old(Snapshot()), sample)
      ensures vt == Plus(old(vt), sample.counts)
    {
      var c := sample.counts;
      vt := vt.(pingsSent := vt.pingsSent + c.pingsSent, pingsRecvd := vt.pingsRecvd + c.pingsRecvd);
      vt := vt.(pongsSent := vt.pongsSent + c.pongsSent, pongsRecvd := vt.pongsRecvd + c.pongsRecvd);
      vt := vt.(bytesSent := vt.bytesSent + c.bytesSent, rttSum := vt.rttSum + c.rttSum, rttCount := vt.rttCount + c.rttCount);
    }

    // svr_model_stat_collect
    method CollectOut() returns (c: Counts)
      modifies this`gvt
      ensures (Snapshot(), c) == Collect(old(Snapshot()))
      ensures c == old(gvt) && gvt == Zero
    {
      c := Zero.(pingsSent := gvt.pingsSent, pingsRecvd := gvt.pingsRecvd);
      gvt := gvt.(pingsSent := 0, pingsRecvd := 0);
      c := c.(pongsSent := gvt.pongsSent, pongsRecvd := gvt.pongsRecvd);
      gvt := gvt.(pongsSent := 0, pongsRecvd := 0);
      c := c.(bytesSent := gvt.bytesSent, rttSum := gvt.rttSum, rttCount := gvt.rttCount);
      gvt := gvt.(bytesSent := 0, rttSum := 0.0, rttCount := 0);
    }
  }
}
