/** What the fields of a ping-pong server LP hold after a run of
    doc/example/tutorial-synthetic-ping-pong.c, told from the surviving deliveries alone. */
module PingPongLedger {
  import opened PingPong

  /* ---- the deliveries of a run ---- */

  // Which of them bring a ping, and which a pong.
  function Pings(fs: seq<Forwards>): set<int> {
    set i | 0 <= i < |fs| && fs[i].Deliver? && fs[i].m.Ping?
  }

  function Pongs(fs: seq<Forwards>): set<int> {
    set i | 0 <= i < |fs| && fs[i].Deliver? && fs[i].m.Pong?
  }

  // Which of them make the server send a ping: each kickoff, and each pong that comes
  // while fewer than num_msgs pings have been sent.
  function Sends(numMsgs: int, fs: seq<Forwards>): set<int> {
    if fs == [] then {} else
      var n, sent := |fs| - 1, Sends(numMsgs, fs[..|fs| - 1]);
      if fs[n].Deliver? && (fs[n].m.Kickoff? || (fs[n].m.Pong? && |sent| < numMsgs)) then sent + {n} else sent
  }

  function Before(s: set<int>, i: int): set<int> {
    set j | j in s && j < i
  }

  lemma {:induction false} SendsExact(numMsgs: int, fs: seq<Forwards>, i: int)
    ensures i in Sends(numMsgs, fs) <==>
              && 0 <= i < |fs| && fs[i].Deliver?
              && (fs[i].m.Kickoff? || (fs[i].m.Pong? && |Before(Sends(numMsgs, fs), i)| < numMsgs))
    decreases |fs|
  {
    if fs != [] {
      var n := |fs| - 1;
      var sent, all := Sends(numMsgs, fs[..n]), Sends(numMsgs, fs);
      SendsExact(numMsgs, fs[..n], i);
      SendsBelow(numMsgs, fs[..n]);
      assert all == sent || all == sent + {n};
      assert Before(all, n) == sent;
      assert i < n ==> Before(all, i) == Before(sent, i);
    }
  }

  lemma {:induction false} SendsBelow(numMsgs: int, fs: seq<Forwards>)
    ensures forall i :: i in Sends(numMsgs, fs) ==> 0 <= i < |fs|
  {
    if fs != [] {
      SendsBelow(numMsgs, fs[..|fs| - 1]);
    }
  }

  // The payloads of the pings, and the round trips of the pongs.
  function PayloadSum(fs: seq<Forwards>): int {
    if fs == [] then 0 else
      var n := |fs| - 1;
      PayloadSum(fs[..n]) + if fs[n].Deliver? && fs[n].m.Ping? then fs[n].m.payload else 0
  }

  function RttSum(fs: seq<Forwards>): real {
    if fs == [] then 0.0 else
      var n := |fs| - 1;
      RttSum(fs[..n]) + if fs[n].Deliver? && fs[n].m.Pong? then fs[n].now - fs[n].m.sendTs else 0.0
  }

  // The draws: two for the receiver and the payload of each ping sent, and those of the
  // network for each message sent.
  function Drawn(numMsgs: int, fs: seq<Forwards>): int {
    if fs == [] then 0 else
      var n := |fs| - 1;
      Drawn(numMsgs, fs[..n])
      + if fs[n].DoSample? then 0 else if n in Sends(numMsgs, fs) then 2 + fs[n].netDraws else if fs[n].m.Ping? then fs[n].netDraws else 0
  }

  // The counts that these deliveries amount to.
  function Tally(cfg: Config, fs: seq<Forwards>): Counts {
    var sent, pings, pongs := |Sends(cfg.numMsgs, fs)|, |Pings(fs)|, |Pongs(fs)|;
    Counts(sent, pings, pings, pongs, cfg.payloadSz * (sent + pings), RttSum(fs), pongs)
  }

  /* ---- one more delivery ---- */

  lemma OneMore(numMsgs: int, fs: seq<Forwards>)
    requires fs != []
    ensures var g, f := fs[..|fs| - 1], fs[|fs| - 1];
            && |Pings(fs)| == |Pings(g)| + (if f.Deliver? && f.m.Ping? then 1 else 0)
            && |Pongs(fs)| == |Pongs(g)| + (if f.Deliver? && f.m.Pong? then 1 else 0)
            && |Sends(numMsgs, fs)| == |Sends(numMsgs, g)|
                 + if f.Deliver? && (f.m.Kickoff? || (f.m.Pong? && |Sends(numMsgs, g)| < numMsgs)) then 1 else 0
  {
    var n := |fs| - 1;
    var g, f := fs[..n], fs[n];
    assert Pings(fs) == Pings(g) + if f.Deliver? && f.m.Ping? then {n} else {};
    assert Pongs(fs) == Pongs(g) + if f.Deliver? && f.m.Pong? then {n} else {};
    SendsBelow(numMsgs, g);
  }

  // The counts of one delivery when so many pings have been sent.
  lemma EffectIs(cfg: Config, s: State, m: Msg, now: real)
    ensures var sends := if m.Kickoff? || (m.Pong? && s.total.pingsSent < cfg.numMsgs) then 1 else 0;
            var pings, pongs := if m.Ping? then 1 else 0, if m.Pong? then 1 else 0;
            Effect(cfg, s, m, now)
              == Counts(sends, pings, pings, pongs, if sends + pings > 0 then cfg.payloadSz else 0, if m.Pong? then now - m.sendTs else 0.0, pongs)
  {
  }

  lemma TallyMore(cfg: Config, s: State, fs: seq<Forwards>)
    requires fs != [] && s.total.pingsSent == |Sends(cfg.numMsgs, fs[..|fs| - 1])|
    ensures var g, f := fs[..|fs| - 1], fs[|fs| - 1];
            Tally(cfg, fs) == if f.DoSample? then Tally(cfg, g) else Plus(Tally(cfg, g), Effect(cfg, s, f.m, f.now))
  {
    var g, f := fs[..|fs| - 1], fs[|fs| - 1];
    OneMore(cfg.numMsgs, fs);
    BytesMore(cfg.payloadSz, |Sends(cfg.numMsgs, g)| + |Pings(g)|);
    if f.Deliver? {
      EffectIs(cfg, s, f.m, f.now);
    }
  }

  lemma {:induction false} NetIsTally(cfg: Config, draw: int -> nat, s0: State, fs: seq<Forwards>)
    requires cfg.numNodes >= 3 && s0.total == Zero && InWidth(s0)
    ensures Net(cfg, draw, s0, fs) == Tally(cfg, fs)
  {
    if fs == [] {
      assert Pings(fs) == {} && Pongs(fs) == {};
    } else {
      var g := fs[..|fs| - 1];
      NetIsTally(cfg, draw, s0, g);
      StraightCounts(cfg, draw, s0, g);
      TallyMore(cfg, Straight(cfg, draw, s0, g).0, fs);
    }
  }

  lemma BytesMore(sz: int, n: int)
    ensures sz * (n + 1) == sz * n + sz
  {
  }

  // The fields that are not counters.
  lemma {:induction false} StraightFields(cfg: Config, draw: int -> nat, s0: State, fs: seq<Forwards>)
    requires cfg.numNodes >= 3 && s0.total == Zero && InWidth(s0)
    ensures var s := Straight(cfg, draw, s0, fs).0;
            && s.svrId == s0.svrId && s.startTs == s0.startTs
            && s.payloadSum == s0.payloadSum + PayloadSum(fs) && s.rng == s0.rng + Drawn(cfg.numMsgs, fs)
  {
    if fs != [] {
      var n := |fs| - 1;
      var g, f := fs[..n], fs[n];
      StraightFields(cfg, draw, s0, g);
      StraightCounts(cfg, draw, s0, g);
      NetIsTally(cfg, draw, s0, g);
      SendsBelow(cfg.numMsgs, g);
      assert Straight(cfg, draw, s0, g).0.total.pingsSent == |Sends(cfg.numMsgs, g)|;
      assert n in Sends(cfg.numMsgs, fs) <==> f.Deliver? && SendsPing(cfg, Straight(cfg, draw, s0, g).0, f.m);
    }
  }

  lemma {:induction false} StraightEnd(cfg: Config, draw: int -> nat, s0: State, fs: seq<Forwards>, i: int)
    requires cfg.numNodes >= 3 && -1 <= i < |fs| && (i >= 0 ==> fs[i].Deliver?)
    requires forall j :: i < j < |fs| ==> fs[j].DoSample?
    ensures Straight(cfg, draw, s0, fs).0.endTs == if i < 0 then s0.endTs else fs[i].now
    decreases |fs|
  {
    if i < |fs| - 1 {
      StraightEnd(cfg, draw, s0, fs[..|fs| - 1], i);
    }
  }

  // Sample i reports what has come since the sample before it, under the number of the
  // server and the time at which it was taken.
  lemma {:induction false} StraightSample(cfg: Config, draw: int -> nat, s0: State, fs: seq<Forwards>, i: nat)
    requires cfg.numNodes >= 3 && s0.vt == Zero && InWidth(s0) && i < |fs|
    ensures var log := Straight(cfg, draw, s0, fs).1;
            && |log| == |fs| && (log[i].SampleLog? <==> fs[i].DoSample?)
            && (fs[i].DoSample? ==>
                 && log[i].sample.svrId == s0.svrId && log[i].sample.endTime == fs[i].now
                 && Plus(log[i].sample.counts, Sampled(log[..i])) == Net(cfg, draw, s0, fs[..i]))
    decreases |fs|
  {
    var n := |fs| - 1;
    var before := Straight(cfg, draw, s0, fs[..n]);
    LogLength(cfg, draw, s0, fs[..n]);
    if i < n {
      StraightSample(cfg, draw, s0, fs[..n], i);
      assert fs[..n][..i] == fs[..i];
      assert Straight(cfg, draw, s0, fs).1[..i] == before.1[..i];
    } else {
      StraightCounts(cfg, draw, s0, fs[..n]);
      SameServer(cfg, draw, s0, fs[..n]);
      assert Straight(cfg, draw, s0, fs).1[..n] == before.1;
      assert Plus(Zero, Net(cfg, draw, s0, fs[..n])) == Net(cfg, draw, s0, fs[..n]);
    }
  }

  lemma {:induction false} LogLength(cfg: Config, draw: int -> nat, s0: State, fs: seq<Forwards>)
    requires cfg.numNodes >= 3
    ensures |Straight(cfg, draw, s0, fs).1| == |fs|
  {
    if fs != [] {
      LogLength(cfg, draw, s0, fs[..|fs| - 1]);
    }
  }

  lemma {:induction false} SameServer(cfg: Config, draw: int -> nat, s0: State, fs: seq<Forwards>)
    requires cfg.numNodes >= 3
    ensures Straight(cfg, draw, s0, fs).0.svrId == s0.svrId
  {
    if fs != [] {
      SameServer(cfg, draw, s0, fs[..|fs| - 1]);
    }
  }

  /* ---- any run of a fresh server, rollbacks and collections included ---- */

  // Every field but the end time is what the surviving deliveries say.
  lemma Ledger(cfg: Config, draw: int -> nat, id: int, kickoffTime: real, rng: int, acts: seq<Action>)
    requires cfg.numNodes >= 3
    ensures var x := Run(cfg, draw, Initial(id, kickoffTime, rng), acts);
            var tally := Tally(cfg, x.done);
            && x.s.svrId == id && x.s.startTs == kickoffTime && x.s.payloadSum == PayloadSum(x.done)
            && x.s.rng == rng + Drawn(cfg.numMsgs, x.done)
            && x.s.total.pingsSent == |Sends(cfg.numMsgs, x.done)| && x.s.total.pongsRecvd == |Pongs(x.done)|
            && x.s.total.pingsRecvd == x.s.total.pongsSent == |Pings(x.done)|
            && Plus(x.s.vt, Sampled(x.log)) == tally
            && Wrap(Plus(x.s.gvt, x.collected)) == Wrap(tally)
  {
    var s0 := Initial(id, kickoffTime, rng);
    var x := Run(cfg, draw, s0, acts);
    RunIsStraight(cfg, draw, s0, acts);
    DeltasConserved(cfg, draw, id, kickoffTime, rng, acts);
    NetIsTally(cfg, draw, s0, x.done);
    StraightFields(cfg, draw, s0, x.done);
  }

  // The end time is the time of the last delivery that survives, and 0.0 without one.
  lemma EndIsLast(cfg: Config, draw: int -> nat, id: int, kickoffTime: real, rng: int, acts: seq<Action>, i: int)
    requires cfg.numNodes >= 3
    requires var done := Run(cfg, draw, Initial(id, kickoffTime, rng), acts).done;
             -1 <= i < |done| && (i >= 0 ==> done[i].Deliver?) && forall j :: i < j < |done| ==> done[j].DoSample?
    ensures var x := Run(cfg, draw, Initial(id, kickoffTime, rng), acts); x.s.endTs == if i < 0 then 0.0 else x.done[i].now
  {
    var s0 := Initial(id, kickoffTime, rng);
    RunIsStraight(cfg, draw, s0, acts);
    StraightEnd(cfg, draw, s0, Run(cfg, draw, s0, acts).done, i);
  }

  // What a sample that survives says.
  lemma SampleIsLabelled(cfg: Config, draw: int -> nat, id: int, kickoffTime: real, rng: int, acts: seq<Action>, i: nat)
    requires cfg.numNodes >= 3
    requires var x := Run(cfg, draw, Initial(id, kickoffTime, rng), acts); i < |x.done| && x.done[i].DoSample?
    ensures var x := Run(cfg, draw, Initial(id, kickoffTime, rng), acts);
            && |x.log| == |x.done| && x.log[i].SampleLog?
            && x.log[i].sample.svrId == id && x.log[i].sample.endTime == x.done[i].now
            && Plus(x.log[i].sample.counts, Sampled(x.log[..i])) == Tally(cfg, x.done[..i])
  {
    var s0 := Initial(id, kickoffTime, rng);
    var x := Run(cfg, draw, s0, acts);
    RunIsStraight(cfg, draw, s0, acts);
    StraightSample(cfg, draw, s0, x.done, i);
    NetIsTally(cfg, draw, s0, x.done[..i]);
  }
}
