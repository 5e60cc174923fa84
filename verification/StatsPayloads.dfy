/** The payloads that scripts/parse-ross-model-stats.py decodes: which bytes each
    decoder reads as what, and the choice of the decoder by the size of the payload. */
module StatsPayloads {
  import opened Bytes

  // The key of a value in a row; some have the number of a rail or port, or of a rail
  // and a QoS level.
  datatype Column = Plain(name: string) | Numbered(name: string, i: nat) | Paired(name: string, i: nat, j: nat)

  type Layout = seq<(Column, Code)>
  type Row = seq<(Column, int)>

  function Codes(l: Layout): (f: seq<Code>)
    ensures |f| == |l| && forall i :: 0 <= i < |l| ==> f[i] == l[i].1
  {
    seq(|l|, i requires 0 <= i < |l| => l[i].1)
  }

  function Bytesize(l: Layout): nat {
    Size(Codes(l))
  }

  function Labelled(l: Layout, values: seq<int>): (r: Row)
    requires |values| == |l|
    ensures |r| == |l| && forall i :: 0 <= i < |l| ==> r[i] == (l[i].0, values[i])
  {
    seq(|l|, i requires 0 <= i < |l| => (l[i].0, values[i]))
  }

  // The row that a layout reads from the start of a payload.
  function RowOf(l: Layout, payload: seq<Byte>): Row
    requires Bytesize(l) <= |payload|
  {
    Labelled(l, Unpack(Codes(l), payload))
  }

  lemma RowSnoc(l: Layout, c: (Column, Code), payload: seq<Byte>)
    ensures Bytesize(l + [c]) == Bytesize(l) + Width(c.1)
    ensures Bytesize(l + [c]) <= |payload| ==>
              RowOf(l + [c], payload) == RowOf(l, payload) + [(c.0, Decode(c.1, payload[Bytesize(l)..Bytesize(l) + Width(c.1)]))]
  {
    assert Codes(l + [c]) == Codes(l) + [c.1];
    UnpackSnoc(Codes(l), c.1, payload);
  }

  /* ---- repeated columns ---- */

  // for i in range(n)
  function Each(name: string, c: Code, n: nat): Layout {
    if n == 0 then [] else Each(name, c, n - 1) + [(Numbered(name, n - 1), c)]
  }

  // for i in range(n), for j in range(m)
  function Grid(name: string, c: Code, n: nat, m: nat): Layout {
    if n == 0 then [] else Grid(name, c, n - 1, m) + GridRow(name, c, n - 1, m)
  }

  function GridRow(name: string, c: Code, i: nat, m: nat): Layout {
    if m == 0 then [] else GridRow(name, c, i, m - 1) + [(Paired(name, i, m - 1), c)]
  }

  // Two columns a turn.
  function EachTwo(name: string, c: Code, name': string, c': Code, n: nat): Layout {
    if n == 0 then [] else EachTwo(name, c, name', c', n - 1) + [(Numbered(name, n - 1), c), (Numbered(name', n - 1), c')]
  }

  lemma {:induction false} SizeOfConcat(l: Layout, m: Layout)
    ensures Bytesize(l + m) == Bytesize(l) + Bytesize(m)
    decreases |m|
  {
    if m == [] {
      assert l + m == l && Codes(m) == [];
    } else {
      var n := |m| - 1;
      SizeOfConcat(l, m[..n]);
      RowSnoc(l + m[..n], m[n], []);
      RowSnoc(m[..n], m[n], []);
      assert m == m[..n] + [m[n]] && l + m == (l + m[..n]) + [m[n]];
    }
  }

  lemma {:induction false} EachSize(name: string, c: Code, n: nat)
    ensures Bytesize(Each(name, c, n)) == Width(c) * n
  {
    if n == 0 {
      assert Codes([]) == [];
    } else {
      EachSize(name, c, n - 1);
      RowSnoc(Each(name, c, n - 1), (Numbered(name, n - 1), c), []);
    }
  }

  lemma {:induction false} GridRowSize(name: string, c: Code, i: nat, m: nat)
    ensures Bytesize(GridRow(name, c, i, m)) == Width(c) * m
  {
    if m == 0 {
      assert Codes([]) == [];
    } else {
      GridRowSize(name, c, i, m - 1);
      RowSnoc(GridRow(name, c, i, m - 1), (Paired(name, i, m - 1), c), []);
    }
  }

  lemma {:induction false} GridSize(name: string, c: Code, n: nat, m: nat, cells: nat)
    requires cells == n * m
    ensures Bytesize(Grid(name, c, n, m)) == Width(c) * cells
  {
    if n == 0 {
      assert Codes([]) == [];
    } else {
      assert (n - 1) * m == cells - m;
      GridSize(name, c, n - 1, m, cells - m);
      GridRowSize(name, c, n - 1, m);
      SizeOfConcat(Grid(name, c, n - 1, m), GridRow(name, c, n - 1, m));
    }
  }

  lemma {:induction false} EachTwoSize(name: string, c: Code, name': string, c': Code, n: nat)
    ensures Bytesize(EachTwo(name, c, name', c', n)) == (Width(c) + Width(c')) * n
  {
    if n == 0 {
      assert Codes([]) == [];
    } else {
      EachTwoSize(name, c, name', c', n - 1);
      TwoSize((Numbered(name, n - 1), c), (Numbered(name', n - 1), c'));
      SizeOfConcat(EachTwo(name, c, name', c', n - 1), [(Numbered(name, n - 1), c), (Numbered(name', n - 1), c')]);
    }
  }

  lemma TwoSize(a: (Column, Code), b: (Column, Code))
    ensures Bytesize([a, b]) == Width(a.1) + Width(b.1)
  {
    assert Codes([]) == [];
    RowSnoc([], a, []);
    RowSnoc([a], b, []);
    assert [] + [a] == [a] && [a] + [b] == [a, b];
  }

  lemma {:induction false} UniformSize(l: Layout, w: nat)
    requires forall i :: 0 <= i < |l| ==> Width(l[i].1) == w
    ensures Bytesize(l) == w * |l|
  {
    if l == [] {
      assert Codes(l) == [];
    } else {
      var n := |l| - 1;
      UniformSize(l[..n], w);
      RowSnoc(l[..n], l[n], []);
      assert l == l[..n] + [l[n]];
      assert w * (n + 1) == w * n + w;
    }
  }

  /* ---- the layouts ---- */

  function SvrModel(): Layout {
    [(Plain("svr_id"), U64)]
    + [(Plain("pings_sent"), U32), (Plain("pings_recvd"), U32), (Plain("pongs_sent"), U32), (Plain("pongs_recvd"), U32)]
    + [(Plain("bytes_sent"), I64), (Plain("rtt_sum_ns"), F64)]
    + [(Plain("rtt_count"), U32)]
  }

  function TerminalScalars(): Layout {
    [(Plain("terminal_id"), U64), (Plain("fin_chunks"), I64), (Plain("data_size"), I64), (Plain("fin_hops"), I64),
     (Plain("fin_chunks_time_ns"), F64)]
  }

  function TerminalPackets(): Layout {
    [(Plain("packets_gen"), I64), (Plain("packets_fin"), I64), (Plain("min_fin"), I64), (Plain("nonmin_fin"), I64)]
  }

  function TerminalGrids(rails: nat, qos: nat): Layout {
    Grid("vc_occupancy_r", I32, rails, qos) + Grid("terminal_length_r", I32, rails, qos)
  }

  function TerminalRails(rails: nat): Layout {
    TerminalScalars() + Each("busy_time_ns_r", F64, rails) + TerminalPackets() + Each("stalled_chunks_r", U64, rails)
  }

  function TerminalModel(rails: nat, qos: nat): Layout {
    TerminalRails(rails) + TerminalGrids(rails, qos)
  }

  function RouterCounts(radix: nat): Layout {
    Each("stalled_chunks_p", U64, radix) + Each("vc_occupancy_sum_p", I32, radix) + Each("queued_count_p", I32, radix)
  }

  function RouterModel(radix: nat): Layout {
    [(Plain("router_id"), U64)] + EachTwo("busy_time_ns_p", F64, "link_traffic_p", I64, radix) + RouterCounts(radix)
  }

  function SvrVt(): Layout {
    [(Plain("svr_id"), U64), (Plain("pings_sent"), I64), (Plain("pings_recvd"), I64), (Plain("pongs_sent"), I64),
     (Plain("pongs_recvd"), I64), (Plain("bytes_sent"), I64), (Plain("rtt_sum_ns"), F64), (Plain("rtt_count"), I64),
     (Plain("end_time"), F64)]
  }

  // The virtual-time samples of the two network LPs have slots of pointers, which mean
  // nothing in a file, between their scalars and their arrays.
  // Here the hops are a double, which they are not in the other sample.
  function TerminalVtScalars(): Layout {
    [(Plain("terminal_id"), U64), (Plain("fin_chunks"), I64), (Plain("data_size"), I64), (Plain("fin_hops"), F64),
     (Plain("fin_chunks_time_ns"), F64)]
    + TerminalPackets() + [(Plain("end_time"), F64), (Plain("fwd_events"), I64), (Plain("rev_events"), I64)]
  }

  function TerminalVtArrays(rails: nat, qos: nat): Layout {
    Each("busy_time_ns_r", F64, rails) + Each("stalled_chunks_r", U64, rails) + TerminalGrids(rails, qos)
  }

  function RouterVtScalars(): Layout {
    [(Plain("router_id"), U64), (Plain("end_time"), F64), (Plain("fwd_events"), I64), (Plain("rev_events"), I64)]
  }

  function RouterVtArrays(radix: nat): Layout {
    Each("busy_time_ns_p", F64, radix) + Each("link_traffic_p", I64, radix) + RouterCounts(radix)
  }

  /* ---- their sizes are the ones the dispatch is made of ---- */

  lemma SvrModelSize()
    ensures Bytesize(SvrModel()) == 44
  {
    var a, b, c, d := SvrModel()[..1], SvrModel()[1..5], SvrModel()[5..7], SvrModel()[7..];
    UniformSize(a, 8);
    UniformSize(b, 4);
    UniformSize(c, 8);
    UniformSize(d, 4);
    SizeOfConcat(a, b);
    SizeOfConcat(a + b, c);
    SizeOfConcat(a + b + c, d);
    assert SvrModel() == a + b + c + d;
  }

  lemma GridsSize(rails: nat, qos: nat, cells: nat)
    requires cells == rails * qos
    ensures Bytesize(TerminalGrids(rails, qos)) == 8 * cells
  {
    GridSize("vc_occupancy_r", I32, rails, qos, cells);
    GridSize("terminal_length_r", I32, rails, qos, cells);
    SizeOfConcat(Grid("vc_occupancy_r", I32, rails, qos), Grid("terminal_length_r", I32, rails, qos));
  }

  lemma TerminalRailsSize(rails: nat)
    ensures Bytesize(TerminalScalars()) == 40 && Bytesize(TerminalPackets()) == 32
    ensures Bytesize(TerminalRails(rails)) == 72 + 16 * rails
  {
    var a, b, c, d := TerminalScalars(), Each("busy_time_ns_r", F64, rails), TerminalPackets(), Each("stalled_chunks_r", U64, rails);
    UniformSize(a, 8);
    EachSize("busy_time_ns_r", F64, rails);
    UniformSize(c, 8);
    EachSize("stalled_chunks_r", U64, rails);
    SizeOfConcat(a, b);
    SizeOfConcat(a + b, c);
    SizeOfConcat(a + b + c, d);
  }

  lemma TerminalModelSize(rails: nat, qos: nat)
    ensures Bytesize(TerminalModel(rails, qos)) == 72 + 16 * rails + 8 * (rails * qos)
  {
    TerminalRailsSize(rails);
    GridsSize(rails, qos, rails * qos);
    SizeOfConcat(TerminalRails(rails), TerminalGrids(rails, qos));
  }

  lemma RouterCountsSize(radix: nat)
    ensures Bytesize(RouterCounts(radix)) == 16 * radix
  {
    var a, b, c := Each("stalled_chunks_p", U64, radix), Each("vc_occupancy_sum_p", I32, radix), Each("queued_count_p", I32, radix);
    EachSize("stalled_chunks_p", U64, radix);
    EachSize("vc_occupancy_sum_p", I32, radix);
    EachSize("queued_count_p", I32, radix);
    SizeOfConcat(a, b);
    SizeOfConcat(a + b, c);
  }

  lemma RouterModelSize(radix: nat)
    ensures Bytesize(RouterModel(radix)) == 8 + 32 * radix
  {
    var a, b := [(Plain("router_id"), U64)], EachTwo("busy_time_ns_p", F64, "link_traffic_p", I64, radix);
    UniformSize(a, 8);
    EachTwoSize("busy_time_ns_p", F64, "link_traffic_p", I64, radix);
    RouterCountsSize(radix);
    SizeOfConcat(a, b);
    SizeOfConcat(a + b, RouterCounts(radix));
  }

  lemma SvrVtSize()
    ensures Bytesize(SvrVt()) == 72
  {
    UniformSize(SvrVt(), 8);
  }

  // 96 bytes of scalars, 32 of pointers, and the arrays.
  lemma TerminalVtSize(rails: nat, qos: nat)
    ensures Bytesize(TerminalVtScalars()) == 96
    ensures 96 + 4 * 8 + Bytesize(TerminalVtArrays(rails, qos)) == 128 + 16 * rails + 8 * (rails * qos)
  {
    UniformSize(TerminalVtScalars(), 8);
    EachSize("busy_time_ns_r", F64, rails);
    EachSize("stalled_chunks_r", U64, rails);
    GridsSize(rails, qos, rails * qos);
    SizeOfConcat(Each("busy_time_ns_r", F64, rails), Each("stalled_chunks_r", U64, rails));
    SizeOfConcat(Each("busy_time_ns_r", F64, rails) + Each("stalled_chunks_r", U64, rails), TerminalGrids(rails, qos));
  }

  lemma RouterVtSize(radix: nat)
    ensures Bytesize(RouterVtScalars()) == 32
    ensures 32 + 5 * 8 + Bytesize(RouterVtArrays(radix)) == 72 + 32 * radix
  {
    UniformSize(RouterVtScalars(), 8);
    EachSize("busy_time_ns_p", F64, radix);
    EachSize("link_traffic_p", I64, radix);
    RouterCountsSize(radix);
    SizeOfConcat(Each("busy_time_ns_p", F64, radix), Each("link_traffic_p", I64, radix));
    SizeOfConcat(Each("busy_time_ns_p", F64, radix) + Each("link_traffic_p", I64, radix), RouterCounts(radix));
  }
}
