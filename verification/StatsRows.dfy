/** What the rows of scripts/parse-ross-model-stats.py show: which bytes of a payload stand
    under which name, with every offset spelled out. */
module StatsRows {
  import opened Bytes
  import opened Options
  import opened StatsPayloads
  import opened StatsFraming
  import opened StatsParser

  // Value k of the row has this name and is read from the bytes at off.
  ghost predicate Shows(row: Row, k: int, column: Column, payload: seq<Byte>, off: int, c: Code) {
    && 0 <= k < |row| && 0 <= off <= off + Width(c) <= |payload|
    && row[k] == (column, Decode(c, payload[off..off + Width(c)]))
  }

  /* ---- a place in a layout ---- */

  // Field k of the layout has this name and code, and off bytes come before it.
  ghost predicate Places(l: Layout, k: int, off: int, column: Column, c: Code) {
    0 <= k < |l| && l[k] == (column, c) && off == Bytesize(l[..k])
  }

  lemma RowShows(l: Layout, payload: seq<Byte>, k: int, off: int, column: Column, c: Code)
    requires Places(l, k, off, column, c) && Bytesize(l) <= |payload|
    ensures |RowOf(l, payload)| == |l| && Shows(RowOf(l, payload), k, column, payload, off, c)
  {
    assert Codes(l[..k]) == Codes(l)[..k];
    FieldAt(Codes(l), payload, k);
  }

  // In the first or the second of two layouts.
  lemma PlaceFirst(l: Layout, m: Layout, k: int, off: int, column: Column, c: Code)
    requires Places(l, k, off, column, c)
    ensures Places(l + m, k, off, column, c)
  {
    assert (l + m)[..k] == l[..k];
  }

  lemma PlaceSecond(l: Layout, m: Layout, k: int, off: int, column: Column, c: Code)
    requires Places(m, k, off, column, c)
    ensures Places(l + m, |l| + k, Bytesize(l) + off, column, c)
  {
    assert (l + m)[..|l| + k] == l + m[..k];
    SizeOfConcat(l, m[..k]);
  }

  // In fields that all have the same width.
  lemma PlaceUniform(l: Layout, w: nat, k: nat)
    requires k < |l| && forall i :: 0 <= i < |l| ==> Width(l[i].1) == w
    ensures Places(l, k, w * k, l[k].0, l[k].1)
  {
    UniformSize(l[..k], w);
  }

  /* ---- in repeated columns ---- */

  lemma {:induction false} PlaceEach(name: string, c: Code, n: nat, i: nat, off: nat)
    requires i < n && off == Width(c) * i
    ensures Places(Each(name, c, n), i, off, Numbered(name, i), c)
  {
    EachAre(name, c, n);
    PlaceUniform(Each(name, c, n), Width(c), i);
  }

  lemma {:induction false} EachAre(name: string, c: Code, n: nat)
    ensures |Each(name, c, n)| == n && forall i :: 0 <= i < n ==> Each(name, c, n)[i] == (Numbered(name, i), c)
  {
    if n > 0 {
      EachAre(name, c, n - 1);
    }
  }

  lemma {:induction false} GridRowAre(name: string, c: Code, i: nat, m: nat)
    ensures |GridRow(name, c, i, m)| == m && forall j :: 0 <= j < m ==> GridRow(name, c, i, m)[j] == (Paired(name, i, j), c)
  {
    if m > 0 {
      GridRowAre(name, c, i, m - 1);
    }
  }

  lemma PlaceInRow(name: string, c: Code, i: nat, m: nat, j: nat)
    requires j < m
    ensures Places(GridRow(name, c, i, m), j, Width(c) * j, Paired(name, i, j), c)
  {
    GridRowAre(name, c, i, m);
    PlaceUniform(GridRow(name, c, i, m), Width(c), j);
  }

  lemma {:induction false} GridLength(name: string, c: Code, n: nat, m: nat, cells: nat)
    requires cells == n * m
    ensures |Grid(name, c, n, m)| == cells
  {
    if n > 0 {
      assert (n - 1) * m == cells - m;
      GridLength(name, c, n - 1, m, cells - m);
      GridRowAre(name, c, n - 1, m);
    }
  }

  // cell is i * m + j.
  lemma {:induction false} PlaceGrid(name: string, c: Code, n: nat, m: nat, i: nat, j: nat, cell: nat, off: nat)
    requires i < n && j < m && cell == i * m + j && off == Width(c) * cell
    ensures Places(Grid(name, c, n, m), cell, off, Paired(name, i, j), c)
  {
    var above, row := Grid(name, c, n - 1, m), GridRow(name, c, n - 1, m);
    if i < n - 1 {
      PlaceGrid(name, c, n - 1, m, i, j, cell, off);
      PlaceFirst(above, row, cell, off, Paired(name, i, j), c);
    } else {
      LastRow(name, c, i, m, j, i * m);
    }
  }

  lemma LastRow(name: string, c: Code, i: nat, m: nat, j: nat, cells: nat)
    requires j < m && cells == i * m
    ensures Places(Grid(name, c, i, m) + GridRow(name, c, i, m), cells + j, Width(c) * (cells + j), Paired(name, i, j), c)
  {
    GridLength(name, c, i, m, cells);
    GridSize(name, c, i, m, cells);
    PlaceInRow(name, c, i, m, j);
    PlaceSecond(Grid(name, c, i, m), GridRow(name, c, i, m), j, Width(c) * j, Paired(name, i, j), c);
    Spread(Width(c), cells, j);
  }

  lemma Spread(w: int, a: int, b: int)
    ensures w * (a + b) == w * a + w * b
  {
  }

  lemma {:induction false} PlaceEachTwo(name: string, c: Code, name': string, c': Code, n: nat, i: nat, off: nat)
    requires i < n && off == (Width(c) + Width(c')) * i
    ensures Places(EachTwo(name, c, name', c', n), 2 * i, off, Numbered(name, i), c)
    ensures Places(EachTwo(name, c, name', c', n), 2 * i + 1, off + Width(c), Numbered(name', i), c')
  {
    var start, pair := EachTwo(name, c, name', c', n - 1), [(Numbered(name, n - 1), c), (Numbered(name', n - 1), c')];
    if i < n - 1 {
      PlaceEachTwo(name, c, name', c', n - 1, i, off);
      BothFirst(start, pair, 2 * i, off, (Numbered(name, i), c), (Numbered(name', i), c'));
    } else {
      EachTwoLength(name, c, name', c', n - 1);
      EachTwoSize(name, c, name', c', n - 1);
      LastTwo(start, pair[0], pair[1], off);
    }
  }

  lemma BothFirst(l: Layout, m: Layout, k: int, off: int, a: (Column, Code), b: (Column, Code))
    requires Places(l, k, off, a.0, a.1) && Places(l, k + 1, off + Width(a.1), b.0, b.1)
    ensures Places(l + m, k, off, a.0, a.1) && Places(l + m, k + 1, off + Width(a.1), b.0, b.1)
  {
    PlaceFirst(l, m, k, off, a.0, a.1);
    PlaceFirst(l, m, k + 1, off + Width(a.1), b.0, b.1);
  }

  lemma LastTwo(start: Layout, a: (Column, Code), b: (Column, Code), off: nat)
    requires Bytesize(start) == off
    ensures Places(start + [a, b], |start|, off, a.0, a.1) && Places(start + [a, b], |start| + 1, off + Width(a.1), b.0, b.1)
  {
    PlacePair(a, b);
    PlaceSecond(start, [a, b], 0, 0, a.0, a.1);
    PlaceSecond(start, [a, b], 1, Width(a.1), b.0, b.1);
  }

  // Two arrays; size and size' are their bytes.
  lemma TwoEach(name: string, c: Code, name': string, c': Code, n: nat, size: nat, size': nat)
    requires size == Width(c) * n && size' == Width(c') * n
    ensures var l := Each(name, c, n) + Each(name', c', n); |l| == 2 * n && Bytesize(l) == size + size'
  {
    EachAre(name, c, n);
    EachAre(name', c', n);
    EachSize(name, c, n);
    EachSize(name', c', n);
    SizeOfConcat(Each(name, c, n), Each(name', c', n));
  }

  // In an array that comes first, and in one that comes next.
  lemma PlaceFirstEach(name: string, c: Code, n: nat, l: Layout, m: Layout, i: nat, off: nat)
    requires i < n && off == Width(c) * i
    ensures Places(Each(name, c, n) + l + m, i, off, Numbered(name, i), c)
  {
    var a := Each(name, c, n);
    PlaceEach(name, c, n, i, off);
    PlaceFirst(a, l, i, off, Numbered(name, i), c);
    PlaceFirst(a + l, m, i, off, Numbered(name, i), c);
  }

  lemma PlaceNextEach(l: Layout, name: string, c: Code, n: nat, m: Layout, i: nat, off: nat)
    requires i < n && off == Width(c) * i
    ensures Places(l + Each(name, c, n) + m, |l| + i, Bytesize(l) + off, Numbered(name, i), c)
  {
    PlaceEach(name, c, n, i, off);
    PlaceMiddle(l, Each(name, c, n), m, i, off, Numbered(name, i), c);
  }

  lemma PlaceLastEach(l: Layout, name: string, c: Code, n: nat, i: nat, off: nat)
    requires i < n && off == Width(c) * i
    ensures Places(l + Each(name, c, n), |l| + i, Bytesize(l) + off, Numbered(name, i), c)
  {
    PlaceEach(name, c, n, i, off);
    PlaceSecond(l, Each(name, c, n), i, off, Numbered(name, i), c);
  }

  lemma EachFills(name: string, c: Code, n: nat, size: nat)
    requires size == Width(c) * n
    ensures |Each(name, c, n)| == n && Bytesize(Each(name, c, n)) == size
  {
    EachAre(name, c, n);
    EachSize(name, c, n);
  }

  lemma PlacePair(a: (Column, Code), b: (Column, Code))
    ensures Places([a, b], 0, 0, a.0, a.1) && Places([a, b], 1, Width(a.1), b.0, b.1)
  {
    assert [a, b][..0] == [] && [a, b][..1] == [a] && [] + [a] == [a];
    assert Codes([]) == [];
    RowSnoc([], a, []);
  }

  lemma {:induction false} EachTwoLength(name: string, c: Code, name': string, c': Code, n: nat)
    ensures |EachTwo(name, c, name', c', n)| == 2 * n
  {
    if n > 0 {
      EachTwoLength(name, c, name', c', n - 1);
    }
  }

  // Where the fields begin is known.
  lemma PlaceBegun(l: Layout, at: seq<nat>, k: nat)
    requires Begins(Codes(l), at) && k < |l|
    ensures Places(l, k, at[k], l[k].0, l[k].1)
  {
    assert Codes(l[..k]) == Codes(l)[..k];
    Offsets(Codes(l[..k]), at[..k + 1]);
  }

  lemma PlaceMiddle(pre: Layout, l: Layout, post: Layout, k: int, off: int, column: Column, c: Code)
    requires Places(l, k, off, column, c)
    ensures Places(pre + l + post, |pre| + k, Bytesize(pre) + off, column, c)
  {
    PlaceSecond(pre, l, k, off, column, c);
    PlaceFirst(pre + l, post, |pre| + k, Bytesize(pre) + off, column, c);
  }

  /* ---- the servers ---- */

  // A GVT or real-time sample.
  lemma SvrModelFields()
    ensures var l := SvrModel();
            && |l| == 8
            && Places(l, 0, 0, Plain("svr_id"), U64) && Places(l, 1, 8, Plain("pings_sent"), U32)
            && Places(l, 2, 12, Plain("pings_recvd"), U32) && Places(l, 3, 16, Plain("pongs_sent"), U32)
            && Places(l, 4, 20, Plain("pongs_recvd"), U32) && Places(l, 5, 24, Plain("bytes_sent"), I64)
            && Places(l, 6, 32, Plain("rtt_sum_ns"), F64) && Places(l, 7, 40, Plain("rtt_count"), U32)
  {
    forall k: nat | k < 8 ensures Places(SvrModel(), k, [0, 8, 12, 16, 20, 24, 32, 40][k], SvrModel()[k].0, SvrModel()[k].1) {
      SvrModelPlace(k);
    }
  }

  lemma SvrModelPlace(k: nat)
    requires k < 8
    ensures Places(SvrModel(), k, [0, 8, 12, 16, 20, 24, 32, 40][k], SvrModel()[k].0, SvrModel()[k].1)
  {
    assert Begins(Codes(SvrModel()), [0, 8, 12, 16, 20, 24, 32, 40, 44]);
    PlaceBegun(SvrModel(), [0, 8, 12, 16, 20, 24, 32, 40, 44], k);
  }

  // A virtual-time sample.
  lemma SvrVtFields()
    ensures var l := SvrVt();
            && |l| == 9
            && Places(l, 0, 0, Plain("svr_id"), U64) && Places(l, 1, 8, Plain("pings_sent"), I64)
            && Places(l, 2, 16, Plain("pings_recvd"), I64) && Places(l, 3, 24, Plain("pongs_sent"), I64)
            && Places(l, 4, 32, Plain("pongs_recvd"), I64) && Places(l, 5, 40, Plain("bytes_sent"), I64)
            && Places(l, 6, 48, Plain("rtt_sum_ns"), F64) && Places(l, 7, 56, Plain("rtt_count"), I64)
            && Places(l, 8, 64, Plain("end_time"), F64)
  {
    forall k: nat | k < 9 ensures Places(SvrVt(), k, 8 * k, SvrVt()[k].0, SvrVt()[k].1) {
      PlaceUniform(SvrVt(), 8, k);
    }
  }

  /* ---- the terminals ---- */

  lemma TerminalRailsLength(rails: nat)
    ensures |TerminalRails(rails)| == 9 + 2 * rails
  {
    EachAre("busy_time_ns_r", F64, rails);
    EachAre("stalled_chunks_r", U64, rails);
  }

  lemma TerminalScalarPlace(rails: nat, k: nat)
    requires k < 5
    ensures Places(TerminalRails(rails), k, 8 * k, TerminalScalars()[k].0, TerminalScalars()[k].1)
  {
    var a, b, c, d := TerminalScalars(), Each("busy_time_ns_r", F64, rails), TerminalPackets(), Each("stalled_chunks_r", U64, rails);
    PlaceUniform(a, 8, k);
    PlaceFirst(a, b, k, 8 * k, a[k].0, a[k].1);
    PlaceFirst(a + b, c, k, 8 * k, a[k].0, a[k].1);
    PlaceFirst(a + b + c, d, k, 8 * k, a[k].0, a[k].1);
  }

  lemma TerminalPacketPlace(rails: nat, k: nat)
    requires k < 4
    ensures Places(TerminalRails(rails), 5 + rails + k, 40 + 8 * rails + 8 * k, TerminalPackets()[k].0, TerminalPackets()[k].1)
  {
    var a, b, c, d := TerminalScalars(), Each("busy_time_ns_r", F64, rails), TerminalPackets(), Each("stalled_chunks_r", U64, rails);
    TerminalRailsSize(rails);
    EachAre("busy_time_ns_r", F64, rails);
    EachSize("busy_time_ns_r", F64, rails);
    SizeOfConcat(a, b);
    PlaceUniform(c, 8, k);
    PlaceMiddle(a + b, c, d, k, 8 * k, c[k].0, c[k].1);
  }

  lemma TerminalBusyPlace(rails: nat, i: nat)
    requires i < rails
    ensures Places(TerminalRails(rails), 5 + i, 40 + 8 * i, Numbered("busy_time_ns_r", i), F64)
  {
    var l, m := TerminalScalars() + Each("busy_time_ns_r", F64, rails) + TerminalPackets(), Each("stalled_chunks_r", U64, rails);
    TerminalRailsSize(rails);
    PlaceNextEach(TerminalScalars(), "busy_time_ns_r", F64, rails, TerminalPackets(), i, 8 * i);
    PlaceFirst(l, m, 5 + i, 40 + 8 * i, Numbered("busy_time_ns_r", i), F64);
  }

  lemma TerminalStalledPlace(rails: nat, i: nat)
    requires i < rails
    ensures Places(TerminalRails(rails), 9 + rails + i, 72 + 8 * rails + 8 * i, Numbered("stalled_chunks_r", i), U64)
  {
    var l, m := TerminalScalars() + Each("busy_time_ns_r", F64, rails) + TerminalPackets(), Each("stalled_chunks_r", U64, rails);
    TerminalRailsSize(rails);
    EachAre("busy_time_ns_r", F64, rails);
    EachSize("stalled_chunks_r", U64, rails);
    SizeOfConcat(l, m);
    PlaceLastEach(l, "stalled_chunks_r", U64, rails, i, 8 * i);
  }

  // The queues of QoS level j of rail i, which is level k of the n levels of all rails.
  lemma TerminalQueue(rails: nat, qos: nat, i: nat, j: nat, k: nat, n: nat)
    requires i < rails && j < qos && k == i * qos + j && n == rails * qos
    ensures Places(TerminalGrids(rails, qos), k, 4 * k, Paired("vc_occupancy_r", i, j), I32)
    ensures Places(TerminalGrids(rails, qos), n + k, 4 * n + 4 * k, Paired("terminal_length_r", i, j), I32)
  {
    PlaceGrid("vc_occupancy_r", I32, rails, qos, i, j, k, 4 * k);
    PlaceFirst(Grid("vc_occupancy_r", I32, rails, qos), Grid("terminal_length_r", I32, rails, qos), k, 4 * k, Paired("vc_occupancy_r", i, j), I32);
    PlaceNextGrid("vc_occupancy_r", "terminal_length_r", rails, qos, i, j, k, n);
  }

  lemma PlaceNextGrid(name: string, name': string, rails: nat, qos: nat, i: nat, j: nat, k: nat, n: nat)
    requires i < rails && j < qos && k == i * qos + j && n == rails * qos
    ensures Places(Grid(name, I32, rails, qos) + Grid(name', I32, rails, qos), n + k, 4 * n + 4 * k, Paired(name', i, j), I32)
  {
    PlaceGrid(name', I32, rails, qos, i, j, k, 4 * k);
    GridSize(name, I32, rails, qos, n);
    GridLength(name, I32, rails, qos, n);
    PlaceSecond(Grid(name, I32, rails, qos), Grid(name', I32, rails, qos), k, 4 * k, Paired(name', i, j), I32);
  }

  lemma GridsLength(rails: nat, qos: nat, cells: nat)
    requires cells == rails * qos
    ensures |TerminalGrids(rails, qos)| == 2 * cells
  {
    GridLength("vc_occupancy_r", I32, rails, qos, cells);
    GridLength("terminal_length_r", I32, rails, qos, cells);
  }

  // The layout of a GVT or real-time sample: what every terminal has,
  lemma TerminalModelFields(rails: nat, qos: nat)
    ensures var l := TerminalModel(rails, qos);
            && Places(l, 0, 0, Plain("terminal_id"), U64) && Places(l, 1, 8, Plain("fin_chunks"), I64)
            && Places(l, 2, 16, Plain("data_size"), I64) && Places(l, 3, 24, Plain("fin_hops"), I64)
            && Places(l, 4, 32, Plain("fin_chunks_time_ns"), F64)
  {
    forall k: nat | k < 5 ensures Places(TerminalModel(rails, qos), k, 8 * k, TerminalScalars()[k].0, TerminalScalars()[k].1) {
      TerminalScalarPlace(rails, k);
      PlaceFirst(TerminalRails(rails), TerminalGrids(rails, qos), k, 8 * k, TerminalScalars()[k].0, TerminalScalars()[k].1);
    }
  }

  lemma TerminalModelPackets(rails: nat, qos: nat)
    ensures var l := TerminalModel(rails, qos);
            && Places(l, 5 + rails, 40 + 8 * rails, Plain("packets_gen"), I64)
            && Places(l, 6 + rails, 48 + 8 * rails, Plain("packets_fin"), I64)
            && Places(l, 7 + rails, 56 + 8 * rails, Plain("min_fin"), I64)
            && Places(l, 8 + rails, 64 + 8 * rails, Plain("nonmin_fin"), I64)
  {
    TerminalModelPacket(rails, qos, 0);
    TerminalModelPacket(rails, qos, 1);
    TerminalModelPacket(rails, qos, 2);
    TerminalModelPacket(rails, qos, 3);
  }

  lemma TerminalModelPacket(rails: nat, qos: nat, k: nat)
    requires k < 4
    ensures Places(TerminalModel(rails, qos), 5 + rails + k, 40 + 8 * rails + 8 * k, TerminalPackets()[k].0, TerminalPackets()[k].1)
  {
    TerminalPacketPlace(rails, k);
    PlaceFirst(TerminalRails(rails), TerminalGrids(rails, qos), 5 + rails + k, 40 + 8 * rails + 8 * k,
               TerminalPackets()[k].0, TerminalPackets()[k].1);
  }

  // what it has for rail i,
  lemma TerminalModelRail(rails: nat, qos: nat, i: nat)
    requires i < rails
    ensures Places(TerminalModel(rails, qos), 5 + i, 40 + 8 * i, Numbered("busy_time_ns_r", i), F64)
    ensures Places(TerminalModel(rails, qos), 9 + rails + i, 72 + 8 * rails + 8 * i, Numbered("stalled_chunks_r", i), U64)
  {
    var l, m := TerminalRails(rails), TerminalGrids(rails, qos);
    TerminalBusyPlace(rails, i);
    TerminalStalledPlace(rails, i);
    PlaceFirst(l, m, 5 + i, 40 + 8 * i, Numbered("busy_time_ns_r", i), F64);
    PlaceFirst(l, m, 9 + rails + i, 72 + 8 * rails + 8 * i, Numbered("stalled_chunks_r", i), U64);
  }

  // the queues of all rails behind these, and nothing else.
  lemma TerminalModelQueues(rails: nat, qos: nat, k: int, off: int, column: Column, c: Code)
    requires Places(TerminalGrids(rails, qos), k, off, column, c)
    ensures Places(TerminalModel(rails, qos), 9 + 2 * rails + k, 72 + 16 * rails + off, column, c)
  {
    TerminalRailsSize(rails);
    TerminalRailsLength(rails);
    PlaceSecond(TerminalRails(rails), TerminalGrids(rails, qos), k, off, column, c);
  }

  lemma TerminalModelLength(rails: nat, qos: nat)
    ensures |TerminalModel(rails, qos)| == 9 + 2 * rails + 2 * (rails * qos)
  {
    TerminalRailsLength(rails);
    GridsLength(rails, qos, rails * qos);
  }

  // A virtual-time sample has its scalars first,
  lemma TerminalVtFields()
    ensures var l := TerminalVtScalars();
            && |l| == 12
            && Places(l, 0, 0, Plain("terminal_id"), U64) && Places(l, 1, 8, Plain("fin_chunks"), I64)
            && Places(l, 2, 16, Plain("data_size"), I64) && Places(l, 3, 24, Plain("fin_hops"), F64)
            && Places(l, 4, 32, Plain("fin_chunks_time_ns"), F64) && Places(l, 5, 40, Plain("packets_gen"), I64)
            && Places(l, 6, 48, Plain("packets_fin"), I64) && Places(l, 7, 56, Plain("min_fin"), I64)
            && Places(l, 8, 64, Plain("nonmin_fin"), I64) && Places(l, 9, 72, Plain("end_time"), F64)
            && Places(l, 10, 80, Plain("fwd_events"), I64) && Places(l, 11, 88, Plain("rev_events"), I64)
  {
    forall k: nat | k < 12 ensures Places(TerminalVtScalars(), k, 8 * k, TerminalVtScalars()[k].0, TerminalVtScalars()[k].1) {
      PlaceUniform(TerminalVtScalars(), 8, k);
    }
  }

  // and its arrays behind the pointers.
  lemma TerminalVtRail(rails: nat, qos: nat, i: nat)
    requires i < rails
    ensures Places(TerminalVtArrays(rails, qos), i, 8 * i, Numbered("busy_time_ns_r", i), F64)
    ensures Places(TerminalVtArrays(rails, qos), rails + i, 8 * rails + 8 * i, Numbered("stalled_chunks_r", i), U64)
  {
    PlaceFirstEach("busy_time_ns_r", F64, rails, Each("stalled_chunks_r", U64, rails), TerminalGrids(rails, qos), i, 8 * i);
    EachFills("busy_time_ns_r", F64, rails, 8 * rails);
    PlaceNextEach(Each("busy_time_ns_r", F64, rails), "stalled_chunks_r", U64, rails, TerminalGrids(rails, qos), i, 8 * i);
  }

  lemma TerminalVtQueues(rails: nat, qos: nat, k: int, off: int, column: Column, c: Code)
    requires Places(TerminalGrids(rails, qos), k, off, column, c)
    ensures Places(TerminalVtArrays(rails, qos), 2 * rails + k, 16 * rails + off, column, c)
  {
    TwoEach("busy_time_ns_r", F64, "stalled_chunks_r", U64, rails, 8 * rails, 8 * rails);
    PlaceSecond(Each("busy_time_ns_r", F64, rails) + Each("stalled_chunks_r", U64, rails), TerminalGrids(rails, qos), k, off, column, c);
  }

  lemma TerminalVtLength(rails: nat, qos: nat)
    ensures |TerminalVtArrays(rails, qos)| == 2 * rails + 2 * (rails * qos)
  {
    TwoEach("busy_time_ns_r", F64, "stalled_chunks_r", U64, rails, 8 * rails, 8 * rails);
    GridsLength(rails, qos, rails * qos);
  }

  /* ---- the routers ---- */

  // The counts of port i.
  lemma RouterPort(radix: nat, i: nat)
    requires i < radix
    ensures Places(RouterCounts(radix), i, 8 * i, Numbered("stalled_chunks_p", i), U64)
    ensures Places(RouterCounts(radix), radix + i, 8 * radix + 4 * i, Numbered("vc_occupancy_sum_p", i), I32)
    ensures Places(RouterCounts(radix), 2 * radix + i, 12 * radix + 4 * i, Numbered("queued_count_p", i), I32)
  {
    var a, b, c := Each("stalled_chunks_p", U64, radix), Each("vc_occupancy_sum_p", I32, radix), Each("queued_count_p", I32, radix);
    PlaceFirstEach("stalled_chunks_p", U64, radix, b, c, i, 8 * i);
    EachFills("stalled_chunks_p", U64, radix, 8 * radix);
    PlaceNextEach(a, "vc_occupancy_sum_p", I32, radix, c, i, 4 * i);
    RouterQueued(radix, i);
  }

  lemma RouterQueued(radix: nat, i: nat)
    requires i < radix
    ensures Places(RouterCounts(radix), 2 * radix + i, 12 * radix + 4 * i, Numbered("queued_count_p", i), I32)
  {
    TwoEach("stalled_chunks_p", U64, "vc_occupancy_sum_p", I32, radix, 8 * radix, 4 * radix);
    PlaceLastEach(Each("stalled_chunks_p", U64, radix) + Each("vc_occupancy_sum_p", I32, radix), "queued_count_p", I32, radix, i, 4 * i);
  }

  lemma RouterCountsLength(radix: nat)
    ensures |RouterCounts(radix)| == 3 * radix
  {
    TwoEach("stalled_chunks_p", U64, "vc_occupancy_sum_p", I32, radix, 8 * radix, 4 * radix);
    EachAre("queued_count_p", I32, radix);
  }

  // A GVT or real-time sample: the number of the router, and for port i
  lemma RouterModelPort(radix: nat, i: nat)
    requires i < radix
    ensures Places(RouterModel(radix), 1 + 2 * i, 8 + 16 * i, Numbered("busy_time_ns_p", i), F64)
    ensures Places(RouterModel(radix), 2 + 2 * i, 16 + 16 * i, Numbered("link_traffic_p", i), I64)
  {
    var a: Layout := [(Plain("router_id"), U64)];
    var b, c := EachTwo("busy_time_ns_p", F64, "link_traffic_p", I64, radix), RouterCounts(radix);
    UniformSize(a, 8);
    PlaceEachTwo("busy_time_ns_p", F64, "link_traffic_p", I64, radix, i, 16 * i);
    PlaceMiddle(a, b, c, 2 * i, 16 * i, Numbered("busy_time_ns_p", i), F64);
    PlaceMiddle(a, b, c, 2 * i + 1, 16 * i + 8, Numbered("link_traffic_p", i), I64);
  }

  lemma RouterModelHead(radix: nat)
    ensures |RouterModel(radix)| == 1 + 5 * radix
    ensures Places(RouterModel(radix), 0, 0, Plain("router_id"), U64)
    ensures var l := [(Plain("router_id"), U64)] + EachTwo("busy_time_ns_p", F64, "link_traffic_p", I64, radix);
            |l| == 1 + 2 * radix && Bytesize(l) == 8 + 16 * radix
  {
    var a: Layout := [(Plain("router_id"), U64)];
    var b, c := EachTwo("busy_time_ns_p", F64, "link_traffic_p", I64, radix), RouterCounts(radix);
    UniformSize(a, 8);
    EachTwoSize("busy_time_ns_p", F64, "link_traffic_p", I64, radix);
    EachTwoLength("busy_time_ns_p", F64, "link_traffic_p", I64, radix);
    RouterCountsLength(radix);
    SizeOfConcat(a, b);
    PlaceUniform(a, 8, 0);
    PlaceFirst(a, b, 0, 0, Plain("router_id"), U64);
    PlaceFirst(a + b, c, 0, 0, Plain("router_id"), U64);
  }

  // and the counts of the ports behind these.
  lemma RouterModelCounts(radix: nat, k: int, off: int, column: Column, c: Code)
    requires Places(RouterCounts(radix), k, off, column, c)
    ensures Places(RouterModel(radix), 1 + 2 * radix + k, 8 + 16 * radix + off, column, c)
  {
    RouterModelHead(radix);
    PlaceSecond([(Plain("router_id"), U64)] + EachTwo("busy_time_ns_p", F64, "link_traffic_p", I64, radix), RouterCounts(radix), k, off, column, c);
  }

  // A virtual-time sample: the scalars,
  lemma RouterVtFields()
    ensures var l := RouterVtScalars();
            && |l| == 4
            && Places(l, 0, 0, Plain("router_id"), U64) && Places(l, 1, 8, Plain("end_time"), F64)
            && Places(l, 2, 16, Plain("fwd_events"), I64) && Places(l, 3, 24, Plain("rev_events"), I64)
  {
    forall k: nat | k < 4 ensures Places(RouterVtScalars(), k, 8 * k, RouterVtScalars()[k].0, RouterVtScalars()[k].1) {
      PlaceUniform(RouterVtScalars(), 8, k);
    }
  }

  // and behind the pointers, for port i,
  lemma RouterVtPort(radix: nat, i: nat)
    requires i < radix
    ensures Places(RouterVtArrays(radix), i, 8 * i, Numbered("busy_time_ns_p", i), F64)
    ensures Places(RouterVtArrays(radix), radix + i, 8 * radix + 8 * i, Numbered("link_traffic_p", i), I64)
  {
    PlaceFirstEach("busy_time_ns_p", F64, radix, Each("link_traffic_p", I64, radix), RouterCounts(radix), i, 8 * i);
    EachFills("busy_time_ns_p", F64, radix, 8 * radix);
    PlaceNextEach(Each("busy_time_ns_p", F64, radix), "link_traffic_p", I64, radix, RouterCounts(radix), i, 8 * i);
  }

  lemma RouterVtCounts(radix: nat, k: int, off: int, column: Column, c: Code)
    requires Places(RouterCounts(radix), k, off, column, c)
    ensures Places(RouterVtArrays(radix), 2 * radix + k, 16 * radix + off, column, c)
  {
    TwoEach("busy_time_ns_p", F64, "link_traffic_p", I64, radix, 8 * radix, 8 * radix);
    PlaceSecond(Each("busy_time_ns_p", F64, radix) + Each("link_traffic_p", I64, radix), RouterCounts(radix), k, off, column, c);
  }

  lemma RouterVtLength(radix: nat)
    ensures |RouterVtArrays(radix)| == 5 * radix
  {
    TwoEach("busy_time_ns_p", F64, "link_traffic_p", I64, radix, 8 * radix, 8 * radix);
    RouterCountsLength(radix);
  }

  /* ---- from the places to the rows ---- */

  // Each field of a model sample stands in the row at its place.
  lemma ModelShows(t: LpType, w: Network, payload: seq<Byte>, l: Layout, k: int, off: int, column: Column, c: Code)
    requires |payload| == SizeOf(ModelFile, t, w) && Places(l, k, off, column, c)
    requires l == match t case Svr => SvrModel() case Terminal => TerminalModel(w.rails, w.qos) case RouterLp => RouterModel(w.radix)
    ensures var row := Decoded(ModelFile, t, w, payload); |row| == |l| && Shows(row, k, column, payload, off, c)
  {
    SvrModelSize();
    TerminalModelSize(w.rails, w.qos);
    RouterModelSize(w.radix);
    RowShows(l, payload, k, off, column, c);
  }

  // So does each field of a virtual-time sample; the pointers come before the arrays,
  // which begin at byte 128 of a terminal sample and at byte 72 of a router sample.
  lemma SvrVtShowsField(w: Network, payload: seq<Byte>, k: int, off: int, column: Column, c: Code)
    requires |payload| == 72 && Places(SvrVt(), k, off, column, c)
    ensures var row := Decoded(VtFile, Svr, w, payload); |row| == |SvrVt()| && Shows(row, k, column, payload, off, c)
  {
    SvrVtSize();
    RowShows(SvrVt(), payload, k, off, column, c);
  }

  lemma TerminalVtShows(w: Network, payload: seq<Byte>, k: int, off: int, column: Column, c: Code)
    requires |payload| == SizeOf(VtFile, Terminal, w)
    ensures var row, l, m := Decoded(VtFile, Terminal, w, payload), TerminalVtScalars(), TerminalVtArrays(w.rails, w.qos);
            && |row| == |l| + |m|
            && (Places(l, k, off, column, c) ==> Shows(row, k, column, payload, off, c))
            && (Places(m, k, off, column, c) ==> Shows(row, 12 + k, column, payload, 128 + off, c))
  {
    TerminalVtRow(w, payload);
    PartsShow(TerminalVtScalars(), TerminalVtArrays(w.rails, w.qos), payload, 128, k, off, column, c);
  }

  lemma TerminalVtRow(w: Network, payload: seq<Byte>)
    requires |payload| == SizeOf(VtFile, Terminal, w)
    ensures var l, m := TerminalVtScalars(), TerminalVtArrays(w.rails, w.qos);
            && |payload| >= 128 && Bytesize(l) == 96 && Bytesize(m) == |payload| - 128
            && Decoded(VtFile, Terminal, w, payload) == RowOf(l, payload) + RowOf(m, payload[128..])
  {
    TerminalVtSize(w.rails, w.qos);
  }

  lemma RouterVtShows(w: Network, payload: seq<Byte>, k: int, off: int, column: Column, c: Code)
    requires |payload| == SizeOf(VtFile, RouterLp, w)
    ensures var row, l, m := Decoded(VtFile, RouterLp, w, payload), RouterVtScalars(), RouterVtArrays(w.radix);
            && |row| == |l| + |m|
            && (Places(l, k, off, column, c) ==> Shows(row, k, column, payload, off, c))
            && (Places(m, k, off, column, c) ==> Shows(row, 4 + k, column, payload, 72 + off, c))
  {
    RouterVtSize(w.radix);
    PartsShow(RouterVtScalars(), RouterVtArrays(w.radix), payload, 72, k, off, column, c);
  }

  lemma PartsShow(l: Layout, m: Layout, payload: seq<Byte>, gap: nat, k: int, off: int, column: Column, c: Code)
    requires gap <= |payload| && Bytesize(l) <= |payload| && Bytesize(m) <= |payload| - gap
    ensures var row := RowOf(l, payload) + RowOf(m, payload[gap..]);
            && |row| == |l| + |m|
            && (Places(l, k, off, column, c) ==> Shows(row, k, column, payload, off, c))
            && (Places(m, k, off, column, c) ==> Shows(row, |l| + k, column, payload, gap + off, c))
  {
    if Places(l, k, off, column, c) {
      RowShows(l, payload, k, off, column, c);
    }
    if Places(m, k, off, column, c) {
      RowShows(m, payload[gap..], k, off, column, c);
      assert payload[gap..][off..off + Width(c)] == payload[gap + off..gap + off + Width(c)];
    }
  }

  /* ---- from the bytes of a file to its row ---- */

  // A model file of one record with the flag 3, the size 24 and a payload for LPs of kind
  // t gives one row, and that for t.
  lemma OneModelRecord(w: Network, d: Dispatch, v: seq<int>, payload: seq<Byte>, t: LpType)
    requires BuildDispatch(w.rails, w.qos, w.radix) == Some(d)
    requires AllFit([I32, I32, F64, F64, U32, U32, U32, F32, I32, U32], v) && v[0] == 3 && v[1] == 24
    requires v[9] == |payload| == SizeOf(ModelFile, t, w)
    ensures var q := ReaderOf(ModelFile, w, d);
            && q.Ok() && q.AllReadable([Record(v, payload)])
            && Scan(q.format, Pack([I32, I32, F64, F64, U32, U32, U32, F32, I32, U32], v) + payload) == Scanned([Record(v, payload)], Complete)
            && q.AbsorbAll(Output(map[], []), [Record(v, payload)]) == Output(map[t := [Line(v, Decoded(ModelFile, t, w, payload))]], [])
  {
    ModelRecord(v, payload);
    NothingMore(payload);
    OneAbsorbed(ModelFile, w, d, v, payload, t);
  }

  lemma OneVtRecord(w: Network, d: Dispatch, v: seq<int>, payload: seq<Byte>, t: LpType)
    requires BuildDispatch(w.rails, w.qos, w.radix) == Some(d)
    requires AllFit([U64, U64, U64, F64, F64, I32, I32], v) && v[6] == 3
    requires v[5] == |payload| == SizeOf(VtFile, t, w)
    ensures var q := ReaderOf(VtFile, w, d);
            && q.Ok() && q.AllReadable([Record(v, payload)])
            && Scan(q.format, Pack([U64, U64, U64, F64, F64, I32, I32], v) + payload) == Scanned([Record(v, payload)], Complete)
            && q.AbsorbAll(Output(map[], []), [Record(v, payload)]) == Output(map[t := [Line(v, Decoded(VtFile, t, w, payload))]], [])
  {
    VtRecord(v, payload);
    NothingMore(payload);
    var data := Pack([U64, U64, U64, F64, F64, I32, I32], v) + payload;
    assert data[48 + v[5]..] == [];
    OneAbsorbed(VtFile, w, d, v, payload, t);
  }

  lemma NothingMore(payload: seq<Byte>)
    ensures payload[|payload|..] == [] && payload[..|payload|] == payload
    ensures ModelFormat().Ok() && Scan(ModelFormat(), []) == Scanned([], Complete)
    ensures VtFormat().Ok() && Scan(VtFormat(), []) == Scanned([], Complete)
  {
    FormatsOk();
  }

  lemma OneAbsorbed(k: Kind, w: Network, d: Dispatch, v: seq<int>, payload: seq<Byte>, t: LpType)
    requires BuildDispatch(w.rails, w.qos, w.radix) == Some(d)
    requires var f := FormatOf(k); |v| == |f.fields| && f.sizeAt < |v| && v[f.sizeAt] == |payload| == SizeOf(k, t, w)
    ensures var q, r := ReaderOf(k, w, d), Record(v, payload);
            && q.Ok() && q.AllReadable([r])
            && q.AbsorbAll(Output(map[], []), [r]) == Output(map[t := [Line(v, Decoded(k, t, w, payload))]], [])
  {
    var q, r, empty := ReaderOf(k, w, d), Record(v, payload), Output(map[], []);
    ReaderOk(k, w, d);
    AbsorbFirst(q, r, t);
    AbsorbSnoc(q, empty, [], r);
    assert [] + [r] == [r];
  }

  lemma AbsorbFirst(q: Reader, r: Record, t: LpType)
    requires q.Ok() && q.Readable(r) && r.header[q.format.sizeAt] == SizeOf(q.kind, t, q.network)
    ensures |r.payload| == SizeOf(q.kind, t, q.network)
    ensures q.Absorb(Output(map[], []), r) == Output(map[t := [q.LineOf(t, r)]], [])
  {
    var none: Rows, line := map[], q.LineOf(t, r);
    assert q.types[SizeOf(q.kind, t, q.network)] == t;
    assert LinesFor(none, t) + [line] == [line];
    assert none[t := [line]] == map[t := [line]];
  }
}
