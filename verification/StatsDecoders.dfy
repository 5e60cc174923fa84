/** The decoders of scripts/parse-ross-model-stats.py, which read a payload field by
    field, and the collecting callback of the ping-pong server, which writes one. */
module StatsDecoders {
  import opened Arith
  import opened Bytes
  import opened Seqs
  import opened StatsPayloads
  import PingPong

  // After the fields of l have been read.
  ghost predicate At(l: Layout, payload: seq<Byte>, off: nat, row: Row) {
    off == Bytesize(l) <= |payload| && row == RowOf(l, payload)
  }

  lemma AtStart(payload: seq<Byte>)
    ensures At([], payload, 0, [])
  {
    assert Codes([]) == [];
  }

  // One field read by struct.unpack_from at off.
  method ReadField(ghost l: Layout, payload: seq<Byte>, off: nat, row: Row, column: Column, c: Code) returns (next: nat, more: Row)
    requires At(l, payload, off, row) && off + Width(c) <= |payload|
    ensures At(l + [(column, c)], payload, next, more) && next == off + Width(c)
  {
    RowSnoc(l, (column, c), payload);
    more := row + [(column, Decode(c, payload[off..off + Width(c)]))];
    next := off + Width(c);
  }

  // Several fields read by one call.
  method ReadFields(ghost l: Layout, payload: seq<Byte>, off: nat, row: Row, fields: Layout) returns (next: nat, more: Row)
    requires At(l, payload, off, row) && off + Bytesize(fields) <= |payload|
    ensures At(l + fields, payload, next, more) && next == off + Bytesize(fields)
  {
    next, more := off, row;
    assert l + fields[..0] == l;
    SizeOfConcat(l, fields);
    for i := 0 to |fields|
      invariant At(l + fields[..i], payload, next, more)
    {
      StillFits(l, fields, i);
      assert l + fields[..i + 1] == (l + fields[..i]) + [fields[i]];
      next, more := ReadField(l + fields[..i], payload, next, more, fields[i].0, fields[i].1);
    }
    assert fields[..|fields|] == fields;
  }

  lemma StillFits(l: Layout, fields: Layout, i: nat)
    requires i < |fields|
    ensures Bytesize(l + fields[..i]) + Width(fields[i].1) <= Bytesize(l + fields)
  {
    RowSnoc(l + fields[..i], fields[i], []);
    SizeOfConcat(l + fields[..i + 1], fields[i + 1..]);
    assert (l + fields[..i]) + [fields[i]] == l + fields[..i + 1];
    assert (l + fields[..i + 1]) + fields[i + 1..] == l + fields;
  }

  lemma Room(w: nat, i: nat, n: nat)
    requires i < n
    ensures w * i + w <= w * n && w * (i + 1) == w * i + w
  {
  }

  method ReadEach(ghost l: Layout, payload: seq<Byte>, off: nat, row: Row, name: string, c: Code, n: nat) returns (next: nat, more: Row)
    requires At(l, payload, off, row) && off + Width(c) * n <= |payload|
    ensures At(l + Each(name, c, n), payload, next, more) && next == off + Width(c) * n
  {
    next, more := off, row;
    NoMore(l);
    for i := 0 to n
      invariant At(l + Each(name, c, i), payload, next, more) && next == off + Width(c) * i
    {
      Room(Width(c), i, n);
      next, more := ReadField(l + Each(name, c, i), payload, next, more, Numbered(name, i), c);
      Assoc(l, Each(name, c, i), [(Numbered(name, i), c)]);
    }
  }

  method ReadTwo(ghost l: Layout, payload: seq<Byte>, off: nat, row: Row, a: (Column, Code), b: (Column, Code)) returns (next: nat, more: Row)
    requires At(l, payload, off, row) && off + Width(a.1) + Width(b.1) <= |payload|
    ensures At(l + [a, b], payload, next, more) && next == off + Width(a.1) + Width(b.1)
  {
    next, more := ReadField(l, payload, off, row, a.0, a.1);
    next, more := ReadField(l + [a], payload, next, more, b.0, b.1);
    Assoc(l, [a], [b]);
    assert [a] + [b] == [a, b];
  }

  method ReadEachTwo(ghost l: Layout, payload: seq<Byte>, off: nat, row: Row, name: string, c: Code, name': string, c': Code, n: nat, ghost w: nat)
    returns (next: nat, more: Row)
    requires w == Width(c) + Width(c') && At(l, payload, off, row) && off + w * n <= |payload|
    ensures At(l + EachTwo(name, c, name', c', n), payload, next, more) && next == off + w * n
  {
    next, more := off, row;
    NoMore(l);
    for i := 0 to n
      invariant At(l + EachTwo(name, c, name', c', i), payload, next, more) && next == off + w * i
    {
      Room(w, i, n);
      next, more := ReadTwo(l + EachTwo(name, c, name', c', i), payload, next, more, (Numbered(name, i), c), (Numbered(name', i), c'));
      Assoc(l, EachTwo(name, c, name', c', i), [(Numbered(name, i), c), (Numbered(name', i), c')]);
    }
  }

  method ReadGridRow(ghost l: Layout, payload: seq<Byte>, off: nat, row: Row, name: string, c: Code, i: nat, m: nat) returns (next: nat, more: Row)
    requires At(l, payload, off, row) && off + Width(c) * m <= |payload|
    ensures At(l + GridRow(name, c, i, m), payload, next, more) && next == off + Width(c) * m
  {
    next, more := off, row;
    NoMore(l);
    for j := 0 to m
      invariant At(l + GridRow(name, c, i, j), payload, next, more) && next == off + Width(c) * j
    {
      Room(Width(c), j, m);
      next, more := ReadField(l + GridRow(name, c, i, j), payload, next, more, Paired(name, i, j), c);
      Assoc(l, GridRow(name, c, i, j), [(Paired(name, i, j), c)]);
    }
  }

  lemma RowRoom(w: nat, i: nat, n: nat, m: nat)
    requires i < n
    ensures w * (i * m) + w * m == w * ((i + 1) * m) <= w * (n * m)
  {
    Room(m, i, n);
    assert (i + 1) * m <= n * m;
    assert w * (i * m) + w * m == w * (i * m + m);
    if w > 0 {
      assert w * ((i + 1) * m) <= w * (n * m) by { MulMono(w, (i + 1) * m, n * m); }
    }
  }

  method ReadGrid(ghost l: Layout, payload: seq<Byte>, off: nat, row: Row, name: string, c: Code, n: nat, m: nat, ghost cells: nat) returns (next: nat, more: Row)
    requires cells == n * m && At(l, payload, off, row) && off + Width(c) * cells <= |payload|
    ensures At(l + Grid(name, c, n, m), payload, next, more) && next == off + Width(c) * cells
  {
    next, more := off, row;
    NoMore(l);
    for i := 0 to n
      invariant At(l + Grid(name, c, i, m), payload, next, more) && next == off + Width(c) * (i * m)
    {
      RowRoom(Width(c), i, n, m);
      next, more := ReadGridRow(l + Grid(name, c, i, m), payload, next, more, name, c, i, m);
      Assoc(l, Grid(name, c, i, m), GridRow(name, c, i, m));
    }
  }

  /* ---- the decoders: each reads its layout and stops at the end of the payload ---- */

  method DecodeSvrModel(payload: seq<Byte>) returns (row: Row, off: nat)
    requires |payload| == 44
    ensures Bytesize(SvrModel()) == 44 == off && row == RowOf(SvrModel(), payload)
  {
    SvrModelSize();
    AtStart(payload);
    off, row := ReadFields([], payload, 0, [], SvrModel());
    assert [] + SvrModel() == SvrModel();
  }

  method DecodeTerminalModel(payload: seq<Byte>, rails: nat, qos: nat) returns (row: Row, off: nat)
    requires |payload| == 72 + 16 * rails + 8 * (rails * qos)
    ensures Bytesize(TerminalModel(rails, qos)) == |payload| == off && row == RowOf(TerminalModel(rails, qos), payload)
  {
    TerminalModelSize(rails, qos);
    off, row := ReadTerminalRails(payload, rails);
    off, row := ReadTerminalGrids(TerminalRails(rails), payload, off, row, rails, qos, rails * qos);
  }

  method ReadTerminalRails(payload: seq<Byte>, rails: nat) returns (off: nat, row: Row)
    requires |payload| >= 72 + 16 * rails
    ensures At(TerminalRails(rails), payload, off, row) && off == 72 + 16 * rails
  {
    TerminalRailsSize(rails);
    AtStart(payload);
    ghost var l: Layout := TerminalScalars();
    off, row := ReadFields([], payload, 0, [], TerminalScalars());
    NoMore(l);
    off, row := ReadEach(l, payload, off, row, "busy_time_ns_r", F64, rails);
    l := l + Each("busy_time_ns_r", F64, rails);
    off, row := ReadFields(l, payload, off, row, TerminalPackets());
    l := l + TerminalPackets();
    off, row := ReadEach(l, payload, off, row, "stalled_chunks_r", U64, rails);
  }

  method ReadTerminalGrids(ghost l: Layout, payload: seq<Byte>, off: nat, row: Row, rails: nat, qos: nat, ghost cells: nat) returns (next: nat, more: Row)
    requires cells == rails * qos && At(l, payload, off, row) && off + 8 * cells <= |payload|
    ensures At(l + TerminalGrids(rails, qos), payload, next, more) && next == off + 8 * cells
  {
    ghost var a, b := Grid("vc_occupancy_r", I32, rails, qos), Grid("terminal_length_r", I32, rails, qos);
    Assoc(l, a, b);
    next, more := ReadGrid(l, payload, off, row, "vc_occupancy_r", I32, rails, qos, cells);
    next, more := ReadGrid(l + a, payload, next, more, "terminal_length_r", I32, rails, qos, cells);
    assert (l + a) + b == l + TerminalGrids(rails, qos);
  }

  method ReadRouterCounts(ghost l: Layout, payload: seq<Byte>, off: nat, row: Row, radix: nat) returns (next: nat, more: Row)
    requires At(l, payload, off, row) && off + 16 * radix <= |payload|
    ensures At(l + RouterCounts(radix), payload, next, more) && next == off + 16 * radix
  {
    ghost var a, b, c := Each("stalled_chunks_p", U64, radix), Each("vc_occupancy_sum_p", I32, radix), Each("queued_count_p", I32, radix);
    next, more := ReadEach(l, payload, off, row, "stalled_chunks_p", U64, radix);
    next, more := ReadEach(l + a, payload, next, more, "vc_occupancy_sum_p", I32, radix);
    next, more := ReadEach(l + a + b, payload, next, more, "queued_count_p", I32, radix);
    Assoc(l, a, b);
    Assoc(l, a + b, c);
  }

  method DecodeRouterModel(payload: seq<Byte>, radix: nat) returns (row: Row, off: nat)
    requires |payload| == 8 + 32 * radix
    ensures Bytesize(RouterModel(radix)) == |payload| == off && row == RowOf(RouterModel(radix), payload)
  {
    RouterModelSize(radix);
    AtStart(payload);
    ghost var l: Layout := [(Plain("router_id"), U64)];
    off, row := ReadField([], payload, 0, [], Plain("router_id"), U64);
    NoMore(l);
    off, row := ReadEachTwo(l, payload, off, row, "busy_time_ns_p", F64, "link_traffic_p", I64, radix, 16);
    off, row := ReadRouterCounts(l + EachTwo("busy_time_ns_p", F64, "link_traffic_p", I64, radix), payload, off, row, radix);
  }

  method DecodeSvrVt(payload: seq<Byte>) returns (row: Row, off: nat)
    requires |payload| == 72
    ensures Bytesize(SvrVt()) == 72 == off && row == RowOf(SvrVt(), payload)
  {
    SvrVtSize();
    AtStart(payload);
    off, row := ReadFields([], payload, 0, [], SvrVt());
    assert [] + SvrVt() == SvrVt();
  }

  // The pointer slots are skipped, and the arrays read from behind them.
  method DecodeTerminalVt(payload: seq<Byte>, rails: nat, qos: nat) returns (row: Row, off: nat)
    requires |payload| == 128 + 16 * rails + 8 * (rails * qos)
    ensures Bytesize(TerminalVtScalars()) == 96 && Bytesize(TerminalVtArrays(rails, qos)) == |payload| - 128
    ensures off == |payload| && row == RowOf(TerminalVtScalars(), payload) + RowOf(TerminalVtArrays(rails, qos), payload[128..])
  {
    TerminalVtSize(rails, qos);
    AtStart(payload);
    var scalars, arrays: Row;
    off, scalars := ReadFields([], payload, 0, [], TerminalVtScalars());
    assert [] + TerminalVtScalars() == TerminalVtScalars();
    off := 96 + 4 * 8;
    off, arrays := ReadTerminalArrays(payload[off..], rails, qos, rails * qos);
    row, off := scalars + arrays, 128 + off;
  }

  method ReadTerminalArrays(rest: seq<Byte>, rails: nat, qos: nat, ghost cells: nat) returns (off: nat, row: Row)
    requires cells == rails * qos && |rest| == 16 * rails + 8 * cells
    ensures At(TerminalVtArrays(rails, qos), rest, off, row) && off == |rest|
  {
    AtStart(rest);
    ghost var a, b := Each("busy_time_ns_r", F64, rails), Each("stalled_chunks_r", U64, rails);
    off, row := ReadEach([], rest, 0, [], "busy_time_ns_r", F64, rails);
    NoMore(a);
    off, row := ReadEach(a, rest, off, row, "stalled_chunks_r", U64, rails);
    off, row := ReadTerminalGrids(a + b, rest, off, row, rails, qos, cells);
  }

  method DecodeRouterVt(payload: seq<Byte>, radix: nat) returns (row: Row, off: nat)
    requires |payload| == 72 + 32 * radix
    ensures Bytesize(RouterVtScalars()) == 32 && Bytesize(RouterVtArrays(radix)) == |payload| - 72
    ensures off == |payload| && row == RowOf(RouterVtScalars(), payload) + RowOf(RouterVtArrays(radix), payload[72..])
  {
    RouterVtSize(radix);
    AtStart(payload);
    var scalars, arrays: Row;
    off, scalars := ReadFields([], payload, 0, [], RouterVtScalars());
    assert [] + RouterVtScalars() == RouterVtScalars();
    off := 32 + 5 * 8;
    off, arrays := ReadRouterArrays(payload[off..], radix);
    row, off := scalars + arrays, 72 + off;
  }

  method ReadRouterArrays(rest: seq<Byte>, radix: nat) returns (off: nat, row: Row)
    requires |rest| == 32 * radix
    ensures At(RouterVtArrays(radix), rest, off, row) && off == |rest|
  {
    AtStart(rest);
    ghost var a, b := Each("busy_time_ns_p", F64, radix), Each("link_traffic_p", I64, radix);
    off, row := ReadEach([], rest, 0, [], "busy_time_ns_p", F64, radix);
    NoMore(a);
    off, row := ReadEach(a, rest, off, row, "link_traffic_p", I64, radix);
    off, row := ReadRouterCounts(a + b, rest, off, row, radix);
  }

  // What a layout reads from the packed values are the values.
  lemma RowOfPacked(l: Layout, values: seq<int>, more: seq<Byte>)
    requires AllFit(Codes(l), values)
    ensures Bytesize(l) <= |Pack(Codes(l), values) + more| && RowOf(l, Pack(Codes(l), values) + more) == Labelled(l, values)
  {
    UnpackPack(Codes(l), values, more);
  }

  /* ---- the writer ---- */

  // The fields of one collection from a server; `bits` gives the pattern of a double.
  function Values(svrId: int, c: PingPong.Counts, bits: real -> int): seq<int> {
    [svrId, c.pingsSent, c.pingsRecvd, c.pongsSent, c.pongsRecvd, c.bytesSent, bits(c.rttSum), c.rttCount]
  }

  // The fields hold what their C types can.
  ghost predicate InRange(svrId: int, c: PingPong.Counts, bits: real -> int) {
    AllFit(Codes(SvrModel()), Values(svrId, c, bits))
  }

  // memcpy of one field
  method Put(buffer: array<Byte>, index: nat, c: Code, v: int) returns (next: nat)
    requires Fits(c, v) && index + Width(c) <= buffer.Length
    modifies buffer
    ensures next == index + Width(c)
    ensures buffer[..next] == old(buffer[..index]) + Encode(c, v) && buffer[next..] == old(buffer[next..])
  {
    var bytes := Encode(c, v);
    forall k | 0 <= k < Width(c) {
      buffer[index + k] := bytes[k];
    }
    next := index + Width(c);
  }

  // The fields one after the other.
  method PutAll(buffer: array<Byte>, codes: seq<Code>, values: seq<int>)
    requires AllFit(codes, values) && Size(codes) <= buffer.Length
    modifies buffer
    ensures buffer[..Size(codes)] == Pack(codes, values) && buffer[Size(codes)..] == old(buffer[Size(codes)..])
  {
    var index := 0;
    for i := 0 to |codes|
      invariant index == Size(codes[..i]) <= Size(codes)
      invariant buffer[..index] == Pack(codes[..i], values[..i])
      invariant forall k :: index <= k < buffer.Length ==> buffer[k] == old(buffer[k])
    {
      SizePrefix(codes, i);
      PackPrefix(codes, values, i);
      index := Put(buffer, index, codes[i], values[i]);
    }
    assert codes[..|codes|] == codes && values[..|codes|] == values;
  }

  // svr_model_stat_collect into its buffer: what the server hands out, packed.
  method Collect(server: PingPong.Server, buffer: array<Byte>, bits: real -> int)
    requires buffer.Length >= 44 && InRange(server.svrId, server.gvt, bits)
    modifies server`gvt, buffer
    ensures Bytesize(SvrModel()) == 44
    ensures buffer[..44] == Pack(Codes(SvrModel()), old(Values(server.svrId, server.gvt, bits)))
    ensures buffer[44..] == old(buffer[44..])
    ensures server.Snapshot() == PingPong.Collect(old(server.Snapshot())).0
  {
    SvrModelSize();
    var c := server.CollectOut();
    PutAll(buffer, Codes(SvrModel()), Values(server.svrId, c, bits));
  }
}
