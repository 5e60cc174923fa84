/** The two parsers of scripts/parse-ross-model-stats.py: framing, and dispatch of each
    payload to a decoder by its size. */
module StatsParser {
  import opened Bytes
  import opened Options
  import opened Seqs
  import opened StatsFraming
  import opened StatsLoop
  import opened StatsPayloads
  import opened StatsDecoders
  import PingPong

  datatype LpType = Svr | Terminal | RouterLp

  datatype Dispatch = Dispatch(model: map<int, LpType>, vt: map<int, LpType>)

  /* ---- build_dispatch ---- */

  function ModelSize(t: LpType, rails: nat, qos: nat, radix: nat): nat {
    match t
    case Svr => 44
    case Terminal => 72 + 16 * rails + 8 * (rails * qos)
    case RouterLp => 8 + 32 * radix
  }

  function VtSize(t: LpType, rails: nat, qos: nat, radix: nat): nat {
    match t
    case Svr => 72
    case Terminal => 128 + 16 * rails + 8 * (rails * qos)
    case RouterLp => 72 + 32 * radix
  }

  // A later entry of a size takes the place of an earlier one.
  function Entries(svr: int, terminal: int, router: int): map<int, LpType> {
    map[svr := Svr][terminal := Terminal][router := RouterLp]
  }

  // None where FormatError is raised because sizes collide.
  function BuildDispatch(rails: nat, qos: nat, radix: nat): Option<Dispatch> {
    var model := Entries(44, 72 + 16 * rails + 8 * rails * qos, 8 + 32 * radix);
    var vt := Entries(72, 128 + 16 * rails + 8 * rails * qos, 72 + 32 * radix);
    if |model| != 3 || |vt| != 3 then None else Some(Dispatch(model, vt))
  }

  lemma EntriesSize(a: int, b: int, c: int)
    ensures |Entries(a, b, c)| == 3 <==> a != b && b != c && a != c
  {
    var m := Entries(a, b, c);
    assert m.Keys == {a, b, c};
    assert |m| == |m.Keys|;
    if a == b {
      assert {a, b, c} == {a, c};
    } else if b == c || a == c {
      assert {a, b, c} == {a, b};
    }
  }

  lemma EntriesAt(a: int, b: int, c: int, size: int, t: LpType)
    requires a != b && b != c && a != c
    ensures (size in Entries(a, b, c) && Entries(a, b, c)[size] == t) <==> size == match t case Svr => a case Terminal => b case RouterLp => c
  {
  }

  lemma EightCells(rails: nat, qos: nat)
    ensures 8 * rails * qos == 8 * (rails * qos)
  {
  }

  // The sizes collide for some configurations, and for these no dispatch is built.
  lemma CollisionExact(rails: nat, qos: nat, radix: nat)
    ensures BuildDispatch(rails, qos, radix).None?
       <==> radix == 0 || 4 * radix == 8 + 2 * rails + rails * qos || 4 * radix == 7 + 2 * rails + rails * qos
  {
    EightCells(rails, qos);
    EntriesSize(44, 72 + 16 * rails + 8 * rails * qos, 8 + 32 * radix);
    EntriesSize(72, 128 + 16 * rails + 8 * rails * qos, 72 + 32 * radix);
  }

  // For all others it sends each size to the one kind of LP that has it.
  lemma DispatchExact(rails: nat, qos: nat, radix: nat, size: int, t: LpType)
    requires BuildDispatch(rails, qos, radix).Some?
    ensures var d := BuildDispatch(rails, qos, radix).value;
            && ((size in d.model && d.model[size] == t) <==> size == ModelSize(t, rails, qos, radix))
            && ((size in d.vt && d.vt[size] == t) <==> size == VtSize(t, rails, qos, radix))
  {
    var terminal := 8 * rails * qos;
    EightCells(rails, qos);
    EntriesSize(44, 72 + 16 * rails + terminal, 8 + 32 * radix);
    EntriesSize(72, 128 + 16 * rails + terminal, 72 + 32 * radix);
    EntriesAt(44, 72 + 16 * rails + terminal, 8 + 32 * radix, size, t);
    EntriesAt(72, 128 + 16 * rails + terminal, 72 + 32 * radix, size, t);
  }

  /* ---- the parsers ---- */

  datatype Kind = ModelFile | VtFile

  function FormatOf(k: Kind): Format {
    if k.ModelFile? then ModelFormat() else VtFormat()
  }

  lemma FormatOk(k: Kind)
    ensures FormatOf(k).Ok() && Size(FormatOf(k).fields) == 48
    ensures Signed(FormatOf(k).fields[FormatOf(k).sizeAt]) <==> k.VtFile?
  {
    FormatsOk();
  }

  datatype Network = Network(rails: nat, qos: nat, radix: nat)

  function SizeOf(k: Kind, t: LpType, w: Network): nat {
    if k.ModelFile? then ModelSize(t, w.rails, w.qos, w.radix) else VtSize(t, w.rails, w.qos, w.radix)
  }

  // The row that the decoder for t makes of a payload of the size for t.
  function Decoded(k: Kind, t: LpType, w: Network, payload: seq<Byte>): Row
    requires |payload| == SizeOf(k, t, w)
  {
    match t
    case Svr => (
      if k.ModelFile? then SvrModelSize(); RowOf(SvrModel(), payload) else SvrVtSize(); RowOf(SvrVt(), payload))
    case Terminal => (
      if k.ModelFile? then TerminalModelSize(w.rails, w.qos); RowOf(TerminalModel(w.rails, w.qos), payload)
      else
        TerminalVtSize(w.rails, w.qos);
        RowOf(TerminalVtScalars(), payload) + RowOf(TerminalVtArrays(w.rails, w.qos), payload[128..]))
    case RouterLp => (
      if k.ModelFile? then RouterModelSize(w.radix); RowOf(RouterModel(w.radix), payload)
      else
        RouterVtSize(w.radix);
        RowOf(RouterVtScalars(), payload) + RowOf(RouterVtArrays(w.radix), payload[72..]))
  }

  method DecodeAs(k: Kind, t: LpType, w: Network, payload: seq<Byte>) returns (row: Row)
    requires |payload| == SizeOf(k, t, w)
    ensures row == Decoded(k, t, w, payload)
  {
    var off: nat;
    match t
    case Svr =>
      if k.ModelFile? { row, off := DecodeSvrModel(payload); } else { row, off := DecodeSvrVt(payload); }
    case Terminal =>
      if k.ModelFile? { row, off := DecodeTerminalModel(payload, w.rails, w.qos); } else { row, off := DecodeTerminalVt(payload, w.rails, w.qos); }
    case RouterLp =>
      if k.ModelFile? { row, off := DecodeRouterModel(payload, w.radix); } else { row, off := DecodeRouterVt(payload, w.radix); }
  }

  // One line of the output: what the header says, and what the payload does.
  datatype Line = Line(header: seq<int>, row: Row)

  type Rows = map<LpType, seq<Line>>

  datatype Output = Output(rows: Rows, unknown: seq<seq<Byte>>)

  function LinesFor(rows: Rows, t: LpType): seq<Line> {
    if t in rows then rows[t] else []
  }

  // How one file is read: its dispatch sends only sizes for t to the decoder for t.
  datatype Reader = Reader(kind: Kind, network: Network, format: Format, types: map<int, LpType>) {
    ghost predicate Ok() {
      && format.Ok() && Size(format.fields) == 48
      && (forall size :: size in types ==> size == SizeOf(kind, types[size], network))
      && (forall t: LpType :: SizeOf(kind, t, network) in types && types[SizeOf(kind, t, network)] == t)
    }

    // A record as the loops make it: a payload that is decoded has the size for it.
    predicate Readable(r: Record) {
      && |r.header| == |format.fields| && format.sizeAt < |r.header|
      && (r.header[format.sizeAt] in types ==> |r.payload| == r.header[format.sizeAt])
    }

    // What the loop does with one record.
    function Absorb(o: Output, r: Record): Output
      requires Ok() && Readable(r)
    {
      var size := r.header[format.sizeAt];
      if size !in types then o.(unknown := o.unknown + [r.payload])
      else o.(rows := o.rows[types[size] := LinesFor(o.rows, types[size]) + [LineOf(types[size], r)]])
    }

    function LineOf(t: LpType, r: Record): Line
      requires |r.payload| == SizeOf(kind, t, network)
    {
      Line(r.header, Decoded(kind, t, network, r.payload))
    }

    ghost predicate AllReadable(records: seq<Record>) {
      forall i :: 0 <= i < |records| ==> Readable(records[i])
    }

    function AbsorbAll(o: Output, records: seq<Record>): Output
      requires Ok() && AllReadable(records)
    {
      if records == [] then o else Absorb(AbsorbAll(o, records[..|records| - 1]), records[|records| - 1])
    }

    // The records of the size for t, in order and decoded.
    function Lines(t: LpType, records: seq<Record>): seq<Line>
      requires Ok() && AllReadable(records)
    {
      if records == [] then [] else Lines(t, records[..|records| - 1]) + OneLine(t, records[|records| - 1])
    }

    function OneLine(t: LpType, r: Record): seq<Line>
      requires Ok() && Readable(r)
    {
      if r.header[format.sizeAt] == SizeOf(kind, t, network) then [LineOf(t, r)] else []
    }

    // The payloads of all other sizes.
    function Unknown(records: seq<Record>): seq<seq<Byte>>
      requires AllReadable(records)
    {
      if records == [] then [] else Unknown(records[..|records| - 1]) + OneUnknown(records[|records| - 1])
    }

    function OneUnknown(r: Record): seq<seq<Byte>>
      requires Readable(r)
    {
      if forall t: LpType :: r.header[format.sizeAt] != SizeOf(kind, t, network) then [r.payload] else []
    }
  }

  // What the loop collects: each record goes to the one place its size says.
  lemma {:induction false} AbsorbedExact(q: Reader, o: Output, records: seq<Record>, t: LpType)
    requires q.Ok() && q.AllReadable(records)
    ensures LinesFor(q.AbsorbAll(o, records).rows, t) == LinesFor(o.rows, t) + q.Lines(t, records)
    ensures q.AbsorbAll(o, records).unknown == o.unknown + q.Unknown(records)
  {
    if records == [] {
      NoMore(LinesFor(o.rows, t));
      NoMore(o.unknown);
    } else {
      var n, r := |records| - 1, records[|records| - 1];
      AbsorbedExact(q, o, records[..n], t);
      AbsorbedOne(q, q.AbsorbAll(o, records[..n]), r, t);
      Assoc(LinesFor(o.rows, t), q.Lines(t, records[..n]), q.OneLine(t, r));
      Assoc(o.unknown, q.Unknown(records[..n]), q.OneUnknown(r));
    }
  }

  lemma AbsorbedOne(q: Reader, o: Output, r: Record, t: LpType)
    requires q.Ok() && q.Readable(r)
    ensures LinesFor(q.Absorb(o, r).rows, t) == LinesFor(o.rows, t) + q.OneLine(t, r)
    ensures q.Absorb(o, r).unknown == o.unknown + q.OneUnknown(r)
  {
    NoMore(LinesFor(o.rows, t));
    NoMore(o.unknown);
  }

  lemma AbsorbSnoc(q: Reader, o: Output, done: seq<Record>, r: Record)
    requires q.Ok() && q.AllReadable(done) && q.Readable(r)
    ensures q.AllReadable(done + [r]) && q.AbsorbAll(o, done + [r]) == q.Absorb(q.AbsorbAll(o, done), r)
  {
    assert (done + [r])[..|done|] == done;
  }

  // What the loop has done by the time it is at off.
  ghost predicate Progress(q: Reader, data: seq<Byte>, start: Output, done: seq<Record>, off: nat, out: Output) {
    && q.Ok() && off <= |data| && Reading(q.format, data, done, data[off..])
    && q.AllReadable(done) && out == q.AbsorbAll(start, done)
  }

  lemma ProgressStart(q: Reader, data: seq<Byte>, start: Output)
    requires q.Ok()
    ensures Progress(q, data, start, [], 0, start)
  {
    assert data[0..] == data;
    NoMore(Scan(q.format, data).records);
  }

  lemma ProgressMore(q: Reader, data: seq<Byte>, start: Output, done: seq<Record>, off: nat, out: Output)
    requires Progress(q, data, start, done, off, out) && off < |data| && TurnAt(q.format, data[off..]).Read?
    ensures var turn := TurnAt(q.format, data[off..]);
            && turn.next > 0 && q.Readable(turn.record)
            && Progress(q, data, start, done + [turn.record], off + turn.next, q.Absorb(out, turn.record))
  {
    var turn := TurnAt(q.format, data[off..]);
    ScanTurn(q.format, data[off..]);
    ReadingMore(q.format, data, done, data[off..], turn.record, turn.next);
    assert data[off..][turn.next..] == data[off + turn.next..];
    AbsorbSnoc(q, start, done, turn.record);
  }

  // When the loop stops at off.
  lemma ProgressEnds(q: Reader, data: seq<Byte>, start: Output, done: seq<Record>, off: nat, out: Output)
    requires Progress(q, data, start, done, off, out)
    requires off == |data| || TurnAt(q.format, data[off..]).Stop?
    ensures Scan(q.format, data) == Scanned(done, if off == |data| then Complete else TurnAt(q.format, data[off..]).status)
  {
    if off < |data| {
      ScanTurn(q.format, data[off..]);
    }
    ReadingEnds(q.format, data, done, data[off..]);
  }

  // The reader of each kind of file, once build_dispatch has succeeded.
  function ReaderOf(k: Kind, w: Network, d: Dispatch): Reader {
    Reader(k, w, FormatOf(k), if k.ModelFile? then d.model else d.vt)
  }

  lemma ReaderOk(k: Kind, w: Network, d: Dispatch)
    requires BuildDispatch(w.rails, w.qos, w.radix) == Some(d)
    ensures ReaderOf(k, w, d).Ok()
  {
    FormatOk(k);
    var q := ReaderOf(k, w, d);
    forall size | size in q.types ensures size == SizeOf(k, q.types[size], w) {
      DispatchExact(w.rails, w.qos, w.radix, size, q.types[size]);
    }
    forall t: LpType ensures SizeOf(k, t, w) in q.types && q.types[SizeOf(k, t, w)] == t {
      DispatchExact(w.rails, w.qos, w.radix, SizeOf(k, t, w), t);
    }
  }

  // The bytes that the decoder of a payload reads; without rails the decoder of the
  // virtual-time terminal sample does not come to the end.
  function BytesRead(k: Kind, t: LpType, w: Network): nat {
    if k.VtFile? && t.Terminal? && w.rails == 0 then 96 else SizeOf(k, t, w)
  }

  // What the loop of the parser runs on.
  function LoopOf(q: Reader, data: seq<Byte>): Input {
    Input(q.format, map size | size in q.types :: BytesRead(q.kind, q.types[size], q.network), data)
  }

  lemma LoopOk(q: Reader, data: seq<Byte>)
    requires q.Ok()
    ensures LoopOf(q, data).Ok()
  {
  }

  // How the original loop fares: it ends as said, or it comes to a record that it does
  // not get past.
  ghost predicate Fares(q: Reader, data: seq<Byte>, n: nat, status: Status)
    requires q.Ok()
  {
    LoopOk(q, data);
    var z := LoopOf(q, data);
    && (status != NoProgress ==> z.After(n + 1) == Done(EndOf(status)))
    && (status == NoProgress ==> z.After(n).At? && z.Blocks(z.After(n).off))
  }

  lemma ScanFares(q: Reader, data: seq<Byte>, s: Scanned)
    requires q.Ok() && s == Scan(q.format, data)
    ensures Fares(q, data, |s.records|, s.status)
  {
    LoopOk(q, data);
    LoopIsScan(LoopOf(q, data));
  }

  // A payload that is taken from the data is whole, or so short that its decoder raises
  // an exception.
  lemma WholeOrShort(z: Input, off: int, size: nat)
    requires z.HasHead(off) && size <= |z.data| - (off + z.Head())
    ensures var n := |z.Slice(off + z.Head(), off + z.Head() + size)|; n == size || n == 0 || n + z.Head() <= size
  {
  }

  lemma DecodedIsWhole(q: Reader, data: seq<Byte>, off: int)
    requires q.Ok() && LoopOf(q, data).Turn(off).At?
    ensures LoopOf(q, data).HasHead(off) && q.Readable(LoopOf(q, data).RecordAt(off))
  {
    var z := LoopOf(q, data);
    var size := z.HeaderAt(off)[q.format.sizeAt];
    if size in q.types {
      SizeOfRead(q.kind, q.types[size], q.network);
      WholeOrShort(z, off, size);
      assert size in z.needs && z.needs[size] == BytesRead(q.kind, q.types[size], q.network);
    }
  }

  lemma SizeOfRead(k: Kind, t: LpType, w: Network)
    ensures SizeOf(k, t, w) - 48 < BytesRead(k, t, w) && BytesRead(k, t, w) > 0
  {
  }

  lemma {:induction false} TakenReadable(q: Reader, data: seq<Byte>, n: nat)
    requires q.Ok()
    ensures q.AllReadable(LoopOf(q, data).Taken(n))
  {
    var z := LoopOf(q, data);
    if n > 0 {
      TakenReadable(q, data, n - 1);
      var p := z.After(n - 1);
      if p.At? && z.Turn(p.off).At? {
        DecodedIsWhole(q, data, p.off);
      }
    }
  }

  class Parser {
    var out: Output

    constructor ()
      ensures out == Output(map[], [])
    {
      out := Output(map[], []);
    }

    method Take(q: Reader, r: Record)
      requires q.Ok() && q.Readable(r)
      modifies this
      ensures out == q.Absorb(old(out), r)
    {
      var size := r.header[q.format.sizeAt];
      if size !in q.types {
        out := out.(unknown := out.unknown + [r.payload]);
      } else {
        var t := q.types[size];
        var row := DecodeAs(q.kind, t, q.network, r.payload);
        out := out.(rows := out.rows[t := LinesFor(out.rows, t) + [Line(r.header, row)]]);
      }
    }

    // The checks of a loop at off, and the record if they pass.
    method ReadTurn(q: Reader, data: seq<Byte>, off: nat) returns (turn: Turn)
      requires q.Ok() && off < |data|
      ensures turn == TurnAt(q.format, data[off..])
    {
      if |data| - off < 48 {
        return Stop(FormatError);
      }
      var header := Unpack(q.format.fields, data[off..]);
      var size := header[q.format.sizeAt];
      if !Framed(q.format, header) || |data| - off - 48 < size {
        return Stop(FormatError);
      }
      if 48 + size <= 0 {
        return Stop(NoProgress);
      }
      var payload := if size >= 0 then data[off + 48..off + 48 + size] else [];
      assert size >= 0 ==> payload == data[off..][48..48 + size];
      turn := Read(Record(header, payload), 48 + size);
    }

    // The checks of the loop of parse_vt_file at any offset, also in front of the data, and
    // the record if they pass.
    method ReadAt(q: Reader, data: seq<Byte>, off: int) returns (pos: Position, r: Record)
      requires q.Ok()
      ensures pos == LoopOf(q, data).Turn(off)
      ensures pos.At? ==> LoopOf(q, data).HasHead(off) && r == LoopOf(q, data).RecordAt(off)
    {
      r := Record([], []);
      if off >= |data| {
        return Done(Finished), r;
      }
      if |data| - off < 48 {
        return Done(BadFormat), r;
      }
      if off < 0 && (off + 48 > 0 || off + |data| < 0) {
        return Done(StructError), r;
      }
      var header := Unpack(q.format.fields, data[if off < 0 then off + |data| else off..]);
      if !Framed(q.format, header) {
        return Done(BadFormat), r;
      }
      pos, r := ReadPayload(q, data, off + 48, header);
    }

    method ReadPayload(q: Reader, data: seq<Byte>, body: int, header: seq<int>) returns (pos: Position, r: Record)
      requires q.Ok() && |header| == |q.format.fields|
      ensures pos == LoopOf(q, data).TakePayload(body, header[q.format.sizeAt])
      ensures pos.At? ==> r == Record(header, PythonSlice(data, body, body + header[q.format.sizeAt]))
    {
      var size := header[q.format.sizeAt];
      r := Record([], []);
      if |data| - body < size {
        return Done(BadFormat), r;
      }
      var payload := PythonSlice(data, body, body + size);
      if size in q.types && |payload| < BytesRead(q.kind, q.types[size], q.network) {
        return Done(StructError), r;
      }
      return At(body + size), Record(header, payload);
    }

    // One turn of it.
    method TakeTurn(q: Reader, data: seq<Byte>, off: int) returns (pos: Position)
      requires q.Ok()
      modifies this
      ensures pos == LoopOf(q, data).Turn(off)
      ensures pos.At? ==> LoopOf(q, data).HasHead(off) && q.Readable(LoopOf(q, data).RecordAt(off))
      ensures out == if pos.At? then q.Absorb(old(out), LoopOf(q, data).RecordAt(off)) else old(out)
    {
      var r;
      pos, r := ReadAt(q, data, off);
      if pos.At? {
        DecodedIsWhole(q, data, off);
        Take(q, r);
      }
    }

    // The loop of parse_vt_file for so many turns, or until it ends.
    method ParseTurns(q: Reader, data: seq<Byte>, turns: nat) returns (pos: Position)
      requires q.Ok()
      modifies this
      ensures pos == LoopOf(q, data).After(turns)
      ensures q.AllReadable(LoopOf(q, data).Taken(turns)) && out == q.AbsorbAll(old(out), LoopOf(q, data).Taken(turns))
    {
      ghost var z, start := LoopOf(q, data), out;
      LoopOk(q, data);
      pos := At(0);
      for k := 0 to turns
        invariant pos == z.After(k) && q.AllReadable(z.Taken(k)) && out == q.AbsorbAll(start, z.Taken(k))
      {
        TakenReadable(q, data, k + 1);
        if pos.At? {
          var off := pos.off;
          pos := TakeTurn(q, data, off);
          if pos.At? {
            AbsorbSnoc(q, start, z.Taken(k), z.RecordAt(off));
          } else {
            NoMore(z.Taken(k));
          }
        } else {
          NoMore(z.Taken(k));
        }
      }
    }

    // What the loop does with a record that passes the checks.
    method TakeRead(q: Reader, data: seq<Byte>, ghost off: nat, turn: Turn, ghost start: Output, ghost done: seq<Record>)
      requires Progress(q, data, start, done, off, out) && off < |data| && turn.Read? && turn == TurnAt(q.format, data[off..])
      modifies this
      ensures turn.next > 0 && Progress(q, data, start, done + [turn.record], off + turn.next, out)
    {
      ProgressMore(q, data, start, done, off, out);
      Take(q, turn.record);
    }

    // The loop, up to a record that it does not get past.
    method ReadAll(q: Reader, data: seq<Byte>) returns (n: nat, status: Status, ghost done: seq<Record>)
      requires q.Ok()
      modifies this
      ensures Scan(q.format, data) == Scanned(done, status) && n == |done|
      ensures q.AllReadable(done) && out == q.AbsorbAll(old(out), done)
    {
      var off := 0;
      n, status, done := 0, Complete, [];
      ghost var start := out;
      ProgressStart(q, data, start);
      while off < |data|
        invariant Progress(q, data, start, done, off, out) && n == |done|
        decreases |data| - off
      {
        var turn := ReadTurn(q, data, off);
        if turn.Stop? {
          ProgressEnds(q, data, start, done, off, out);
          return n, turn.status, done;
        }
        TakeRead(q, data, off, turn, start, done);
        off, n, done := off + turn.next, n + 1, done + [turn.record];
      }
      ProgressEnds(q, data, start, done, off, out);
    }

    // parse_model_file and parse_vt_file: the number of records, and how the loop ended;
    // this one stops at a record that the loop does not get past.
    method Parse(q: Reader, data: seq<Byte>) returns (n: nat, status: Status)
      requires q.Ok()
      modifies this
      ensures status == Scan(q.format, data).status && n == |Scan(q.format, data).records|
      ensures q.AllReadable(Scan(q.format, data).records)
      ensures out == q.AbsorbAll(old(out), Scan(q.format, data).records)
      ensures Fares(q, data, n, status)
    {
      ghost var done;
      n, status, done := ReadAll(q, data);
      ScanFares(q, data, Scanned(done, status));
    }
  }

  /* ---- from the simulation to the table ---- */

  // A file of records as they are written is read to its end, and gives for each kind of
  // LP the lines of its records in their order.
  lemma WrittenIsParsed(k: Kind, w: Network, d: Dispatch, records: seq<Record>, t: LpType)
    requires BuildDispatch(w.rails, w.qos, w.radix) == Some(d) && FormatOf(k).Ok() && AllValid(FormatOf(k), records)
    ensures var q, data := ReaderOf(k, w, d), File(FormatOf(k), records);
            && q.Ok() && q.AllReadable(records)
            && Scan(q.format, data) == Scanned(records, Complete)
            && LinesFor(q.AbsorbAll(Output(map[], []), records).rows, t) == q.Lines(t, records)
  {
    var q := ReaderOf(k, w, d);
    ReaderOk(k, w, d);
    RoundTrip(q.format, records);
    forall i | 0 <= i < |records| ensures q.Readable(records[i]) {
      assert Valid(q.format, records[i]);
    }
    AbsorbedExact(q, Output(map[], []), records, t);
    NoMore(q.Lines(t, records));
  }

  // What the server's callback writes into a payload is what the table shows.
  lemma CollectedIsShown(w: Network, d: Dispatch, r: Record, svrId: int, c: PingPong.Counts, bits: real -> int)
    requires BuildDispatch(w.rails, w.qos, w.radix) == Some(d) && ModelFormat().Ok() && Valid(ModelFormat(), r)
    requires InRange(svrId, c, bits) && r.payload == Pack(Codes(SvrModel()), Values(svrId, c, bits))
    ensures var q := ReaderOf(ModelFile, w, d);
            q.Ok() && q.Readable(r) && q.OneLine(Svr, r) == [Line(r.header, Labelled(SvrModel(), Values(svrId, c, bits)))]
  {
    ReaderOk(ModelFile, w, d);
    SvrModelSize();
    RowOfPacked(SvrModel(), Values(svrId, c, bits), []);
    NoMore(r.payload);
  }

  /* ---- virtual-time files that are never read to their end ---- */

  // A framed header with the given length, and there are such headers.
  ghost predicate HeaderOfLength(header: seq<int>, size: int) {
    AllFit(VtFormat().fields, header) && VtFormat().Ok() && Framed(VtFormat(), header) && header[5] == size
  }

  function SomeHeader(size: int): seq<int> {
    [0, 0, 0, 0, 0, size, MODEL_TYPE_FLAG]
  }

  lemma HeaderExists(size: int)
    requires Fits(I32, size)
    ensures HeaderOfLength(SomeHeader(size), size)
  {
    FormatsOk();
    var f, h := VtFormat().fields, SomeHeader(size);
    assert Fits(f[0], h[0]) && Fits(f[1], h[1]) && Fits(f[2], h[2]) && Fits(f[3], h[3]);
    assert Fits(f[4], h[4]) && Fits(f[5], h[5]) && Fits(f[6], h[6]);
  }

  lemma FirstHeader(z: Input, header: seq<int>, size: int, more: seq<Byte>)
    requires HeaderOfLength(header, size) && z.format == VtFormat() && z.data == Pack(VtFormat().fields, header) + more
    ensures z.format.Ok() && z.Head() == 48 && z.HasHead(0) && z.HeaderAt(0) == header
  {
    FormatsOk();
    UnpackPack(VtFormat().fields, header, more);
    assert z.data[0..] == z.data;
  }

  // A record that Parse stops at, behind any others, and the length -48: the loop stays
  // there, and before the end of the data, for ever.
  lemma StuckForever(q: Reader, data: seq<Byte>, m: nat)
    requires q.Ok() && Scan(q.format, data).status == NoProgress
    ensures var z, n := LoopOf(q, data), |Scan(q.format, data).records|;
            && z.After(n).At? && z.Blocks(z.After(n).off)
            && (z.HeaderAt(z.After(n).off)[q.format.sizeAt] == -48 ==>
                 z.After(m).At? && z.After(m).off < |data| && (n <= m ==> z.After(m) == z.After(n)))
  {
    var z, n := LoopOf(q, data), |Scan(q.format, data).records|;
    LoopOk(q, data);
    LoopIsScan(z);
    if z.HeaderAt(z.After(n).off)[q.format.sizeAt] == -48 {
      assert LeadsBack(z, n, n);
      BlockedForever(z, n, n, m);
      if n <= m {
        StaysPut(z, n, m);
      }
    }
  }

  // A header alone is taken again and again exactly when its length is -48.
  lemma StuckExact(q: Reader, header: seq<int>, size: int)
    requires q.Ok() && q.format == VtFormat() && HeaderOfLength(header, size) && size <= -48
    ensures LoopOf(q, Pack(VtFormat().fields, header)).RunsForever() <==> size == -48
  {
    var z := LoopOf(q, Pack(VtFormat().fields, header));
    LoopOk(q, z.data);
    NoMore(z.data);
    FirstHeader(z, header, size, []);
    SingleHeader(z);
  }

  // So there is a file of 48 bytes that is never read to its end, and one that ends in an
  // exception.
  lemma StuckFiles(q: Reader)
    requires q.Ok() && q.format == VtFormat()
    ensures HeaderOfLength(SomeHeader(-48), -48) && HeaderOfLength(SomeHeader(-49), -49)
    ensures LoopOf(q, Pack(VtFormat().fields, SomeHeader(-48))).RunsForever()
    ensures !LoopOf(q, Pack(VtFormat().fields, SomeHeader(-49))).RunsForever()
  {
    HeaderExists(-48);
    HeaderExists(-49);
    StuckExact(q, SomeHeader(-48), -48);
    StuckExact(q, SomeHeader(-49), -49);
  }

  // A second header with the length -96 sends the loop back to the first.
  lemma BackAndForth(q: Reader, first: seq<int>, second: seq<int>, n: nat)
    requires q.Ok() && q.format == VtFormat() && HeaderOfLength(first, 0) && HeaderOfLength(second, -96)
    ensures LoopOf(q, Pack(VtFormat().fields, first) + Pack(VtFormat().fields, second)).After(n).At?
  {
    var f := VtFormat().fields;
    var z := LoopOf(q, Pack(f, first) + Pack(f, second));
    LoopOk(q, z.data);
    FormatsOk();
    FirstHeader(z, first, 0, Pack(f, second));
    TurnOn(z, 0);
    assert z.After(0) == At(0) && z.After(1) == z.Next(z.After(0));
    NoMore(Pack(f, second));
    UnpackPack(f, second, []);
    assert z.data[48..] == Pack(f, second);
    assert LeadsBack(z, 1, 0);
    BlockedForever(z, 1, 0, n);
  }
}
