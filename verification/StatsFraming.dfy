/** The framing of the two statistics files that scripts/parse-ross-model-stats.py reads:
    records of a fixed header and a payload whose length the header gives. */
module StatsFraming {
  import opened Bytes
  import opened Seqs

  // The fields of a header, the values that some of them must have, and the field that
  // gives the length of the payload.
  datatype Format = Format(fields: seq<Code>, fixed: seq<(nat, int)>, sizeAt: nat) {
    ghost predicate Ok() {
      && sizeAt < |fields| && Size(fields) > 0
      && forall i :: 0 <= i < |fixed| ==> fixed[i].0 < |fields|
    }
  }

  const MODEL_TYPE_FLAG := 3
  const MODEL_METADATA_SIZE := 24

  // SAMPLE_METADATA followed by MODEL_METADATA
  function ModelFormat(): Format {
    Format([I32, I32] + [F64, F64] + [U32, U32, U32, F32, I32, U32], [(0, MODEL_TYPE_FLAG), (1, MODEL_METADATA_SIZE)], 9)
  }

  // LP_METADATA
  function VtFormat(): Format {
    Format([U64, U64, U64, F64, F64] + [I32, I32], [(6, MODEL_TYPE_FLAG)], 5)
  }

  // Both headers take 48 bytes; the length is signed only in the virtual-time file.
  lemma FormatsOk()
    ensures ModelFormat().Ok() && Size(ModelFormat().fields) == 48 && !Signed(ModelFormat().fields[9])
    ensures VtFormat().Ok() && Size(VtFormat().fields) == 48 && Signed(VtFormat().fields[5])
  {
    UniformWidth([I32, I32], 4);
    UniformWidth([F64, F64], 8);
    UniformWidth([U32, U32, U32, F32, I32, U32], 4);
    UniformWidth([U64, U64, U64, F64, F64], 8);
    SizeConcat([I32, I32], [F64, F64]);
    SizeConcat([I32, I32] + [F64, F64], [U32, U32, U32, F32, I32, U32]);
    SizeConcat([U64, U64, U64, F64, F64], [I32, I32]);
  }

  // The header has the values it must have.
  predicate Framed(f: Format, header: seq<int>)
    requires f.Ok() && |header| == |f.fields|
  {
    forall i :: 0 <= i < |f.fixed| ==> header[f.fixed[i].0] == f.fixed[i].1
  }

  datatype Record = Record(header: seq<int>, payload: seq<Byte>)

  // A record as the collecting side writes it.
  ghost predicate Valid(f: Format, r: Record)
    requires f.Ok()
  {
    AllFit(f.fields, r.header) && Framed(f, r.header) && r.header[f.sizeAt] == |r.payload|
  }

  ghost predicate AllValid(f: Format, records: seq<Record>)
    requires f.Ok()
  {
    forall i :: 0 <= i < |records| ==> Valid(f, records[i])
  }

  function Written(f: Format, r: Record): (s: seq<Byte>)
    requires AllFit(f.fields, r.header)
    ensures |s| == Size(f.fields) + |r.payload|
  {
    Pack(f.fields, r.header) + r.payload
  }

  function File(f: Format, records: seq<Record>): seq<Byte>
    requires f.Ok() && AllValid(f, records)
  {
    if records == [] then [] else Written(f, records[0]) + File(f, records[1..])
  }

  /* ---- what the loops of the parser do ---- */

  // NoProgress: the signed length of a virtual-time record can be so far below zero
  // that the loop does not get past the record.
  datatype Status = Complete | FormatError | NoProgress

  datatype Scanned = Scanned(records: seq<Record>, status: Status)

  // The loop from the first byte of `rest` on.  A negative length takes the empty
  // payload and steps back by that many bytes.
  function Scan(f: Format, rest: seq<Byte>): (r: Scanned)
    requires f.Ok()
    decreases |rest|
  {
    if rest == [] then Scanned([], Complete)
    else if |rest| < Size(f.fields) then Scanned([], FormatError)
    else
      var header := Unpack(f.fields, rest);
      var size, next := header[f.sizeAt], Size(f.fields) + header[f.sizeAt];
      if !Framed(f, header) || |rest| - Size(f.fields) < size then Scanned([], FormatError)
      else if next <= 0 then Scanned([], NoProgress)
      else
        var payload := if size >= 0 then rest[Size(f.fields)..next] else [];
        var more := Scan(f, rest[next..]);
        Scanned([Record(header, payload)] + more.records, more.status)
  }

  // With an unsigned length, as in the model file, the loop ends on every byte string.
  lemma {:induction false} UnsignedProgresses(f: Format, rest: seq<Byte>)
    requires f.Ok() && !Signed(f.fields[f.sizeAt])
    ensures Scan(f, rest).status != NoProgress
    ensures forall i :: 0 <= i < |Scan(f, rest).records| ==> ReadsForward(f, Scan(f, rest).records[i])
    decreases |rest|
  {
    if |rest| >= Size(f.fields) {
      UnsignedSize(f, rest);
      var header := Unpack(f.fields, rest);
      if Framed(f, header) && header[f.sizeAt] <= |rest| - Size(f.fields) {
        UnsignedProgresses(f, rest[Size(f.fields) + header[f.sizeAt]..]);
      }
    }
  }

  // Each record that is read has the payload its header says, or none for a length below
  // zero.
  lemma {:induction false} ScannedSizes(f: Format, rest: seq<Byte>, i: nat)
    requires f.Ok() && i < |Scan(f, rest).records|
    ensures var r := Scan(f, rest).records[i];
            && |r.header| == |f.fields| && Framed(f, r.header)
            && |r.payload| == if r.header[f.sizeAt] >= 0 then r.header[f.sizeAt] else 0
    decreases |rest|
  {
    var next := Size(f.fields) + Unpack(f.fields, rest)[f.sizeAt];
    if i > 0 {
      ScannedSizes(f, rest[next..], i - 1);
      assert Scan(f, rest).records[i] == Scan(f, rest[next..]).records[i - 1];
    }
  }

  lemma {:induction false} UnsignedSize(f: Format, rest: seq<Byte>)
    requires f.Ok() && !Signed(f.fields[f.sizeAt]) && |rest| >= Size(f.fields)
    ensures Unpack(f.fields, rest)[f.sizeAt] >= 0
  {
    PackUnpack(f.fields, rest);
    assert Fits(f.fields[f.sizeAt], Unpack(f.fields, rest)[f.sizeAt]);
  }

  predicate ReadsForward(f: Format, r: Record) {
    |r.header| == |f.fields| && f.sizeAt < |r.header| && r.header[f.sizeAt] >= 0
  }

  /* ---- one record ---- */

  lemma HeaderOf(f: Format, r: Record, more: seq<Byte>)
    requires AllFit(f.fields, r.header)
    ensures Unpack(f.fields, Written(f, r) + more) == r.header
  {
    UnpackPack(f.fields, r.header, r.payload + more);
    assert Written(f, r) + more == Pack(f.fields, r.header) + (r.payload + more);
  }

  // A whole record at the front is read, and the loop goes on behind it.
  lemma ScanWhole(f: Format, r: Record, more: seq<Byte>)
    requires f.Ok() && Valid(f, r)
    ensures var s := Scan(f, more); Scan(f, Written(f, r) + more) == Scanned([r] + s.records, s.status)
  {
    var rest := Written(f, r) + more;
    HeaderOf(f, r, more);
    assert rest[Size(f.fields)..Size(f.fields) + |r.payload|] == r.payload;
    assert rest[Size(f.fields) + |r.payload|..] == more;
  }

  // A record cut short is refused.
  lemma ScanPart(f: Format, r: Record, m: nat)
    requires f.Ok() && Valid(f, r) && 0 < m < |Written(f, r)|
    ensures Scan(f, Written(f, r)[..m]) == Scanned([], FormatError)
  {
    var part := Written(f, r)[..m];
    if m >= Size(f.fields) {
      var start := r.payload[..m - Size(f.fields)];
      assert part == Pack(f.fields, r.header) + start;
      UnpackPack(f.fields, r.header, start);
    }
  }

  /* ---- the two layouts, spelled out ---- */

  // sample_metadata and model_metadata: flag, sample_sz, ts, real_time, then peid, kpid,
  // lpid, gvt, stats_type and model_sz.  A record whose flag is 3 and whose sample_sz is
  // 24 is taken with the payload that model_sz says, and the loop goes on behind it; with
  // any other value of these two it is an error, and so is a payload that is cut short.
  lemma ModelRecord(v: seq<int>, rest: seq<Byte>)
    requires AllFit([I32, I32, F64, F64, U32, U32, U32, F32, I32, U32], v)
    ensures ModelFormat().Ok() && v[9] >= 0
    ensures var s := Scan(ModelFormat(), Pack([I32, I32, F64, F64, U32, U32, U32, F32, I32, U32], v) + rest);
            if v[0] == 3 && v[1] == 24 && v[9] <= |rest|
            then var more := Scan(ModelFormat(), rest[v[9]..]); s == Scanned([Record(v, rest[..v[9]])] + more.records, more.status)
            else s == Scanned([], FormatError)
  {
    FormatsOk();
    var f := ModelFormat();
    assert f.fields == [I32, I32, F64, F64, U32, U32, U32, F32, I32, U32];
    assert Fits(f.fields[9], v[9]);
    assert f.fixed[0] == (0, 3) && f.fixed[1] == (1, 24);
    assert Framed(f, v) <==> v[0] == 3 && v[1] == 24;
    PackedThenRest(f.fields, v, rest);
    var data := Pack(f.fields, v) + rest;
    TurnFails(f, v, data);
    if v[0] == 3 && v[1] == 24 && v[9] <= |rest| {
      TurnReads(f, v, data, 48 + v[9]);
      CutTwice(data, 48, v[9]);
    }
  }

  // lp_metadata: lpid, kpid, peid, ts, real_time, sample_sz and the flag.  The length may
  // be negative here; the loop then takes no payload and steps back by that many bytes.
  lemma VtRecord(v: seq<int>, rest: seq<Byte>)
    requires AllFit([U64, U64, U64, F64, F64, I32, I32], v)
    ensures VtFormat().Ok()
    ensures var data := Pack([U64, U64, U64, F64, F64, I32, I32], v) + rest;
            && |data| == 48 + |rest|
            && Scan(VtFormat(), data) ==
                 if v[6] != 3 || v[5] > |rest| then Scanned([], FormatError)
                 else if v[5] <= -48 then Scanned([], NoProgress)
                 else var more := Scan(VtFormat(), data[48 + v[5]..]);
                      Scanned([Record(v, if v[5] >= 0 then rest[..v[5]] else [])] + more.records, more.status)
  {
    FormatsOk();
    var f := VtFormat();
    assert f.fields == [U64, U64, U64, F64, F64, I32, I32];
    assert f.fixed[0] == (6, 3);
    assert Framed(f, v) <==> v[6] == 3;
    PackedThenRest(f.fields, v, rest);
    var data := Pack(f.fields, v) + rest;
    TurnFails(f, v, data);
    if v[6] == 3 && -48 < v[5] <= |rest| {
      TurnReads(f, v, data, 48 + v[5]);
      if v[5] >= 0 {
        CutTwice(data, 48, v[5]);
      }
    }
  }

  // And the bytes that field i is read from.
  lemma {:induction false} ModelHeaderBytes(s: seq<Byte>, i: nat)
    requires |s| >= 48 && i < 10
    ensures var f, at := [I32, I32, F64, F64, U32, U32, U32, F32, I32, U32], [0, 4, 8, 16, 24, 28, 32, 36, 40, 44, 48];
            Size(f) == 48 && at[i + 1] == at[i] + Width(f[i]) && Unpack(f, s)[i] == Decode(f[i], s[at[i]..at[i + 1]])
  {
    var f, at := [I32, I32, F64, F64, U32, U32, U32, F32, I32, U32], [0, 4, 8, 16, 24, 28, 32, 36, 40, 44, 48];
    assert Begins(f, at);
    Offsets(f, at);
    AtOffset(f, at, s, i);
  }

  lemma {:induction false} VtHeaderBytes(s: seq<Byte>, i: nat)
    requires |s| >= 48 && i < 7
    ensures var f, at := [U64, U64, U64, F64, F64, I32, I32], [0, 8, 16, 24, 32, 40, 44, 48];
            Size(f) == 48 && at[i + 1] == at[i] + Width(f[i]) && Unpack(f, s)[i] == Decode(f[i], s[at[i]..at[i + 1]])
  {
    var f, at := [U64, U64, U64, F64, F64, I32, I32], [0, 8, 16, 24, 32, 40, 44, 48];
    assert Begins(f, at);
    Offsets(f, at);
    AtOffset(f, at, s, i);
  }

  // The loop at a header v that does not get on.
  lemma {:induction false} TurnFails(f: Format, v: seq<int>, data: seq<Byte>)
    requires f.Ok() && Size(f.fields) <= |data| && v == Unpack(f.fields, data)
    ensures !Framed(f, v) || v[f.sizeAt] > |data| - Size(f.fields) ==> Scan(f, data) == Scanned([], FormatError)
    ensures Framed(f, v) && Size(f.fields) + v[f.sizeAt] <= 0 ==> Scan(f, data) == Scanned([], NoProgress)
  {
  }

  // One that does.
  lemma {:induction false} TurnReads(f: Format, v: seq<int>, data: seq<Byte>, next: nat)
    requires f.Ok() && Size(f.fields) <= |data| && v == Unpack(f.fields, data)
    requires Framed(f, v) && 0 < next <= |data| && next == Size(f.fields) + v[f.sizeAt]
    ensures var more := Scan(f, data[next..]);
            Scan(f, data) == Scanned([Record(v, if next >= Size(f.fields) then data[Size(f.fields)..next] else [])] + more.records, more.status)
  {
  }

  lemma CutTwice(s: seq<Byte>, n: nat, m: nat)
    requires n + m <= |s|
    ensures s[n..][..m] == s[n..n + m] && s[n..][m..] == s[n + m..]
  {
  }

  lemma PackedThenRest(fmt: seq<Code>, v: seq<int>, rest: seq<Byte>)
    requires AllFit(fmt, v)
    ensures var data := Pack(fmt, v) + rest; Unpack(fmt, data) == v && data[Size(fmt)..] == rest
  {
    UnpackPack(fmt, v, rest);
  }

  /* ---- whole files ---- */

  // What was written is read back, in order.
  lemma {:induction false} RoundTrip(f: Format, records: seq<Record>)
    requires f.Ok() && AllValid(f, records)
    ensures Scan(f, File(f, records)) == Scanned(records, Complete)
  {
    if records != [] {
      var r, tail := records[0], records[1..];
      RoundTrip(f, tail);
      ScanWhole(f, r, File(f, tail));
      HeadTail(records);
    }
  }

  // Only what can be written is accepted: the bytes of an accepted file without negative
  // lengths are those of the records that were read.
  lemma {:induction false} AcceptedIsWritten(f: Format, rest: seq<Byte>)
    requires f.Ok() && Scan(f, rest).status.Complete?
    requires forall i :: 0 <= i < |Scan(f, rest).records| ==> ReadsForward(f, Scan(f, rest).records[i])
    ensures AllValid(f, Scan(f, rest).records) && rest == File(f, Scan(f, rest).records)
    decreases |rest|
  {
    if rest != [] {
      var header, records := Unpack(f.fields, rest), Scan(f, rest).records;
      assert records[0].header == header && ReadsForward(f, records[0]);
      var next := Size(f.fields) + header[f.sizeAt];
      var tail := Scan(f, rest[next..]).records;
      assert forall i :: 0 <= i < |tail| ==> tail[i] == records[i + 1];
      assert forall i :: 0 <= i < |tail| ==> ReadsForward(f, tail[i]);
      AcceptedIsWritten(f, rest[next..]);
      AcceptedFront(f, rest, header, next);
      FileCons(f, records[0], tail);
    }
  }

  lemma AcceptedFront(f: Format, rest: seq<Byte>, header: seq<int>, next: nat)
    requires f.Ok() && Size(f.fields) <= next <= |rest| && header == Unpack(f.fields, rest)
    requires Framed(f, header) && next == Size(f.fields) + header[f.sizeAt]
    ensures var r := Record(header, rest[Size(f.fields)..next]); Valid(f, r) && rest == Written(f, r) + rest[next..]
  {
    PackUnpack(f.fields, rest);
    Rejoin(rest, Size(f.fields), next);
  }

  lemma FileCons(f: Format, r: Record, tail: seq<Record>)
    requires f.Ok() && Valid(f, r) && AllValid(f, tail)
    ensures AllValid(f, [r] + tail) && File(f, [r] + tail) == Written(f, r) + File(f, tail)
  {
    assert ([r] + tail)[1..] == tail;
  }

  // m is the length of the first few records.
  ghost predicate Boundary(f: Format, records: seq<Record>, m: nat)
    requires f.Ok() && AllValid(f, records)
  {
    m == 0 || (records != [] && m >= |Written(f, records[0])| && Boundary(f, records[1..], m - |Written(f, records[0])|))
  }

  lemma {:induction false} BoundaryExact(f: Format, records: seq<Record>, m: nat)
    requires f.Ok() && AllValid(f, records)
    ensures Boundary(f, records, m) <==> exists j :: 0 <= j <= |records| && m == |File(f, records[..j])|
  {
    if m == 0 {
      assert File(f, records[..0]) == [];
    } else if records != [] {
      var w := |Written(f, records[0])|;
      if m >= w {
        BoundaryExact(f, records[1..], m - w);
      }
      BoundaryNext(f, records, m, w);
    }
  }

  lemma BoundaryNext(f: Format, records: seq<Record>, m: nat, w: nat)
    requires f.Ok() && AllValid(f, records) && records != [] && m > 0 && w == |Written(f, records[0])|
    ensures (exists j :: 0 <= j <= |records| && m == |File(f, records[..j])|)
       <==> m >= w && exists j :: 0 <= j <= |records[1..]| && m - w == |File(f, records[1..][..j])|
  {
    if j :| 0 <= j <= |records| && m == |File(f, records[..j])| {
      assert j > 0;
      assert records[..j][1..] == records[1..][..j - 1];
    }
    if m >= w {
      if j :| 0 <= j <= |records[1..]| && m - w == |File(f, records[1..][..j])| {
        assert records[..j + 1][1..] == records[1..][..j];
        assert m == |File(f, records[..j + 1])|;
      }
    }
  }

  // Cutting within the first record, and behind it.
  lemma CutEarly(f: Format, r: Record, more: seq<Byte>, m: nat)
    requires f.Ok() && Valid(f, r) && 0 < m < |Written(f, r)|
    ensures Scan(f, (Written(f, r) + more)[..m]) == Scanned([], FormatError)
  {
    ScanPart(f, r, m);
    assert (Written(f, r) + more)[..m] == Written(f, r)[..m];
  }

  lemma CutLater(f: Format, r: Record, more: seq<Byte>, m: nat, w: nat)
    requires f.Ok() && Valid(f, r) && w == |Written(f, r)| && w <= m <= w + |more|
    ensures Scan(f, (Written(f, r) + more)[..m]).status == Scan(f, more[..m - w]).status
  {
    ScanWhole(f, r, more[..m - w]);
    CutConcat(Written(f, r), more, m);
  }

  // A cut is accepted exactly between two records, and any other raises FormatError.
  lemma {:induction false} CutExact(f: Format, records: seq<Record>, m: nat)
    requires f.Ok() && AllValid(f, records) && m <= |File(f, records)|
    ensures Scan(f, File(f, records)[..m]).status == if Boundary(f, records, m) then Complete else FormatError
  {
    if m > 0 {
      var r, more, w := records[0], File(f, records[1..]), |Written(f, records[0])|;
      if m < w {
        CutEarly(f, r, more, m);
      } else {
        CutLater(f, r, more, m, w);
        CutExact(f, records[1..], m - w);
      }
    }
  }

  lemma {:induction false} FilePrefix(f: Format, records: seq<Record>, j: nat)
    requires f.Ok() && AllValid(f, records) && j <= |records|
    ensures File(f, records[..j]) <= File(f, records)
  {
    if j > 0 {
      FilePrefix(f, records[1..], j - 1);
      assert records[..j][1..] == records[1..][..j - 1];
    }
  }

  // Cutting after record j leaves the records up to there.
  lemma CutAtBoundary(f: Format, records: seq<Record>, j: nat)
    requires f.Ok() && AllValid(f, records) && j <= |records|
    ensures |File(f, records[..j])| <= |File(f, records)|
    ensures Scan(f, File(f, records)[..|File(f, records[..j])|]) == Scanned(records[..j], Complete)
  {
    FilePrefix(f, records, j);
    assert File(f, records)[..|File(f, records[..j])|] == File(f, records[..j]);
    RoundTrip(f, records[..j]);
  }

  /* ---- the loop in the middle of a file ---- */

  // The loop has read `done` and is at `rest`.
  ghost predicate Reading(f: Format, data: seq<Byte>, done: seq<Record>, rest: seq<Byte>)
    requires f.Ok()
  {
    Scan(f, data) == Scanned(done + Scan(f, rest).records, Scan(f, rest).status)
  }

  lemma {:induction false} ReadingMore(f: Format, data: seq<Byte>, done: seq<Record>, rest: seq<Byte>, r: Record, next: nat)
    requires f.Ok() && Reading(f, data, done, rest) && next <= |rest|
    requires Scan(f, rest) == Scanned([r] + Scan(f, rest[next..]).records, Scan(f, rest[next..]).status)
    ensures Reading(f, data, done + [r], rest[next..])
  {
    Assoc(done, [r], Scan(f, rest[next..]).records);
  }

  // One turn of the loop: it ends, or reads a record and goes on `next` bytes further.
  datatype Turn = Stop(status: Status) | Read(record: Record, next: nat)

  function TurnAt(f: Format, rest: seq<Byte>): Turn
    requires f.Ok()
  {
    if |rest| < Size(f.fields) then Stop(FormatError)
    else
      var header := Unpack(f.fields, rest);
      var next := Size(f.fields) + header[f.sizeAt];
      if !Framed(f, header) || |rest| < next then Stop(FormatError)
      else if next <= 0 then Stop(NoProgress)
      else Read(Record(header, if next >= Size(f.fields) then rest[Size(f.fields)..next] else []), next)
  }

  lemma {:induction false} ScanTurn(f: Format, rest: seq<Byte>)
    requires f.Ok() && rest != []
    ensures TurnAt(f, rest).Stop? ==> Scan(f, rest) == Scanned([], TurnAt(f, rest).status)
    ensures TurnAt(f, rest).Read? ==>
              var r, n := TurnAt(f, rest).record, TurnAt(f, rest).next;
              && 0 < n <= |rest| && |r.header| == |f.fields| && n == Size(f.fields) + r.header[f.sizeAt]
              && |r.payload| == (if r.header[f.sizeAt] >= 0 then r.header[f.sizeAt] else 0)
              && Scan(f, rest) == Scanned([r] + Scan(f, rest[n..]).records, Scan(f, rest[n..]).status)
  {
  }

  // When the loop ends, everything has been read.
  lemma {:induction false} ReadingEnds(f: Format, data: seq<Byte>, done: seq<Record>, rest: seq<Byte>)
    requires f.Ok() && Reading(f, data, done, rest) && Scan(f, rest).records == []
    ensures Scan(f, data) == Scanned(done, Scan(f, rest).status)
  {
    NoMore(done);
  }
}
