/** The position of the loop in parse_vt_file (scripts/parse-ross-model-stats.py), which a
    negative length can move back, in front of the first byte too: Python then counts from
    the end of the data. */
module StatsLoop {
  import opened Bytes
  import opened Seqs
  import opened StatsFraming

  // The loop finishes, or an exception ends it: FormatError, or the error of struct for
  // bytes that are not there.
  datatype End = Finished | BadFormat | StructError

  // s[from : to] as Python takes it.
  function PythonSlice(s: seq<Byte>, from: int, to: int): seq<Byte> {
    var i, j := Bound(s, from), Bound(s, to);
    if i <= j then s[i..j] else []
  }

  function Bound(s: seq<Byte>, i: int): (b: nat)
    ensures b <= |s|
  {
    var b := if i < 0 then i + |s| else i;
    if b < 0 then 0 else if b > |s| then |s| else b
  }

  // Bounds in the data count from its start, bounds below zero from its end, and bounds
  // outside stand for the nearest one inside.
  lemma SliceExact(s: seq<Byte>, from: int, to: int)
    ensures 0 <= from <= to <= |s| ==> PythonSlice(s, from, to) == s[from..to]
    ensures -|s| <= from <= to < 0 ==> PythonSlice(s, from, to) == s[|s| + from..|s| + to]
    ensures -|s| <= from < 0 <= to <= |s| && |s| + from <= to ==> PythonSlice(s, from, to) == s[|s| + from..to]
    ensures 0 <= from <= |s| < to ==> PythonSlice(s, from, to) == s[from..]
    ensures from < -|s| && 0 <= to <= |s| ==> PythonSlice(s, from, to) == s[..to]
    ensures from < -|s| <= to < 0 ==> PythonSlice(s, from, to) == s[..|s| + to]
    ensures from >= |s| || to < -|s| || (0 <= to <= from) || (to <= from < 0) ==> PythonSlice(s, from, to) == []
  {
  }

  datatype Position = At(off: int) | Done(end: End)

  // Where n steps lead from the first byte.
  ghost function Orbit(step: Position -> Position, n: nat): Position {
    if n == 0 then At(0) else step(Orbit(step, n - 1))
  }

  // What the first n steps took.
  ghost function Gather(step: Position -> Position, took: Position -> seq<Record>, n: nat): seq<Record> {
    if n == 0 then [] else Gather(step, took, n - 1) + took(Orbit(step, n - 1))
  }

  // An end is final.
  ghost predicate EndsStay(step: Position -> Position) {
    forall e: End :: step(Done(e)) == Done(e)
  }

  // What the loop runs on: `needs` has the sizes that are decoded, each with the number
  // of bytes its decoder reads.
  datatype Input = Input(format: Format, needs: map<int, nat>, data: seq<Byte>) {
    ghost predicate Ok() {
      format.Ok() && Modest()
    }

    // No decoder reads more than the size it is for.
    ghost predicate Modest() {
      forall size: int :: size in needs ==> needs[size] <= size
    }

    function Head(): nat {
      Size(format.fields)
    }

    function Slice(from: int, to: int): seq<Byte> {
      PythonSlice(data, from, to)
    }

    // There is a header at off that can be unpacked.
    predicate HasHead(off: int) {
      if off < 0 then off + Head() <= 0 && off + |data| >= 0 else off + Head() <= |data|
    }

    function HeaderAt(off: int): (h: seq<int>)
      requires HasHead(off)
      ensures |h| == |format.fields|
    {
      Unpack(format.fields, data[if off < 0 then off + |data| else off..])
    }

    // One turn of the loop at off.
    function Turn(off: int): Position
      requires format.Ok()
    {
      if off >= |data| then Done(Finished)
      else if |data| - off < Head() then Done(BadFormat)
      else if !HasHead(off) then Done(StructError)
      else if !Framed(format, HeaderAt(off)) then Done(BadFormat)
      else TakePayload(off + Head(), HeaderAt(off)[format.sizeAt])
    }

    function TakePayload(body: int, size: int): Position {
      if |data| - body < size then Done(BadFormat)
      else if size in needs && |Slice(body, body + size)| < needs[size] then Done(StructError)
      else At(body + size)
    }

    function Next(p: Position): Position
      requires format.Ok()
    {
      if p.At? then Turn(p.off) else p
    }

    ghost function Steps(): Position -> Position {
      p => if format.Ok() then Next(p) else p
    }

    // Where the loop is after n turns.
    ghost function After(n: nat): Position {
      Orbit(Steps(), n)
    }

    // The record that a turn at off takes.
    function RecordAt(off: int): Record
      requires format.Ok() && HasHead(off)
    {
      var body := off + Head();
      Record(HeaderAt(off), Slice(body, body + HeaderAt(off)[format.sizeAt]))
    }

    // The records of the first n turns, without one that raises an exception.
    ghost function Taken(n: nat): seq<Record> {
      Gather(Steps(), Takes(), n)
    }

    ghost function Takes(): Position -> seq<Record> {
      p => if format.Ok() then Took(p) else []
    }

    function Took(p: Position): seq<Record>
      requires format.Ok()
    {
      if p.At? && Turn(p.off).At? then [RecordAt(p.off)] else []
    }

    // The header at off is framed, and its length does not lead past it.
    predicate Blocks(off: int)
      requires format.Ok()
    {
      && 0 <= off && off + Head() <= |data| && Framed(format, HeaderAt(off))
      && Head() + HeaderAt(off)[format.sizeAt] <= 0
    }

    ghost predicate RunsForever() {
      forall n: nat :: After(n).At?
    }
  }

  // An offset below zero means the same header as that offset counted from the end.
  lemma HeaderFromEnd(z: Input, off: int)
    requires off < 0 && z.HasHead(off)
    ensures z.HasHead(|z.data| + off) && z.HeaderAt(off) == z.HeaderAt(|z.data| + off)
    ensures z.HeaderAt(off) == Unpack(z.format.fields, z.data[|z.data| + off..])
  {
  }

  /* ---- as long as it moves on, the loop is the scan ---- */

  function EndOf(s: Status): End {
    if s.Complete? then Finished else BadFormat
  }

  // From off on the loop reads what a scan of the rest reads, and ends as the scan does,
  // unless it comes to a record that it does not get past.
  ghost predicate Follows(z: Input, off: nat, n: nat)
    requires z.Ok() && off <= |z.data|
  {
    var s := Scan(z.format, z.data[off..]);
    && |s.records| <= |z.data| - off
    && (s.status != NoProgress ==> z.After(n + |s.records| + 1) == Done(EndOf(s.status)))
    && (s.status == NoProgress ==> z.After(n + |s.records|).At? && z.Blocks(z.After(n + |s.records|).off))
  }

  predicate MovesOn(z: Input, off: nat)
    requires z.format.Ok()
  {
    && off + z.Head() <= |z.data| && Framed(z.format, z.HeaderAt(off))
    && 0 < z.Head() + z.HeaderAt(off)[z.format.sizeAt] <= |z.data| - off
  }

  lemma {:induction false} StopsAt(z: Input, off: nat, n: nat)
    requires z.Ok() && off <= |z.data| && z.After(n) == At(off) && !MovesOn(z, off)
    ensures Follows(z, off, n)
  {
    assert z.After(n + 1) == z.Turn(off);
    assert Scan(z.format, z.data[off..]).records == [];
  }

  lemma {:induction false} FollowsBack(z: Input, off: nat, next: nat, n: nat)
    requires z.Ok() && MovesOn(z, off) && next == z.Head() + z.HeaderAt(off)[z.format.sizeAt]
    requires Follows(z, off + next, n + 1)
    ensures Follows(z, off, n)
  {
    var rest := z.data[off..];
    assert rest[next..] == z.data[off + next..];
    var s, more := Scan(z.format, rest), Scan(z.format, rest[next..]);
    assert s.status == more.status && |s.records| == 1 + |more.records|;
    assert n + |s.records| == n + 1 + |more.records|;
  }

  lemma {:induction false} TurnOn(z: Input, off: nat)
    requires z.Ok() && MovesOn(z, off)
    ensures z.Turn(off) == At(off + z.Head() + z.HeaderAt(off)[z.format.sizeAt])
  {
    var body, size := off + z.Head(), z.HeaderAt(off)[z.format.sizeAt];
    if size in z.needs {
      assert z.Modest() && z.needs[size] <= size;
      assert z.Slice(body, body + size) == z.data[body..body + size];
    }
  }

  lemma {:induction false} LoopFollows(z: Input, off: nat, n: nat)
    requires z.Ok() && off <= |z.data| && z.After(n) == At(off)
    ensures Follows(z, off, n)
    decreases |z.data| - off
  {
    if !MovesOn(z, off) {
      StopsAt(z, off, n);
    } else {
      var next := z.Head() + z.HeaderAt(off)[z.format.sizeAt];
      TurnOn(z, off);
      assert z.After(n + 1) == z.Turn(off);
      LoopFollows(z, off + next, n + 1);
      FollowsBack(z, off, next, n);
    }
  }

  // A scan that gets through tells how the loop ends, and after how many turns; otherwise
  // the loop comes to a record that it does not get past.
  lemma LoopIsScan(z: Input)
    requires z.Ok()
    ensures var s := Scan(z.format, z.data);
            && |s.records| <= |z.data|
            && (s.status != NoProgress ==> z.After(|s.records| + 1) == Done(EndOf(s.status)))
            && (s.status == NoProgress ==> z.After(|s.records|).At? && z.Blocks(z.After(|s.records|).off))
  {
    LoopFollows(z, 0, 0);
    assert z.data[0..] == z.data;
  }

  // The payload at an offset that is not negative.
  lemma PayloadAt(z: Input, body: nat, size: int)
    requires body <= |z.data| && body + size >= 0 && size <= |z.data| - body
    ensures z.Slice(body, body + size) == if size >= 0 then z.data[body..body + size] else []
  {
  }

  lemma InRest(data: seq<Byte>, off: nat, from: nat, to: nat)
    requires from <= to && off + to <= |data|
    ensures data[off..][from..to] == data[off + from..off + to] && data[off..][to..] == data[off + to..]
  {
  }

  // The record is the one that the scan makes.
  lemma RecordIs(z: Input, off: nat, header: seq<int>, size: int)
    requires z.Ok() && MovesOn(z, off) && header == z.HeaderAt(off) && size == header[z.format.sizeAt]
    ensures z.RecordAt(off) == Record(header, if size >= 0 then z.data[off..][z.Head()..z.Head() + size] else [])
  {
    PayloadAt(z, off + z.Head(), size);
    if size >= 0 {
      InRest(z.data, off, z.Head(), z.Head() + size);
    }
  }

  // One turn of the loop, and of the scan.
  lemma TurnTakes(z: Input, off: nat, n: nat)
    requires z.Ok() && z.After(n) == At(off) && MovesOn(z, off)
    ensures z.After(n + 1) == At(off + z.Head() + z.HeaderAt(off)[z.format.sizeAt])
    ensures z.Taken(n + 1) == z.Taken(n) + [z.RecordAt(off)]
  {
    TurnOn(z, off);
  }

  lemma {:induction false} TurnReads(z: Input, off: nat)
    requires z.Ok() && MovesOn(z, off)
    ensures TurnAt(z.format, z.data[off..]) == Read(z.RecordAt(off), z.Head() + z.HeaderAt(off)[z.format.sizeAt])
  {
    RecordIs(z, off, z.HeaderAt(off), z.HeaderAt(off)[z.format.sizeAt]);
  }

  lemma {:induction false} TurnStops(z: Input, off: nat)
    requires z.Ok() && off <= |z.data| && !MovesOn(z, off)
    ensures off == |z.data| || TurnAt(z.format, z.data[off..]).Stop?
  {
  }

  // The loop has taken what the scan has read.
  ghost predicate Along(z: Input, off: nat, n: nat, done: seq<Record>)
    requires z.format.Ok()
  {
    && off <= |z.data| && Reading(z.format, z.data, done, z.data[off..])
    && z.After(n) == At(off) && z.Taken(n) == done && n == |done|
  }

  lemma {:induction false} AlongMore(z: Input, off: nat, n: nat, done: seq<Record>) returns (next: nat)
    requires z.Ok() && Along(z, off, n, done) && MovesOn(z, off)
    ensures 0 < next <= |z.data| - off && Along(z, off + next, n + 1, done + [z.RecordAt(off)])
  {
    next := z.Head() + z.HeaderAt(off)[z.format.sizeAt];
    TurnTakes(z, off, n);
    TurnReads(z, off);
    ScanTurn(z.format, z.data[off..]);
    ReadingMore(z.format, z.data, done, z.data[off..], z.RecordAt(off), next);
    InRest(z.data, off, next, next);
  }

  lemma {:induction false} AlongEnds(z: Input, off: nat, n: nat, done: seq<Record>)
    requires z.Ok() && Along(z, off, n, done) && !MovesOn(z, off)
    ensures Scan(z.format, z.data).records == done
  {
    TurnStops(z, off);
    if off < |z.data| {
      ScanTurn(z.format, z.data[off..]);
    }
    ReadingEnds(z.format, z.data, done, z.data[off..]);
  }

  // The loop takes the records of the scan.
  lemma TakesScanned(z: Input, records: seq<Record>)
    requires z.Ok() && records == Scan(z.format, z.data).records
    ensures z.Taken(|records|) == records
  {
    var off: nat, n: nat, done: seq<Record> := 0, 0, [];
    assert z.data[0..] == z.data;
    NoMore(records);
    while MovesOn(z, off)
      invariant Along(z, off, n, done)
      decreases |z.data| - off
    {
      var next := AlongMore(z, off, n, done);
      off, n, done := off + next, n + 1, done + [z.RecordAt(off)];
    }
    AlongEnds(z, off, n, done);
  }

  // After a turn that ends nothing is taken.
  lemma {:induction false} GatherEnd(step: Position -> Position, took: Position -> seq<Record>, n: nat, m: nat)
    requires n <= m && forall k: nat :: n <= k ==> took(Orbit(step, k)) == []
    ensures Gather(step, took, m) == Gather(step, took, n)
    decreases m - n
  {
    if n < m {
      GatherEnd(step, took, n, m - 1);
      NoMore(Gather(step, took, m - 1));
    }
  }

  lemma TakesNothing(z: Input, n: nat, k: nat)
    requires z.Ok() && z.After(n + 1).Done? && n <= k
    ensures z.Takes()(z.After(k)) == []
  {
    if k > n {
      StepsEnd(z);
      AfterEnd(z.Steps(), n + 1, k);
    }
    assert z.After(n + 1) == z.Next(z.After(n));
  }

  lemma TakesNoMore(z: Input, n: nat, m: nat)
    requires z.Ok() && z.After(n + 1).Done? && n <= m
    ensures z.Taken(m) == z.Taken(n)
  {
    forall k: nat | n <= k ensures z.Takes()(Orbit(z.Steps(), k)) == [] {
      TakesNothing(z, n, k);
    }
    GatherEnd(z.Steps(), z.Takes(), n, m);
  }

  // As long as the scan gets, the loop takes the same records, and none after its end.
  lemma LoopTakesScan(z: Input, m: nat)
    requires z.Ok()
    ensures var s := Scan(z.format, z.data);
            && z.Taken(|s.records|) == s.records
            && (s.status != NoProgress && m >= |s.records| ==> z.Taken(m) == s.records)
  {
    var s := Scan(z.format, z.data);
    TakesScanned(z, s.records);
    if s.status != NoProgress && m >= |s.records| {
      LoopIsScan(z);
      TakesNoMore(z, |s.records|, m);
    }
  }

  /* ---- and when it does not end ---- */

  lemma {:induction false} AfterEnd(step: Position -> Position, n: nat, m: nat)
    requires EndsStay(step) && n <= m && Orbit(step, n).Done?
    ensures Orbit(step, m) == Orbit(step, n)
    decreases m - n
  {
    if n < m {
      AfterEnd(step, n, m - 1);
    }
  }

  // Two runs from one position stay together.
  lemma {:induction false} SameFuture(step: Position -> Position, i: nat, d: nat, p: nat)
    requires Orbit(step, i) == Orbit(step, i + d) && p >= i
    ensures Orbit(step, p) == Orbit(step, p + d)
    decreases p
  {
    if p > i {
      SameFuture(step, i, d, p - 1);
    }
  }

  // A loop that comes back to where it was never ends.
  lemma {:induction false} RepeatsAlive(step: Position -> Position, i: nat, j: nat, n: nat)
    requires EndsStay(step) && i < j && Orbit(step, i).At? && Orbit(step, i) == Orbit(step, j)
    ensures Orbit(step, n).At?
    decreases n
  {
    if n <= j {
      if Orbit(step, n).Done? {
        AfterEnd(step, n, j);
      }
    } else {
      SameFuture(step, i, j - i, i + (n - j));
      RepeatsAlive(step, i, j, i + (n - j));
    }
  }

  lemma StepsEnd(z: Input)
    requires z.Ok()
    ensures EndsStay(z.Steps())
  {
  }

  // Where the loop takes a turn without ending.
  lemma AliveRange(z: Input, n: nat)
    requires z.Ok() && z.After(n + 1).At?
    ensures z.After(n).At? && -|z.data| <= z.After(n).off < |z.data|
  {
  }

  ghost function Offsets(z: Input, n: nat): (s: seq<int>)
    requires z.Ok() && z.After(n).At?
    ensures |s| == n && forall i :: 0 <= i < n ==> z.After(i).At? && s[i] == z.After(i).off + |z.data| && 0 <= s[i] < 2 * |z.data|
  {
    if n == 0 then [] else
      AliveRange(z, n - 1);
      Offsets(z, n - 1) + [z.After(n - 1).off + |z.data|]
  }

  lemma {:induction false} ComesBack(z: Input, m: nat) returns (i: nat, j: nat)
    requires z.Ok() && m == 2 * |z.data| && z.After(m + 1).At?
    ensures i < j <= m && z.After(i).At? && z.After(i) == z.After(j)
  {
    AliveRange(z, m);
    var s := Offsets(z, m) + [z.After(m).off + |z.data|];
    if Distinct(s) {
      Pigeonhole(s, m);
    }
    i, j :| 0 <= i < j < |s| && s[i] == s[j];
  }

  lemma NeverEnds(z: Input, i: nat, j: nat)
    requires z.Ok() && i < j && z.After(i).At? && z.After(i) == z.After(j)
    ensures z.RunsForever()
  {
    StepsEnd(z);
    forall n: nat ensures z.After(n).At? {
      RepeatsAlive(z.Steps(), i, j, n);
    }
  }

  // Within m turns the loop comes back to a position.
  ghost predicate Repeats(z: Input, m: nat)
    requires z.format.Ok()
  {
    exists i: nat, j: nat :: i < j <= m && z.After(i).At? && z.After(i) == z.After(j)
  }

  // The loop never ends exactly when it comes back to a position within twice as many
  // turns as there are bytes, which is exactly when it goes on for one turn more.
  lemma ForeverExact(z: Input)
    requires z.Ok()
    ensures z.RunsForever() <==> Repeats(z, 2 * |z.data|)
    ensures z.RunsForever() <==> z.After(2 * |z.data| + 1).At?
  {
    var m := 2 * |z.data|;
    if z.After(m + 1).At? {
      var i, j := ComesBack(z, m);
      NeverEnds(z, i, j);
    } else if Repeats(z, m) {
      var i: nat, j: nat :| i < j <= m && z.After(i).At? && z.After(i) == z.After(j);
      NeverEnds(z, i, j);
    }
  }

  // Where a record that the loop does not get past sends it.
  function Back(z: Input, off: int): int
    requires z.format.Ok() && z.Blocks(off)
  {
    off + z.Head() + z.HeaderAt(off)[z.format.sizeAt]
  }

  lemma BlockedTurn(z: Input, off: int)
    requires z.Ok() && z.Blocks(off)
    ensures z.Turn(off) == At(Back(z, off))
  {
  }

  // The record after n others leads back to where the loop was after j of them.
  ghost predicate LeadsBack(z: Input, n: nat, j: nat)
    requires z.format.Ok()
  {
    j <= n && z.After(n).At? && z.Blocks(z.After(n).off) && z.After(j) == At(Back(z, z.After(n).off))
  }

  // Then the loop runs forever, in front of the end of the data.
  lemma {:induction false} BlockedForever(z: Input, n: nat, j: nat, m: nat)
    requires z.Ok() && LeadsBack(z, n, j)
    ensures z.After(m).At? && z.After(m).off < |z.data|
  {
    BlockedTurn(z, z.After(n).off);
    assert z.After(n + 1) == z.After(j);
    StepsEnd(z);
    RepeatsAlive(z.Steps(), j, n + 1, m + 1);
    AliveRange(z, m);
  }

  // A record that leads to where nothing can be unpacked ends it.
  lemma BlockedOutside(z: Input, n: nat)
    requires z.Ok() && z.After(n).At? && z.Blocks(z.After(n).off)
    requires var back := Back(z, z.After(n).off); back < -|z.data| || back < 0 < back + z.Head()
    ensures z.After(n + 2) == Done(StructError)
  {
    BlockedTurn(z, z.After(n).off);
    assert z.After(n + 1) == At(Back(z, z.After(n).off));
    assert z.After(n + 1 + 1) == z.Next(z.After(n + 1));
  }

  // With a length of minus one header it stays where it is.
  lemma {:induction false} StaysPut(z: Input, n: nat, m: nat)
    requires z.Ok() && n <= m && z.After(n).At? && z.Blocks(z.After(n).off)
    requires Back(z, z.After(n).off) == z.After(n).off
    ensures z.After(m) == z.After(n)
    decreases m - n
  {
    if n < m {
      StaysPut(z, n, m - 1);
      BlockedTurn(z, z.After(n).off);
    }
  }

  // A single header: only minus its own length runs forever, less ends with the error of
  // struct within three turns.
  lemma SingleHeader(z: Input)
    requires z.Ok() && z.Blocks(0) && |z.data| == z.Head()
    ensures z.RunsForever() <==> Back(z, 0) == 0
    ensures Back(z, 0) != 0 ==> z.After(3) == Done(StructError)
  {
    BlockedTurn(z, 0);
    assert z.After(0 + 1) == z.Turn(0);
    if Back(z, 0) == 0 {
      NeverEnds(z, 0, 1);
    } else {
      TurnBefore(z, Back(z, 0));
      assert z.After(1 + 1) == z.Turn(Back(z, 0));
      assert z.After(2 + 1).Done?;
    }
  }

  // Before a single header nothing can be read, but for the header itself.
  lemma TurnBefore(z: Input, off: int)
    requires z.Ok() && z.Blocks(0) && |z.data| == z.Head() && off == Back(z, 0) < 0
    ensures z.Turn(off) == if off + z.Head() == 0 then At(2 * off) else Done(StructError)
    ensures off + z.Head() == 0 ==> z.Turn(2 * off) == Done(StructError)
  {
    if off + z.Head() == 0 {
      assert z.HeaderAt(off) == z.HeaderAt(0);
    }
  }
}
