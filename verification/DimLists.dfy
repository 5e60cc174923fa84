/** Dimension lists such as "4,2,2" in src/modelconfig/config_compiler.cxx: which texts
    parse_dim_lengths accepts and as what, and the guarded product of mesh_node_count. */
module DimLists {
  import opened Arith
  import opened Decimal
  import opened Options
  import opened Seqs

  const LONG_MAX := 0x7FFF_FFFF_FFFF_FFFF

  /* ---- strtol in base 10 (section 7.22.1.4 of ISO/IEC 9899:2011) ---- */

  datatype Class = Space | Blank | Digit

  // Space is what isspace accepts in the C locale.
  predicate In(c: char, k: Class) {
    match k
    case Space => c == ' ' || c == '\t' || c == '\n' || c == '\r' || c == '\U{0B}' || c == '\U{0C}'
    case Blank => c == ' '
    case Digit => IsDigit(c)
  }

  // The first position from i on whose character is not in the class.
  function Run(k: Class, s: string, i: nat): (j: nat)
    requires i <= |s|
    ensures i <= j <= |s|
    decreases |s| - i
  {
    if i < |s| && In(s[i], k) then Run(k, s, i + 1) else i
  }

  lemma {:induction false} RunExact(k: Class, s: string, i: nat)
    requires i <= |s|
    ensures forall n :: i <= n < Run(k, s, i) ==> In(s[n], k)
    ensures Run(k, s, i) < |s| ==> !In(s[Run(k, s, i)], k)
    decreases |s| - i
  {
    if i < |s| && In(s[i], k) {
      RunExact(k, s, i + 1);
    }
  }

  // The number, where it ends, and whether errno stays 0.
  datatype Number = NoNumber | Number(value: int, end: nat, inRange: bool)

  predicate AllIn(k: Class, s: string) {
    forall i :: 0 <= i < |s| ==> In(s[i], k)
  }

  predicate SignAt(s: string, i: nat) {
    i < |s| && (s[i] == '+' || s[i] == '-')
  }

  // strtol at position p; None when there is no number.
  function Strtol(s: string, p: nat): (r: Number)
    requires p <= |s|
    ensures r.Number? ==> p < r.end <= |s|
  {
    var i := Run(Space, s, p);
    var j := if SignAt(s, i) then i + 1 else i;
    var end := Run(Digit, s, j);
    RunExact(Digit, s, j);
    if end == j then NoNumber
    else
      var magnitude: int := Value(s[j..end]);
      var value := if SignAt(s, i) && s[i] == '-' then -magnitude else magnitude;
      Number(value, end, -LONG_MAX - 1 <= value <= LONG_MAX)
  }

  /* ---- parse_dim_lengths ---- */

  // One value from p on and the spaces after it: the value, and the place behind.
  datatype Read = Nothing | Read(number: int, next: nat)

  function Entry(s: string, p: nat): (r: Read)
    requires p <= |s|
    ensures r.Read? ==> r.number > 0 && p < r.next <= |s|
  {
    var d := Strtol(s, p);
    if d.NoNumber? || !d.inRange || d.value <= 0 then Nothing
    else Read(d.value, Run(Blank, s, d.end))
  }

  // A text ends at its length or at a NUL character.
  predicate EndsAt(s: string, i: nat) {
    i >= |s| || s[i] == '\0'
  }

  function Lengths(s: string, p: nat): (r: Option<seq<int>>)
    requires p <= |s|
    decreases |s| - p
  {
    var e := Entry(s, p);
    if e.Nothing? then None
    else if EndsAt(s, e.next) then Some([e.number])
    else if s[e.next] != ',' then None
    else
      var more := Lengths(s, e.next + 1);
      if more.None? then None else Some([e.number] + more.value)
  }

  // What the loop returns when it has read dims and is at p.
  function Rest(s: string, p: nat, dims: seq<int>): Option<seq<int>>
    requires p <= |s|
  {
    if Lengths(s, p).None? then None else Some(dims + Lengths(s, p).value)
  }

  lemma RestNext(s: string, p: nat, dims: seq<int>)
    requires p <= |s| && Entry(s, p).Read? && !EndsAt(s, Entry(s, p).next) && s[Entry(s, p).next] == ','
    ensures Rest(s, p, dims) == Rest(s, Entry(s, p).next + 1, dims + [Entry(s, p).number])
  {
    var more := Lengths(s, Entry(s, p).next + 1);
    if more.Some? {
      Assoc(dims, [Entry(s, p).number], more.value);
    }
  }

  method ParseDimLengths(s: string) returns (r: Option<seq<int>>)
    ensures r == Lengths(s, 0)
  {
    var p: nat, dims: seq<int> := 0, [];
    if Lengths(s, 0).Some? {
      NoMore(Lengths(s, 0).value);
    }
    while true
      invariant p <= |s| && Rest(s, p, dims) == Lengths(s, 0)
      decreases |s| - p
    {
      var d := Strtol(s, p);
      if d.NoNumber? || !d.inRange || d.value <= 0 {
        return None;
      }
      var q := SkipBlanks(s, d.end);
      if EndsAt(s, q) {
        return Some(dims + [d.value]);
      }
      if s[q] != ',' {
        return None;
      }
      RestNext(s, p, dims);
      dims := dims + [d.value];
      p := q + 1;
    }
  }

  // The loop over trailing spaces.
  method SkipBlanks(s: string, start: nat) returns (q: nat)
    requires start <= |s|
    ensures q == Run(Blank, s, start)
  {
    q := start;
    while q < |s| && s[q] == ' '
      invariant start <= q <= |s| && Run(Blank, s, q) == Run(Blank, s, start)
    {
      q := q + 1;
    }
  }

  /* ---- the texts that are accepted ---- */

  // A value with what may stand around it: white space of any kind before, a plus sign,
  // leading zeros, and spaces after.
  datatype Segment = Segment(lead: string, plus: bool, digits: string, trail: string)

  ghost predicate ValidSegment(g: Segment) {
    && AllIn(Space, g.lead) && AllIn(Blank, g.trail)
    && g.digits != "" && AllIn(Digit, g.digits) && 1 <= Value(g.digits) <= LONG_MAX
  }

  function Sign(plus: bool): string {
    if plus then "+" else ""
  }

  function Text(g: Segment): string {
    g.lead + Sign(g.plus) + g.digits + g.trail
  }

  function Join(segments: seq<Segment>): string {
    if segments == [] then "" else
    if |segments| == 1 then Text(segments[0]) else Text(segments[0]) + "," + Join(segments[1..])
  }

  ghost predicate AllSegments(segments: seq<Segment>) {
    forall i :: 0 <= i < |segments| ==> ValidSegment(segments[i])
  }

  function Values(segments: seq<Segment>): seq<int>
    requires AllSegments(segments)
  {
    if segments == [] then [] else [Value(segments[0].digits)] + Values(segments[1..])
  }

  // t stands in s at position i.
  predicate StandsAt(s: string, i: nat, t: string) {
    i + |t| <= |s| && s[i..i + |t|] == t
  }

  lemma StandsConcat(s: string, i: nat, a: string, b: string)
    requires StandsAt(s, i, a + b)
    ensures StandsAt(s, i, a) && StandsAt(s, i + |a|, b)
  {
    var t := s[i..i + |a + b|];
    assert t[..|a|] == a && t[|a|..] == b;
  }

  lemma StandsFirst(s: string, i: nat, t: string)
    requires StandsAt(s, i, t) && t != ""
    ensures i < |s| && s[i] == t[0]
  {
    assert s[i] == s[i..i + |t|][0];
  }

  lemma RunOver(k: Class, s: string, i: nat, t: string)
    requires StandsAt(s, i, t) && AllIn(k, t) && (i + |t| < |s| ==> !In(s[i + |t|], k))
    ensures Run(k, s, i) == i + |t|
  {
    RunExact(k, s, i);
    forall n | i <= n < i + |t| ensures In(s[n], k) {
      assert s[n] == s[i..i + |t|][n - i];
    }
  }

  // What may follow a segment: the end, or a character that cannot belong to it.
  predicate Stops(s: string, i: nat) {
    i < |s| ==> !IsDigit(s[i]) && s[i] != ' '
  }

  lemma TextParts(s: string, p: nat, g: Segment)
    requires StandsAt(s, p, Text(g))
    ensures StandsAt(s, p, g.lead) && StandsAt(s, p + |g.lead|, Sign(g.plus))
    ensures StandsAt(s, p + |g.lead| + |Sign(g.plus)|, g.digits)
    ensures StandsAt(s, p + |g.lead| + |Sign(g.plus)| + |g.digits|, g.trail)
  {
    StandsConcat(s, p, g.lead + Sign(g.plus) + g.digits, g.trail);
    StandsConcat(s, p, g.lead + Sign(g.plus), g.digits);
    StandsConcat(s, p, g.lead, Sign(g.plus));
  }

  // The digits at j.
  lemma DigitsAt(s: string, j: nat, digits: string, end: nat)
    requires StandsAt(s, j, digits) && end == j + |digits|
    requires digits != "" && AllIn(Digit, digits) && (end < |s| ==> !IsDigit(s[end]))
    ensures j < end <= |s| && IsDigit(s[j]) && Run(Digit, s, j) == end && s[j..end] == digits
  {
    StandsFirst(s, j, digits);
    assert In(digits[0], Digit);
    RunOver(Digit, s, j, digits);
  }

  // The sign at i, with a digit behind it.
  lemma SignIs(s: string, i: nat, plus: bool)
    requires StandsAt(s, i, Sign(plus)) && i + |Sign(plus)| < |s| && IsDigit(s[i + |Sign(plus)|])
    ensures !In(s[i], Space) && (SignAt(s, i) <==> plus) && (plus ==> s[i] == '+')
  {
    if plus {
      StandsFirst(s, i, "+");
    }
  }

  // The spaces after the digits.
  lemma BlanksAt(s: string, end: nat, trail: string)
    requires StandsAt(s, end, trail) && AllIn(Blank, trail) && Stops(s, end + |trail|)
    ensures Run(Blank, s, end) == end + |trail| && (end < |s| ==> !IsDigit(s[end]))
  {
    if trail != "" {
      StandsFirst(s, end, trail);
    }
    RunOver(Blank, s, end, trail);
  }

  lemma EntryAt(s: string, p: nat, i: nat, plus: bool, digits: string, end: nat, e: nat)
    requires p <= i < end <= |s| && Run(Space, s, p) == i && (SignAt(s, i) <==> plus) && (plus ==> s[i] == '+')
    requires i + |Sign(plus)| < end && Run(Digit, s, i + |Sign(plus)|) == end && s[i + |Sign(plus)|..end] == digits
    requires Run(Blank, s, end) == e
    requires AllIn(Digit, digits) && 1 <= Value(digits) <= LONG_MAX
    ensures Entry(s, p) == Read(Value(digits), e)
  {
  }

  lemma DigitsAndBlanks(s: string, i: nat, plus: bool, digits: string, end: nat, trail: string, e: nat)
    requires StandsAt(s, i, Sign(plus)) && StandsAt(s, i + |Sign(plus)|, digits) && end == i + |Sign(plus)| + |digits|
    requires StandsAt(s, end, trail) && e == end + |trail| && AllIn(Blank, trail) && Stops(s, e)
    requires digits != "" && AllIn(Digit, digits)
    ensures i < end <= |s| && !In(s[i], Space) && (SignAt(s, i) <==> plus) && (plus ==> s[i] == '+')
    ensures Run(Digit, s, i + |Sign(plus)|) == end && s[i + |Sign(plus)|..end] == digits && Run(Blank, s, end) == e
  {
    BlanksAt(s, end, trail);
    DigitsAt(s, i + |Sign(plus)|, digits, end);
    SignIs(s, i, plus);
  }

  // The same from the positions of the parts.
  lemma EntryOfParts(s: string, p: nat, g: Segment, i: nat, end: nat, e: nat)
    requires ValidSegment(g) && i == p + |g.lead| && end == i + |Sign(g.plus)| + |g.digits| && e == end + |g.trail|
    requires StandsAt(s, p, g.lead) && StandsAt(s, i, Sign(g.plus))
    requires StandsAt(s, i + |Sign(g.plus)|, g.digits) && StandsAt(s, end, g.trail) && Stops(s, e)
    ensures Entry(s, p) == Read(Value(g.digits), e)
  {
    DigitsAndBlanks(s, i, g.plus, g.digits, end, g.trail, e);
    RunOver(Space, s, p, g.lead);
    EntryAt(s, p, i, g.plus, g.digits, end, e);
  }

  lemma EntryOfText(s: string, p: nat, g: Segment, e: nat)
    requires ValidSegment(g) && StandsAt(s, p, Text(g)) && e == p + |Text(g)| && Stops(s, e)
    ensures Entry(s, p) == Read(Value(g.digits), e)
  {
    TextParts(s, p, g);
    var i := p + |g.lead|;
    EntryOfParts(s, p, g, i, i + |Sign(g.plus)| + |g.digits|, e);
  }

  // The segments stand in s from p to its end, with commas between them.
  ghost predicate Spells(s: string, p: nat, segments: seq<Segment>)
    decreases |segments|
  {
    && segments != [] && StandsAt(s, p, Text(segments[0]))
    && var e := p + |Text(segments[0])|;
       if |segments| == 1 then e == |s| else e < |s| && s[e] == ',' && Spells(s, e + 1, segments[1..])
  }

  lemma {:induction false} JoinSpells(s: string, p: nat, segments: seq<Segment>)
    requires segments != [] && StandsAt(s, p, Join(segments)) && p + |Join(segments)| == |s|
    ensures Spells(s, p, segments)
    decreases |segments|
  {
    if |segments| > 1 {
      JoinFirst(s, p, Text(segments[0]), Join(segments[1..]));
      JoinSpells(s, p + |Text(segments[0])| + 1, segments[1..]);
    }
  }

  lemma JoinFirst(s: string, p: nat, t: string, rest: string)
    requires StandsAt(s, p, t + "," + rest)
    ensures StandsAt(s, p, t) && p + |t| < |s| && s[p + |t|] == ',' && StandsAt(s, p + |t| + 1, rest)
  {
    StandsConcat(s, p, t + ",", rest);
    StandsConcat(s, p, t, ",");
    StandsFirst(s, p + |t|, ",");
  }

  lemma SpellsParts(s: string, p: nat, segments: seq<Segment>)
    requires AllSegments(segments) && Spells(s, p, segments)
    ensures var g, e := segments[0], p + |Text(segments[0])|;
            && ValidSegment(g) && e <= |s| && Entry(s, p) == Read(Value(g.digits), e)
            && (|segments| == 1 ==> e == |s| && Values(segments) == [Value(g.digits)])
            && (|segments| > 1 ==> AllSegments(segments[1..]) && Values(segments) == [Value(g.digits)] + Values(segments[1..]))
            && (|segments| > 1 ==> e < |s| && s[e] == ',' && !EndsAt(s, e) && Spells(s, e + 1, segments[1..]))
  {
    EntryOfText(s, p, segments[0], p + |Text(segments[0])|);
    if |segments| == 1 {
      NoMore([Value(segments[0].digits)]);
    }
  }

  // The entries of s from p on give the values one by one.
  ghost predicate Reads(s: string, p: nat, values: seq<int>)
    decreases |values|
  {
    && values != [] && p <= |s| && Entry(s, p).Read? && Entry(s, p).number == values[0]
    && var e := Entry(s, p).next;
       if |values| == 1 then EndsAt(s, e) else !EndsAt(s, e) && s[e] == ',' && Reads(s, e + 1, values[1..])
  }

  lemma {:induction false} ReadsIsLengths(s: string, p: nat, values: seq<int>)
    requires Reads(s, p, values)
    ensures Lengths(s, p) == Some(values)
    decreases |values|
  {
    HeadTail(values);
    if |values| > 1 {
      ReadsIsLengths(s, Entry(s, p).next + 1, values[1..]);
    } else {
      NoMore([values[0]]);
    }
  }

  lemma ReadsMore(s: string, p: nat, more: seq<int>)
    requires p <= |s| && Entry(s, p).Read? && !EndsAt(s, Entry(s, p).next) && s[Entry(s, p).next] == ','
    requires Reads(s, Entry(s, p).next + 1, more)
    ensures Reads(s, p, [Entry(s, p).number] + more)
  {
    ConsTail(Entry(s, p).number, more);
  }

  lemma {:induction false} SpellsReads(s: string, p: nat, segments: seq<Segment>)
    requires AllSegments(segments) && Spells(s, p, segments)
    ensures Reads(s, p, Values(segments)) && |Values(segments)| == |segments|
    decreases |segments|
  {
    SpellsParts(s, p, segments);
    if |segments| > 1 {
      SpellsReads(s, p + |Text(segments[0])| + 1, segments[1..]);
      ReadsMore(s, p, Values(segments[1..]));
    }
  }

  // Any list of positive numbers that fit is read back, however it is spaced.
  lemma JoinIsRead(segments: seq<Segment>)
    requires AllSegments(segments) && segments != []
    ensures Lengths(Join(segments), 0) == Some(Values(segments))
  {
    var s := Join(segments);
    assert s[0..|s|] == s;
    JoinSpells(s, 0, segments);
    SpellsReads(s, 0, segments);
    ReadsIsLengths(s, 0, Values(segments));
  }

  // The segment from p to e.
  function Front(s: string, p: nat): Segment
    requires p <= |s| && Entry(s, p).Read?
  {
    var i := Run(Space, s, p);
    var j := if s[i] == '+' then i + 1 else i;
    Segment(s[p..i], s[i] == '+', s[j..Strtol(s, p).end], s[Strtol(s, p).end..Entry(s, p).next])
  }

  lemma Between(s: string, i: nat, j: nat, k: nat)
    requires i <= j <= k <= |s|
    ensures s[i..j] + s[j..k] == s[i..k]
  {
  }

  lemma {:induction false} LengthsPositive(s: string, p: nat)
    requires p <= |s| && Lengths(s, p).Some?
    ensures Lengths(s, p).value != [] && forall i :: 0 <= i < |Lengths(s, p).value| ==> Lengths(s, p).value[i] > 0
    decreases |s| - p
  {
    var e := Entry(s, p).next;
    if !EndsAt(s, e) {
      LengthsPositive(s, e + 1);
    }
  }

  lemma RunIn(k: Class, s: string, i: nat)
    requires i <= |s|
    ensures AllIn(k, s[i..Run(k, s, i)])
  {
    RunExact(k, s, i);
  }

  lemma FourParts(s: string, p: nat, i: nat, j: nat, end: nat, e: nat)
    requires p <= i <= j <= end <= e <= |s|
    ensures s[p..i] + s[i..j] + s[j..end] + s[end..e] == s[p..e]
  {
    Between(s, p, i, j);
    Between(s, p, j, end);
    Between(s, p, end, e);
  }

  lemma FrontExact(s: string, p: nat)
    requires p <= |s| && Entry(s, p).Read?
    ensures ValidSegment(Front(s, p)) && Text(Front(s, p)) == s[p..Entry(s, p).next] && Value(Front(s, p).digits) == Entry(s, p).number
  {
    var i, end, e := Run(Space, s, p), Strtol(s, p).end, Entry(s, p).next;
    var j := if s[i] == '+' then i + 1 else i;
    RunIn(Space, s, p);
    RunIn(Digit, s, j);
    RunIn(Blank, s, end);
    FourParts(s, p, i, j, end, e);
    assert s[i..j] == Sign(s[i] == '+');
  }

  lemma {:induction false} LengthsIsReads(s: string, p: nat, values: seq<int>)
    requires p <= |s| && Lengths(s, p) == Some(values)
    ensures Reads(s, p, values)
    decreases |s| - p
  {
    var e := Entry(s, p);
    if !EndsAt(s, e.next) {
      var more := Lengths(s, e.next + 1).value;
      LengthsIsReads(s, e.next + 1, more);
      ReadsMore(s, p, more);
    }
  }

  // And nothing else is accepted: an accepted text without NUL characters is such a list.
  lemma {:induction false} ReadsIsJoin(s: string, p: nat, values: seq<int>) returns (segments: seq<Segment>)
    requires Reads(s, p, values) && forall i :: 0 <= i < |s| ==> s[i] != '\0'
    ensures segments != [] && AllSegments(segments) && p <= |s| && Join(segments) == s[p..] && Values(segments) == values
    decreases |values|
  {
    var g, e := Front(s, p), Entry(s, p).next;
    FrontExact(s, p);
    HeadTail(values);
    if |values| == 1 {
      segments := [g];
      OneSegment(g);
      assert s[p..e] == s[p..];
    } else {
      var tail := ReadsIsJoin(s, e + 1, values[1..]);
      segments := [g] + tail;
      SegmentsCons(g, tail);
      CommaBetween(s, p, e);
    }
  }

  lemma OneSegment(g: Segment)
    requires ValidSegment(g)
    ensures AllSegments([g]) && Join([g]) == Text(g) && Values([g]) == [Value(g.digits)]
  {
    assert Values([g][1..]) == [];
  }

  lemma SegmentsCons(g: Segment, tail: seq<Segment>)
    requires ValidSegment(g) && tail != [] && AllSegments(tail)
    ensures AllSegments([g] + tail) && Join([g] + tail) == Text(g) + "," + Join(tail)
    ensures Values([g] + tail) == [Value(g.digits)] + Values(tail)
  {
    assert ([g] + tail)[1..] == tail;
  }

  lemma CommaBetween(s: string, p: nat, e: nat)
    requires p <= e < |s| && s[e] == ','
    ensures s[p..e] + "," + s[e + 1..] == s[p..]
  {
    assert s[e..e + 1] == ",";
    Between(s, p, e, e + 1);
    Between(s, p, e + 1, |s|);
  }

  ghost predicate IsDimList(s: string, dims: seq<int>) {
    exists segments: seq<Segment> :: segments != [] && AllSegments(segments) && Join(segments) == s && Values(segments) == dims
  }

  // parse_dim_lengths returns dims exactly for the lists of dims: empty segments,
  // trailing commas, other separators and other characters are all refused.
  lemma LengthsExact(s: string, dims: seq<int>)
    requires forall i :: 0 <= i < |s| ==> s[i] != '\0'
    ensures Lengths(s, 0) == Some(dims) <==> IsDimList(s, dims)
  {
    if Lengths(s, 0) == Some(dims) {
      LengthsIsReads(s, 0, dims);
      var segments := ReadsIsJoin(s, 0, dims);
      assert s[0..] == s;
    }
    if IsDimList(s, dims) {
      var segments: seq<Segment> :| segments != [] && AllSegments(segments) && Join(segments) == s && Values(segments) == dims;
      JoinIsRead(segments);
    }
  }

  // The plain printing: numbers with commas between.
  function Plain(dims: seq<int>): (g: seq<Segment>)
    requires forall i :: 0 <= i < |dims| ==> dims[i] > 0
    ensures |g| == |dims|
  {
    if dims == [] then [] else [Segment("", false, Show(dims[0]), "")] + Plain(dims[1..])
  }

  lemma {:induction false} PlainValues(dims: seq<int>)
    requires forall i :: 0 <= i < |dims| ==> 0 < dims[i] <= LONG_MAX
    ensures AllSegments(Plain(dims)) && Values(Plain(dims)) == dims
  {
    if dims != [] {
      PlainValues(dims[1..]);
      ShowValue(dims[0]);
    }
  }

  lemma PrintedIsRead(dims: seq<int>)
    requires dims != [] && forall i :: 0 <= i < |dims| ==> 0 < dims[i] <= LONG_MAX
    ensures Lengths(Join(Plain(dims)), 0) == Some(dims)
  {
    PlainValues(dims);
    JoinIsRead(Plain(dims));
  }

  /* ---- mesh_node_count ---- */

  function Product(dims: seq<int>): int {
    if dims == [] then 1 else Product(dims[..|dims| - 1]) * dims[|dims| - 1]
  }

  // A node of the mesh: a coordinate for each dimension.
  predicate IsNode(dims: seq<int>, c: seq<int>) {
    |c| == |dims| && forall i :: 0 <= i < |dims| ==> 0 <= c[i] < dims[i]
  }

  // All nodes, dimension by dimension.
  function Nodes(dims: seq<int>): set<seq<int>> {
    if dims == [] then {[]} else Layers(Nodes(dims[..|dims| - 1]), dims[|dims| - 1])
  }

  function Layers(s: set<seq<int>>, n: int): set<seq<int>> {
    set c, k | c in s && 0 <= k < n :: c + [k]
  }

  // The product is the number of nodes.
  lemma {:induction false} ProductCountsNodes(dims: seq<int>)
    requires forall i :: 0 <= i < |dims| ==> dims[i] >= 0
    ensures forall c :: c in Nodes(dims) <==> IsNode(dims, c)
    ensures |Nodes(dims)| == Product(dims)
  {
    if dims != [] {
      var n := |dims| - 1;
      ProductCountsNodes(dims[..n]);
      LayersExact(Nodes(dims[..n]), dims[n], n);
      forall c ensures c in Nodes(dims) <==> IsNode(dims, c) {
        if |c| == n + 1 {
          assert c == c[..n] + [c[n]];
          assert IsNode(dims[..n], c[..n]) && 0 <= c[n] < dims[n] <==> IsNode(dims, c);
        }
      }
    }
  }

  lemma {:induction false} LayersExact(s: set<seq<int>>, m: nat, n: nat)
    requires forall c :: c in s ==> |c| == n
    ensures forall c :: c in Layers(s, m) <==> |c| == n + 1 && c[..n] in s && 0 <= c[n] < m
    ensures |Layers(s, m)| == |s| * m
  {
    forall c ensures c in Layers(s, m) <==> |c| == n + 1 && c[..n] in s && 0 <= c[n] < m {
      if |c| == n + 1 {
        assert c == c[..n] + [c[n]];
      }
    }
    LayersSize(s, m, n);
  }

  lemma {:induction false} LayersSize(s: set<seq<int>>, m: nat, n: nat)
    requires forall c :: c in s ==> |c| == n
    ensures |Layers(s, m)| == |s| * m
  {
    if m == 0 {
      assert Layers(s, 0) == {};
    } else {
      LayersSize(s, m - 1, n);
      LayerSize(s, m - 1, n);
      LayersMore(s, m - 1, n);
      MulNext(m - 1, |s|);
    }
  }

  function Layer(s: set<seq<int>>, k: int): set<seq<int>> {
    set c | c in s :: c + [k]
  }

  lemma LayersMore(s: set<seq<int>>, m: nat, n: nat)
    requires forall c :: c in s ==> |c| == n
    ensures Layers(s, m + 1) == Layers(s, m) + Layer(s, m) && Layers(s, m) !! Layer(s, m)
  {
    forall c | c in Layers(s, m + 1) ensures c in Layers(s, m) + Layer(s, m) {
      var d, k :| d in s && 0 <= k < m + 1 && c == d + [k];
      if k == m {
        assert c in Layer(s, m);
      }
    }
    forall c | c in Layers(s, m) ensures c !in Layer(s, m) {
      var d, k :| d in s && 0 <= k < m && c == d + [k];
      assert c[n] == k;
    }
  }

  lemma {:induction false} LayerSize(s: set<seq<int>>, k: int, n: nat)
    requires forall c :: c in s ==> |c| == n
    ensures |Layer(s, k)| == |s|
    decreases |s|
  {
    if s != {} {
      var c :| c in s;
      var rest := s - {c};
      LayerSize(rest, k, n);
      assert Layer(s, k) == Layer(rest, k) + {c + [k]};
      forall d | d in rest ensures d + [k] != c + [k] {
        SameFront(c, d, k);
      }
    } else {
      assert Layer(s, k) == {};
    }
  }

  lemma SameFront(c: seq<int>, d: seq<int>, k: int)
    ensures c + [k] == d + [k] <==> c == d
  {
    assert (c + [k])[..|c|] == c && (d + [k])[..|d|] == d;
  }

  lemma MulAtLeast(a: int, b: int)
    requires a >= 0 && b >= 1
    ensures a * b >= a
  {
  }

  // Products of positive numbers only grow.
  lemma {:induction false} ProductGrows(dims: seq<int>, n: nat)
    requires n <= |dims| && forall i :: 0 <= i < |dims| ==> dims[i] >= 1
    ensures 1 <= Product(dims[..n]) <= Product(dims)
    decreases |dims|
  {
    var last := |dims| - 1;
    if n == |dims| {
      assert dims[..n] == dims;
      if n > 0 {
        ProductGrows(dims[..last], last);
        assert dims[..last][..last] == dims[..last];
        MulAtLeast(Product(dims[..last]), dims[last]);
      }
    } else {
      ProductGrows(dims[..last], n);
      assert dims[..last][..n] == dims[..n];
      MulAtLeast(Product(dims[..last]), dims[last]);
    }
  }

  // The guard `prod > LONG_MAX / d` fires exactly when the next product is too large.
  lemma GuardExact(prod: int, d: int)
    requires prod >= 1 && d >= 1
    ensures prod > LONG_MAX / d <==> prod * d > LONG_MAX
  {
    GuardQuotient(LONG_MAX, prod, d);
  }

  lemma GuardQuotient(max: int, prod: int, d: int)
    requires prod >= 1 && d >= 1
    ensures prod > max / d <==> prod * d > max
  {
    var q := max / d;
    assert max == d * q + max % d;
    if prod > q {
      MulMono(d, q + 1, prod);
      assert d * (q + 1) == d * q + d;
    } else {
      MulMono(d, prod, q);
    }
  }

  // None where an error is raised; no product past LONG_MAX is ever formed.
  method MeshNodeCount(nDims: int, text: string) returns (r: Option<int>)
    ensures r == if Lengths(text, 0).Some? && |Lengths(text, 0).value| == nDims && Product(Lengths(text, 0).value) <= 0x7FFF_FFFF_FFFF_FFFF
                 then Some(Product(Lengths(text, 0).value)) else None
  {
    var parsed := ParseDimLengths(text);
    if parsed.None? || |parsed.value| != nDims {
      return None;
    }
    LengthsPositive(text, 0);
    var dims, prod := parsed.value, 1;
    for i := 0 to |dims|
      invariant prod == Product(dims[..i]) && 1 <= prod <= LONG_MAX
    {
      assert dims[..i + 1][..i] == dims[..i];
      ProductGrows(dims, i + 1);
      GuardExact(prod, dims[i]);
      if prod > LONG_MAX / dims[i] {
        return None;
      }
      prod := prod * dims[i];
    }
    assert dims[..|dims|] == dims;
    r := Some(prod);
  }
}
