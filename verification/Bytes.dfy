/** Fixed-width numbers as bytes, least significant byte first: the formats of Python's
    struct module that the statistics files use.  A floating-point number stands for its
    bit pattern. */
module Bytes {
  import opened Arith
  import opened Seqs

  type Byte = x: int | 0 <= x < 256

  datatype Code = U32 | I32 | F32 | U64 | I64 | F64

  function Width(c: Code): nat {
    if c.U32? || c.I32? || c.F32? then 4 else 8
  }

  function Power(k: nat): (r: nat)
    ensures r >= 1
  {
    if k == 0 then 1 else 256 * Power(k - 1)
  }

  function Number(s: seq<Byte>): nat {
    if s == [] then 0 else s[0] + 256 * Number(s[1..])
  }

  function Digits(n: nat, k: nat): (s: seq<Byte>)
    ensures |s| == k
  {
    if k == 0 then [] else [n % 256] + Digits(n / 256, k - 1)
  }

  lemma {:induction false} NumberBound(s: seq<Byte>)
    ensures Number(s) < Power(|s|)
  {
    if s != [] {
      NumberBound(s[1..]);
    }
  }

  lemma {:induction false} NumberOfDigits(n: nat, k: nat)
    requires n < Power(k)
    ensures Number(Digits(n, k)) == n
  {
    if k > 0 {
      NumberOfDigits(n / 256, k - 1);
      assert Digits(n, k)[1..] == Digits(n / 256, k - 1);
    }
  }

  lemma {:induction false} DigitsOfNumber(s: seq<Byte>)
    ensures Digits(Number(s), |s|) == s
  {
    if s != [] {
      DigitsOfNumber(s[1..]);
      DivModUnique(Number(s), 256, Number(s[1..]), s[0]);
    }
  }

  /* ---- signed and unsigned fields ---- */

  predicate Signed(c: Code) {
    c.I32? || c.I64?
  }

  // Two to the number of bits of a field.
  function Limit(c: Code): nat {
    if Width(c) == 4 then 0x1_0000_0000 else 0x1_0000_0000_0000_0000
  }

  lemma LimitIsPower(c: Code)
    ensures Limit(c) == Power(Width(c))
  {
    assert Power(2) == 256 * Power(1) && Power(3) == 256 * Power(2) && Power(4) == 256 * Power(3);
    assert Power(5) == 256 * Power(4) && Power(6) == 256 * Power(5) && Power(7) == 256 * Power(6) && Power(8) == 256 * Power(7);
  }

  // What fits into a field.
  predicate Fits(c: Code, v: int) {
    if Signed(c) then -(Limit(c) / 2) <= v < Limit(c) / 2 else 0 <= v < Limit(c)
  }

  function Decode(c: Code, s: seq<Byte>): int
    requires |s| == Width(c)
  {
    if Signed(c) && Number(s) >= Limit(c) / 2 then Number(s) - Limit(c) else Number(s)
  }

  // Two's complement.
  function Encode(c: Code, v: int): (s: seq<Byte>)
    requires Fits(c, v)
    ensures |s| == Width(c)
  {
    Digits(if v < 0 then v + Limit(c) else v, Width(c))
  }

  lemma DecodeEncode(c: Code, v: int)
    requires Fits(c, v)
    ensures Decode(c, Encode(c, v)) == v
  {
    LimitIsPower(c);
    NumberOfDigits(if v < 0 then v + Limit(c) else v, Width(c));
  }

  lemma EncodeDecode(c: Code, s: seq<Byte>)
    requires |s| == Width(c)
    ensures Fits(c, Decode(c, s)) && Encode(c, Decode(c, s)) == s
  {
    LimitIsPower(c);
    NumberBound(s);
    DigitsOfNumber(s);
  }

  // What bytes mean, spelled out: the first one counts units, each next one 256 times as
  // much as the one before, and the upper half of a signed field is below zero.
  lemma FourBytes(a: Byte, b: Byte, c: Byte, d: Byte)
    ensures var n := a + 256 * b + 65536 * c + 16777216 * d;
            && Decode(U32, [a, b, c, d]) == n && Decode(F32, [a, b, c, d]) == n
            && Decode(I32, [a, b, c, d]) == if d < 128 then n else n - 4294967296
  {
    OneMore(d, []);
    OneMore(c, [d]);
    OneMore(b, [c, d]);
    OneMore(a, [b, c, d]);
    assert [d] + [] == [d] && [c] + [d] == [c, d] && [b] + [c, d] == [b, c, d] && [a] + [b, c, d] == [a, b, c, d];
  }

  lemma OneMore(a: Byte, s: seq<Byte>)
    ensures Number([a] + s) == a + 256 * Number(s)
  {
    assert ([a] + s)[1..] == s;
  }

  lemma EightBytes(s: seq<Byte>, t: seq<Byte>)
    requires |s| == |t| == 4
    ensures var n := Decode(U32, s) + 4294967296 * Decode(U32, t);
            && Decode(U64, s + t) == n && Decode(F64, s + t) == n
            && Decode(I64, s + t) == if t[3] < 128 then n else n - 18446744073709551616
  {
    NumberConcat(s, t);
    assert Power(4) == 4294967296 by { LimitIsPower(U32); }
    assert s == [s[0], s[1], s[2], s[3]] && t == [t[0], t[1], t[2], t[3]];
    FourBytes(s[0], s[1], s[2], s[3]);
    FourBytes(t[0], t[1], t[2], t[3]);
  }

  lemma {:induction false} NumberConcat(s: seq<Byte>, t: seq<Byte>)
    ensures Number(s + t) == Number(s) + Power(|s|) * Number(t)
  {
    if s == [] {
      assert s + t == t;
    } else {
      NumberConcat(s[1..], t);
      assert (s + t)[1..] == s[1..] + t;
      Thrice(256, Power(|s| - 1), Number(t));
    }
  }

  lemma Thrice(a: int, b: int, c: int)
    ensures a * (b * c) == (a * b) * c
  {
  }

  /* ---- several fields one after the other ---- */

  function Size(fmt: seq<Code>): nat {
    if fmt == [] then 0 else Size(fmt[..|fmt| - 1]) + Width(fmt[|fmt| - 1])
  }

  // struct.unpack_from at the start of s.
  function Unpack(fmt: seq<Code>, s: seq<Byte>): (r: seq<int>)
    requires Size(fmt) <= |s|
    ensures |r| == |fmt|
  {
    if fmt == [] then [] else
    var n := |fmt| - 1;
    Unpack(fmt[..n], s) + [Decode(fmt[n], s[Size(fmt[..n])..Size(fmt)])]
  }

  ghost predicate AllFit(fmt: seq<Code>, values: seq<int>) {
    |values| == |fmt| && forall i :: 0 <= i < |fmt| ==> Fits(fmt[i], values[i])
  }

  function Pack(fmt: seq<Code>, values: seq<int>): (s: seq<Byte>)
    requires AllFit(fmt, values)
    ensures |s| == Size(fmt)
  {
    if fmt == [] then [] else
    var n := |fmt| - 1;
    Pack(fmt[..n], values[..n]) + Encode(fmt[n], values[n])
  }

  // Unpacking inverts packing, whatever follows.
  lemma {:induction false} UnpackPack(fmt: seq<Code>, values: seq<int>, more: seq<Byte>)
    requires AllFit(fmt, values)
    ensures Unpack(fmt, Pack(fmt, values) + more) == values
  {
    if fmt != [] {
      var n := |fmt| - 1;
      var start, last := Pack(fmt[..n], values[..n]), Encode(fmt[n], values[n]);
      UnpackPack(fmt[..n], values[..n], last + more);
      DecodeEncode(fmt[n], values[n]);
      assert Pack(fmt, values) + more == start + (last + more);
      assert (start + (last + more))[|start|..|start| + |last|] == last;
      assert values == values[..n] + [values[n]];
    }
  }

  // And packing inverts unpacking.
  lemma {:induction false} PackUnpack(fmt: seq<Code>, s: seq<Byte>)
    requires Size(fmt) <= |s|
    ensures AllFit(fmt, Unpack(fmt, s)) && Pack(fmt, Unpack(fmt, s)) == s[..Size(fmt)]
  {
    if fmt != [] {
      var n := |fmt| - 1;
      var field := s[Size(fmt[..n])..Size(fmt)];
      PackUnpack(fmt[..n], s);
      EncodeDecode(fmt[n], field);
      PackSnoc(fmt[..n], fmt[n], Unpack(fmt[..n], s), Decode(fmt[n], field));
      assert fmt == fmt[..n] + [fmt[n]];
      Rejoin(s, Size(fmt[..n]), Size(fmt));
    }
  }

  lemma PackSnoc(fmt: seq<Code>, c: Code, values: seq<int>, v: int)
    requires AllFit(fmt, values) && Fits(c, v)
    ensures AllFit(fmt + [c], values + [v]) && Pack(fmt + [c], values + [v]) == Pack(fmt, values) + Encode(c, v)
  {
    assert (fmt + [c])[..|fmt|] == fmt && (values + [v])[..|fmt|] == values;
  }

  // One more field.
  lemma UnpackSnoc(fmt: seq<Code>, c: Code, s: seq<Byte>)
    ensures Size(fmt + [c]) == Size(fmt) + Width(c)
    ensures Size(fmt + [c]) <= |s| ==> Unpack(fmt + [c], s) == Unpack(fmt, s) + [Decode(c, s[Size(fmt)..Size(fmt) + Width(c)])]
  {
    assert (fmt + [c])[..|fmt|] == fmt;
  }

  // The first i fields, and one more, lie within the whole.
  lemma {:induction false} SizePrefix(fmt: seq<Code>, i: nat)
    requires i < |fmt|
    ensures Size(fmt[..i + 1]) == Size(fmt[..i]) + Width(fmt[i]) <= Size(fmt)
    decreases |fmt|
  {
    var n := |fmt| - 1;
    if i < n {
      SizePrefix(fmt[..n], i);
      assert fmt[..n][..i] == fmt[..i] && fmt[..n][..i + 1] == fmt[..i + 1];
    } else {
      assert fmt[..i + 1] == fmt;
    }
  }

  // Each field is read from its own bytes, which come right after those of the fields
  // before it.
  lemma {:induction false} FieldAt(fmt: seq<Code>, s: seq<Byte>, i: nat)
    requires i < |fmt| && Size(fmt) <= |s|
    ensures Size(fmt[..i]) + Width(fmt[i]) <= Size(fmt)
    ensures Unpack(fmt, s)[i] == Decode(fmt[i], s[Size(fmt[..i])..Size(fmt[..i]) + Width(fmt[i])])
    decreases |fmt|
  {
    var n := |fmt| - 1;
    if i < n {
      FieldAt(fmt[..n], s, i);
      assert fmt[..n][..i] == fmt[..i];
      assert Unpack(fmt, s)[i] == Unpack(fmt[..n], s)[i];
    }
  }

  // at[i] is where field i begins, and the last entry is where the fields end.
  ghost predicate Begins(fmt: seq<Code>, at: seq<nat>) {
    |at| == |fmt| + 1 && at[0] == 0 && forall i :: 0 <= i < |fmt| ==> at[i + 1] == at[i] + Width(fmt[i])
  }

  lemma {:induction false} Offsets(fmt: seq<Code>, at: seq<nat>)
    requires Begins(fmt, at)
    ensures Size(fmt) == at[|fmt|]
  {
    if fmt != [] {
      var n := |fmt| - 1;
      Offsets(fmt[..n], at[..n + 1]);
      assert at[n + 1] == at[n] + Width(fmt[n]);
    }
  }

  lemma AtOffset(fmt: seq<Code>, at: seq<nat>, s: seq<Byte>, i: nat)
    requires Begins(fmt, at) && i < |fmt| && Size(fmt) <= |s|
    ensures at[i + 1] == at[i] + Width(fmt[i]) <= |s| && Unpack(fmt, s)[i] == Decode(fmt[i], s[at[i]..at[i + 1]])
  {
    assert at[i + 1] == at[i] + Width(fmt[i]);
    Offsets(fmt[..i], at[..i + 1]);
    FieldAt(fmt, s, i);
  }

  lemma PackPrefix(fmt: seq<Code>, values: seq<int>, i: nat)
    requires AllFit(fmt, values) && i < |fmt|
    ensures Pack(fmt[..i + 1], values[..i + 1]) == Pack(fmt[..i], values[..i]) + Encode(fmt[i], values[i])
  {
    assert fmt[..i + 1] == fmt[..i] + [fmt[i]] && values[..i + 1] == values[..i] + [values[i]];
    PackSnoc(fmt[..i], fmt[i], values[..i], values[i]);
  }

  lemma {:induction false} SizeConcat(f: seq<Code>, g: seq<Code>)
    ensures Size(f + g) == Size(f) + Size(g)
    decreases |g|
  {
    if g == [] {
      assert f + g == f;
    } else {
      var n := |g| - 1;
      SizeConcat(f, g[..n]);
      assert (f + g)[..|f + g| - 1] == f + g[..n];
    }
  }

  lemma {:induction false} UniformWidth(fmt: seq<Code>, w: nat)
    requires forall i :: 0 <= i < |fmt| ==> Width(fmt[i]) == w
    ensures Size(fmt) == w * |fmt|
  {
    if fmt != [] {
      var n := |fmt| - 1;
      UniformWidth(fmt[..n], w);
      assert w * (n + 1) == w * n + w;
    }
  }
}
