/** The dragonfly generator scripts/dragonfly-dally/dragonfly-dally-topo-gen.py. */
module DallyTopology {
  import opened Arith
  import opened Identity
  import opened Seqs
  import opened ReversalWiring
  import opened RouterMatrix

  // Params.__init__
  datatype Params = Params(radix: nat, c: nat) {
    function A(): nat { (radix + 1) / 2 }
    function H(): nat { A() / 2 }
    // the ports of a router without those to its hosts
    function Room(): int { radix - H() }
    function PerGroup(): nat { H() * A() }
    function Groups(): nat
      requires c >= 1
    {
      PerGroup() / c + 1
    }
    function W(): Wiring
      requires c >= 1
    {
      Wiring(A(), H(), Groups(), PerGroup())
    }
  }

  /* ---- writing ---- */

  // The adjacency entry of two routers of one group once the loops of writeIntra
  // have come to (si, di) and done the first gi groups of it.
  function IntraCell(a: int, s: int, d: int, si: int, di: int, gi: int): int
    requires a > 0
  {
    if s / a == d / a && IsNot(s % a, d % a)
       && (s % a < si || (s % a == si && d % a < di) || (s % a == si && d % a == di && s / a < gi)) then 1 else 0
  }

  // The file of writeIntra: the links of the first n routers of a group.
  function IntraFile(a: nat, n: nat): seq<(int, int)> {
    if n == 0 then [] else IntraFile(a, n - 1) + IntraRow(n - 1, a)
  }

  function IntraRow(s: nat, n: nat): seq<(int, int)> {
    if n == 0 then [] else IntraRow(s, n - 1) + if IsNot(s, n - 1) then [(s, n - 1)] else []
  }

  lemma {:induction false} IntraRowCount(si: nat, n: nat, s: int, d: int)
    ensures Count(IntraRow(si, n), (s, d)) == if si == s && 0 <= d < n && IsNot(s, d) then 1 else 0
  {
    if n > 0 {
      IntraRowCount(si, n - 1, s, d);
      CountConcat(IntraRow(si, n - 1), if IsNot(si, n - 1) then [(si, n - 1)] else [], (s, d));
      CountSnoc([], (si, n - 1), (s, d));
      assert [] + [(si, n - 1)] == [(si, n - 1)];
    }
  }

  // It names every ordered pair of different routers of a group once, and every router
  // from number 257 on with itself.
  lemma {:induction false} IntraFileCount(a: nat, n: nat, s: int, d: int)
    ensures Count(IntraFile(a, n), (s, d)) == if 0 <= s < n && 0 <= d < a && (s != d || s > SHARED) then 1 else 0
  {
    if n > 0 {
      IntraFileCount(a, n - 1, s, d);
      IntraRowCount(n - 1, a, s, d);
      CountConcat(IntraFile(a, n - 1), IntraRow(n - 1, a), (s, d));
    }
  }

  method WriteIntra(a: nat, g: nat, A: array2<int>) returns (intra: seq<(int, int)>)
    requires A.Length0 == A.Length1 == a * g && a >= 1
    requires forall s, d :: 0 <= s < A.Length0 && 0 <= d < A.Length0 ==> A[s, d] == 0
    modifies A
    ensures forall s, d :: 0 <= s < A.Length0 && 0 <= d < A.Length0 ==> A[s, d] == Intra(a, s, d)
    ensures intra == IntraFile(a, a)
  {
    intra := [];
    for si := 0 to a
      invariant intra == IntraFile(a, si)
      invariant forall s, d :: 0 <= s < A.Length0 && 0 <= d < A.Length0 ==> A[s, d] == IntraCell(a, s, d, si, 0, 0)
    {
      for di := 0 to a
        invariant intra == IntraFile(a, si) + IntraRow(si, di)
        invariant forall s, d :: 0 <= s < A.Length0 && 0 <= d < A.Length0 ==> A[s, d] == IntraCell(a, s, d, si, di, 0)
      {
        if IsNot(si, di) {
          intra := intra + [(si, di)];
          IntraColumn(a, g, A, si, di);
        } else {
          forall s, d | 0 <= s < A.Length0 && 0 <= d < A.Length0
            ensures IntraCell(a, s, d, si, di + 1, 0) == IntraCell(a, s, d, si, di, 0)
          {
            IntraSkip(a, s, d, si, di);
          }
        }
      }
      forall s, d | 0 <= s < A.Length0 && 0 <= d < A.Length0
        ensures IntraCell(a, s, d, si + 1, 0, 0) == IntraCell(a, s, d, si, a, 0)
      {
        IntraNext(a, s, d, si);
      }
    }
    forall s, d | 0 <= s < A.Length0 && 0 <= d < A.Length0 ensures IntraCell(a, s, d, a, 0, 0) == Intra(a, s, d) {
      IntraLast(a, s, d);
    }
  }

  lemma IntraSkip(a: int, s: int, d: int, si: nat, di: nat)
    requires a > 0 && 0 <= s && 0 <= d && !IsNot(si, di)
    ensures IntraCell(a, s, d, si, di + 1, 0) == IntraCell(a, s, d, si, di, 0)
  {
  }

  lemma IntraNext(a: int, s: int, d: int, si: int)
    requires a > 0 && 0 <= s && 0 <= d
    ensures IntraCell(a, s, d, si + 1, 0, 0) == IntraCell(a, s, d, si, a, 0)
  {
  }

  lemma IntraLast(a: int, s: int, d: int)
    requires a > 0 && 0 <= s && 0 <= d
    ensures IntraCell(a, s, d, a, 0, 0) == Intra(a, s, d)
  {
    assert s == a * (s / a) + s % a && d == a * (d / a) + d % a;
  }

  // What writeIntra leaves: one link each way between any two routers of a group, and one
  // from each router from number 257 on to itself.
  function Intra(a: int, s: int, d: int): int
    requires a > 0
  {
    if s / a == d / a && (s != d || s % a > SHARED) then 1 else 0
  }

  lemma IntraStep(a: int, s: int, d: int, si: nat, di: nat, gi: int)
    requires si < a && di < a && IsNot(si, di)
    ensures IntraCell(a, s, d, si, di, gi + 1) == IntraCell(a, s, d, si, di, gi)
              + if s == Gid(a, Router(gi, si)) && d == Gid(a, Router(gi, di)) then 1 else 0
  {
    GidIs(a, Router(gi, si), s);
    GidIs(a, Router(gi, di), d);
  }

  // The innermost loop of writeIntra.
  method IntraColumn(a: nat, g: nat, A: array2<int>, si: nat, di: nat)
    requires A.Length0 == A.Length1 == a * g && si < a && di < a && IsNot(si, di)
    requires forall s, d :: 0 <= s < A.Length0 && 0 <= d < A.Length0 ==> A[s, d] == IntraCell(a, s, d, si, di, 0)
    modifies A
    ensures forall s, d :: 0 <= s < A.Length0 && 0 <= d < A.Length0 ==> A[s, d] == IntraCell(a, s, d, si, di + 1, 0)
  {
    for gi := 0 to g
      invariant forall s, d :: 0 <= s < A.Length0 && 0 <= d < A.Length0 ==> A[s, d] == IntraCell(a, s, d, si, di, gi)
    {
      InRange(a, g, Router(gi, si));
      InRange(a, g, Router(gi, di));
      var src, dst := Gid(a, Router(gi, si)), Gid(a, Router(gi, di));
      forall s, d | 0 <= s < A.Length0 && 0 <= d < A.Length0
        ensures IntraCell(a, s, d, si, di, gi + 1) == IntraCell(a, s, d, si, di, gi) + if s == src && d == dst then 1 else 0
      {
        IntraStep(a, s, d, si, di, gi);
      }
      A[src, dst] := A[src, dst] + 1;
    }
    forall s, d | 0 <= s < A.Length0 && 0 <= d < A.Length0
      ensures IntraCell(a, s, d, si, di, g) == IntraCell(a, s, d, si, di + 1, 0)
    {
      GroupInRange(a, g, s);
    }
  }

  // The first loop of writeInter: which group each global port leads to.
  method GroupConnections(p: Params) returns (conns: seq<(int, int)>)
    requires p.c >= 1 && p.W().Valid()
    ensures conns == Pairs(p.W(), p.Groups())
  {
    conns := [];
    var g := p.Groups();
    for gi := 0 to g
      invariant conns == Pairs(p.W(), gi)
    {
      var others := OthersAfterMe(gi, g);
      for gl := 0 to p.PerGroup()
        invariant conns == Pairs(p.W(), gi) + GroupPairs(p.W(), gi, gl)
      {
        OthersPick(p.W(), gi, gl);
        conns := conns + [(gi, others[gl % |others|])];
      }
    }
  }

  lemma IndexParts(w: Wiring, i: nat)
    requires w.Valid() && i < w.g * w.ports
    ensures var x, p := i / w.ports, i % w.ports;
            && 0 <= x < w.g && 0 <= p < w.ports && x * w.ports + p == i
            && 0 <= p / w.h < w.a && 0 <= w.Other(x, p) < w.g && w.Other(x, p) != x
  {
    GroupInRange(w.ports, w.g, i);
    PortRange(w, i % w.ports);
    OtherRange(w, i / w.ports, i % w.ports);
  }

  // Position i in the list of group connections: its group, and the router that
  // `i // num_gc_per_router % num_routers_per_group` picks.
  lemma RouterOf(w: Wiring, i: nat)
    requires w.Valid() && i < w.g * w.ports
    ensures var x, p := i / w.ports, i % w.ports;
            && 0 <= x < w.g && 0 <= p < w.ports
            && (i / w.h) % w.a == p / w.h && w.Has(Router(x, p / w.h)) && w.Has(Router(w.Other(x, p), w.a - 1 - p / w.h))
            && |Pairs(w, w.g)| == |w.AllLinks()| == w.g * w.ports
            && Pairs(w, w.g)[i] == (x, w.Other(x, p)) && w.AllLinks()[i] == w.Link(x, p)
  {
    IndexParts(w, i);
    ListsAt(w, i / w.ports, i % w.ports, i);
  }

  lemma ListsAt(w: Wiring, x: nat, p: nat, i: nat)
    requires w.Valid() && x < w.g && p < w.ports && i == x * w.ports + p
    ensures (i / w.h) % w.a == p / w.h
    ensures |Pairs(w, w.g)| == |w.AllLinks()| == w.g * w.ports && i < w.g * w.ports
    ensures Pairs(w, w.g)[i] == (x, w.Other(x, p)) && w.AllLinks()[i] == w.Link(x, p)
  {
    PairsAt(w, w.g, x, p);
    LinksAt(w, w.g, x, p);
    RouterOfPort(w, x, p);
  }

  lemma RouterOfPort(w: Wiring, x: int, p: int)
    requires w.Valid() && 0 <= p < w.ports
    ensures ((x * w.ports + p) / w.h) % w.a == p / w.h
  {
    PortRange(w, p);
    var q, r := p / w.h, p % w.h;
    assert x * w.ports + p == w.h * (x * w.a + q) + r by {
      assert x * (w.a * w.h) == w.h * (x * w.a);
      assert w.h * (x * w.a + q) == w.h * (x * w.a) + w.h * q;
    }
    DivModUnique(x * w.ports + p, w.h, x * w.a + q, r);
    DivModUnique(x * w.a + q, w.a, x, q);
  }

  // writeInter: the file holds the links of the wiring, the matrix counts them.
  method WriteInter(p: Params, conns: seq<(int, int)>, A: array2<int>) returns (inter: seq<(int, int)>)
    requires p.c >= 1 && p.W().Valid() && conns == Pairs(p.W(), p.Groups())
    requires A.Length0 == A.Length1 == p.A() * p.Groups()
    modifies A
    ensures inter == Written(p.A(), p.W().AllLinks())
    ensures forall s, d :: 0 <= s < A.Length0 && 0 <= d < A.Length0 ==> A[s, d] == old(A[s, d]) + Count(inter, (s, d))
  {
    inter := [];
    var a, h := p.A(), p.H();
    ghost var w := p.W();
    RouterOf(w, 0) by { MulMono(w.ports, 1, w.g); }
    for i := 0 to |conns|
      invariant inter == Written(a, w.AllLinks()[..i])
      invariant forall s, d :: 0 <= s < A.Length0 && 0 <= d < A.Length0 ==> A[s, d] == old(A[s, d]) + Count(inter, (s, d))
    {
      RouterOf(w, i);
      var srcLocal := (i / h) % a;
      var src, dst := Router(conns[i].0, srcLocal), Router(conns[i].1, a - srcLocal - 1);
      var e := Enter(a, w.g, A, src, dst);
      forall s, d ensures Count(inter + [e], (s, d)) == Count(inter, (s, d)) + if (s, d) == e then 1 else 0 {
        CountSnoc(inter, e, (s, d));
      }
      inter := inter + [e];
    }
    assert w.AllLinks()[..|conns|] == w.AllLinks();
  }

  /* ---- the checks the script runs on its own output ---- */

  datatype Verdict = Fine | DivisionByZero | RadixExceeded | CountExceeded

  // No row and no column exceeds the radix, and no pair of groups its budget.
  ghost predicate Passes(p: Params, conns: seq<(int, int)>, A: array2<int>)
    requires A.Length0 == A.Length1
    reads A
  {
    && RowsFit(A, p.Room()) && ColumnsFit(A, p.Room())
    && (forall i :: 0 <= i < |conns| ==> Count(conns, conns[i]) <= p.c)
  }

  // verifyConnections
  method Verify(p: Params, conns: seq<(int, int)>, A: array2<int>) returns (v: Verdict)
    requires A.Length0 == A.Length1
    ensures v.Fine? <==> Passes(p, conns, A)
  {
    var ok := RowsWithin(A, p.Room());
    if !ok {
      return RadixExceeded;
    }
    ok := ColumnsWithin(A, p.Room());
    if !ok {
      return RadixExceeded;
    }
    var counts: map<(int, int), int> := map[];
    for i := 0 to |conns|
      invariant forall e :: e in counts <==> e in conns[..i]
      invariant forall e :: e in counts ==> counts[e] == Count(conns[..i], e)
      invariant forall e :: e !in counts ==> Count(conns[..i], e) == 0
    {
      var e := conns[i];
      assert conns[..i + 1] == conns[..i] + [e];
      assert forall x :: Count(conns[..i + 1], x) == Count(conns[..i], x) + if x == e then 1 else 0 by {
        forall x ensures Count(conns[..i + 1], x) == Count(conns[..i], x) + if x == e then 1 else 0 {
          CountSnoc(conns[..i], e, x);
        }
      }
      counts := counts[e := (if e in counts then counts[e] else 0) + 1];
    }
    assert conns[..|conns|] == conns;
    if e :| e in counts && counts[e] > p.c {
      assert e in conns;
      return CountExceeded;
    }
    forall i | 0 <= i < |conns| ensures Count(conns, conns[i]) <= p.c {
      assert conns[i] in counts;
    }
    return Fine;
  }

  /* ---- why the checks come out as they do ---- */

  function IntraCount(a: int, s: int, n: nat): int
    requires a > 0
  {
    if n == 0 then 0 else IntraCount(a, s, n - 1) + Intra(a, s, n - 1)
  }

  lemma {:induction false} IntraCountExact(a: int, s: int, n: nat)
    requires a > 0 && 0 <= s
    ensures IntraCount(a, s, n) == Own(a, s / a, n) - if s < n && s % a <= SHARED then 1 else 0
  {
    if n > 0 {
      IntraCountExact(a, s, n - 1);
    }
  }

  // The link of a router to itself, if it has one.
  function SelfLink(a: int, s: int): nat
    requires a > 0
  {
    if s % a > SHARED then 1 else 0
  }

  lemma IntraDegree(a: int, g: int, s: int)
    requires a > 0 && 0 <= s < a * g
    ensures IntraCount(a, s, a * g) == a - 1 + SelfLink(a, s)
  {
    GroupInRange(a, g, s);
    OwnAll(a, g, s / a, a * g);
    IntraCountExact(a, s, a * g);
  }

  // The matrix that the script has filled.
  ghost predicate Filled(a: int, inter: seq<(int, int)>, A: array2<int>)
    requires a > 0
    reads A
  {
    forall s, d :: 0 <= s < A.Length0 && 0 <= d < A.Length1 ==> A[s, d] == Intra(a, s, d) + Count(inter, (s, d))
  }

  lemma {:induction false} RowSumIs(a: int, inter: seq<(int, int)>, A: array2<int>, s: int, n: nat)
    requires a > 0 && Filled(a, inter, A) && 0 <= s < A.Length0 && n <= A.Length1
    ensures RowSum(A, s, n) == IntraCount(a, s, n) + RowCount(inter, s, n)
  {
    if n > 0 {
      RowSumIs(a, inter, A, s, n - 1);
    }
  }

  // Every router sends h global links.
  lemma RowDegree(p: Params, inter: seq<(int, int)>, A: array2<int>, s: int)
    requires p.c >= 1 && p.W().Valid() && A.Length0 == A.Length1 == p.A() * p.Groups() && 0 <= s < A.Length0
    requires inter == Written(p.A(), p.W().AllLinks()) && Filled(p.A(), inter, A)
    ensures RowSum(A, s, A.Length0) == p.A() - 1 + SelfLink(p.A(), s) + p.H()
  {
    var w := p.W();
    RouterAtHas(w.a, w.g, s);
    var r := RouterAt(w.a, s);
    RowSumIs(w.a, inter, A, s, A.Length0);
    IntraDegree(w.a, w.g, s);
    LinksHave(w, w.g);
    RowCountWritten(w.a, w.g, w.AllLinks(), r);
    OutDegree(w, w.g, r);
  }

  // With the condition the matrix is symmetric.
  lemma MatrixSymmetric(p: Params, inter: seq<(int, int)>, A: array2<int>, s: int, d: int)
    requires p.c >= 1 && p.W().Valid() && A.Length0 == A.Length1 == p.A() * p.Groups() && 0 <= s < A.Length0 && 0 <= d < A.Length0
    requires inter == Written(p.A(), p.W().AllLinks()) && Filled(p.A(), inter, A)
    requires p.PerGroup() % (p.Groups() - 1) == 0
    ensures A[s, d] == A[d, s]
  {
    WrittenSymmetric(p.W(), s, d);
  }

  lemma WrittenSymmetric(w: Wiring, s: int, d: int)
    requires w.Valid() && w.ports % (w.g - 1) == 0 && 0 <= s < w.a * w.g && 0 <= d < w.a * w.g
    ensures Count(Written(w.a, w.AllLinks()), (s, d)) == Count(Written(w.a, w.AllLinks()), (d, s))
  {
    RouterAtHas(w.a, w.g, s);
    var r := RouterAt(w.a, s);
    RouterAtHas(w.a, w.g, d);
    var q := RouterAt(w.a, d);
    SymmetricCount(w, w.AllLinks(), r, q);
  }

  lemma SymmetricCount(w: Wiring, links: seq<(Router, Router)>, r: Router, q: Router)
    requires w.Valid() && w.ports % (w.g - 1) == 0 && w.Has(r) && w.Has(q) && links == w.AllLinks()
    ensures var L := Written(w.a, links); Count(L, (Gid(w.a, r), Gid(w.a, q))) == Count(L, (Gid(w.a, q), Gid(w.a, r)))
  {
    LinksHave(w, w.g);
    CountWritten(w.a, w.g, links, r, q);
    CountWritten(w.a, w.g, links, q, r);
    SymmetricIffDivides(w);
  }

  // c divides the ports of a group exactly when the group count divides them into c.
  lemma QuotientExact(n: int, c: int)
    requires c >= 1 && n >= c
    ensures n / c >= 1 && c * (n / c) <= n
    ensures n % c == 0 ==> n % (n / c) == 0 && n / (n / c) == c
    ensures n % c != 0 ==> n / (n / c) > c || (n / (n / c) == c && n % (n / c) > 0)
  {
    var m := n / c;
    if m < 1 {
      MulMono(c, m, 0);
    }
    QuotientOf(n, c, m, n % c);
  }

  lemma QuotientOf(n: int, c: int, m: int, r: int)
    requires c >= 1 && m >= 1 && 0 <= r < c && n == c * m + r
    ensures r == 0 ==> n % m == 0 && n / m == c
    ensures r != 0 ==> n / m > c || (n / m == c && n % m > 0)
  {
    if r == 0 {
      DivModUnique(n, m, c, 0);
    } else if r < m {
      DivModUnique(n, m, c, r);
    } else {
      assert m * (n / m - c) == r - n % m;
      if n / m - c <= 0 {
        MulMono(m, n / m - c, 0);
      }
    }
  }

  // No two groups have more than c links exactly when c divides the ports of a group.
  lemma PairCheck(p: Params)
    requires p.c >= 1 && p.W().Valid()
    ensures (forall e :: e in Pairs(p.W(), p.Groups()) ==> Count(Pairs(p.W(), p.Groups()), e) <= p.c) <==> p.PerGroup() % p.c == 0
  {
    var w := p.W();
    var pairs := Pairs(w, w.g);
    if p.PerGroup() < p.c {
      DivModUnique(p.PerGroup(), p.c, 0, p.PerGroup());
    }
    QuotientExact(p.PerGroup(), p.c);
    RouterOf(w, 0) by { MulMono(w.ports, 1, w.g); }
    assert w.Other(0, 0) == 1 by { DivModUnique(0, w.g - 1, 0, 0); DivModUnique(1, w.g, 0, 1); }
    DivModUnique(0, w.ports, 0, 0);
    assert pairs[0] == (0, 1) && (0, 1) in pairs;
    PairsCount(w, w.g, 0, 1);
    if p.PerGroup() % p.c == 0 {
      forall e | e in pairs ensures Count(pairs, e) <= p.c {
        var i :| 0 <= i < |pairs| && pairs[i] == e;
        RouterOf(w, i);
        OtherRange(w, e.0, i % w.ports);
        PairsCount(w, w.g, e.0, e.1);
      }
    }
  }

  // A router has room for its links, also for one to itself.
  predicate RadixFits(p: Params) {
    p.A() <= SHARED + 1 || p.A() + 2 * p.H() <= p.radix
  }

  lemma RowFits(p: Params, self: nat)
    requires self <= 1 && (RadixFits(p) ==> self == 0 || p.A() + 2 * p.H() <= p.radix)
    ensures RadixFits(p) ==> p.A() - 1 + self + p.H() + p.H() <= p.radix
    ensures !RadixFits(p) && self == 1 ==> p.A() - 1 + self + p.H() + p.H() > p.radix
  {
  }

  // What a caller can check beforehand.
  predicate Accepts(p: Params)
    requires p.c >= 1
  {
    p.PerGroup() % p.c == 0 && RadixFits(p)
  }

  // The rows pass exactly when there is room for all links.
  lemma RowsCheck(p: Params, inter: seq<(int, int)>, A: array2<int>)
    requires p.c >= 1 && p.W().Valid() && A.Length0 == A.Length1 == p.A() * p.Groups()
    requires inter == Written(p.A(), p.W().AllLinks()) && Filled(p.A(), inter, A)
    ensures RowsFit(A, p.Room()) <==> RadixFits(p)
  {
    if RadixFits(p) {
      forall s | 0 <= s < A.Length0 ensures RowSum(A, s, A.Length1) <= p.Room() {
        RowDegree(p, inter, A, s);
        RowFits(p, SelfLink(p.A(), s));
      }
    } else {
      var s := SHARED + 1;
      MulMono(p.A(), 1, p.Groups());
      DivModUnique(s, p.A(), 0, s);
      RowDegree(p, inter, A, s);
      RowFits(p, 1);
    }
  }

  lemma CountedPairs(conns: seq<(int, int)>, c: int)
    ensures (forall e :: e in conns ==> Count(conns, e) <= c) <==> forall i :: 0 <= i < |conns| ==> Count(conns, conns[i]) <= c
  {
    forall i | 0 <= i < |conns| && Count(conns, conns[i]) > c ensures conns[i] in conns {
    }
  }

  // If the links divide, the columns are as the rows.
  lemma ColumnsCheck(p: Params, inter: seq<(int, int)>, A: array2<int>)
    requires p.c >= 1 && p.W().Valid() && A.Length0 == A.Length1 == p.A() * p.Groups()
    requires inter == Written(p.A(), p.W().AllLinks()) && Filled(p.A(), inter, A) && p.PerGroup() % p.c == 0
    ensures RowsFit(A, p.Room()) <==> ColumnsFit(A, p.Room())
  {
    if p.PerGroup() < p.c {
      DivModUnique(p.PerGroup(), p.c, 0, p.PerGroup());
    }
    QuotientExact(p.PerGroup(), p.c);
    forall s, d | 0 <= s < A.Length0 && 0 <= d < A.Length0 ensures A[s, d] == A[d, s] {
      MatrixSymmetric(p, inter, A, s, d);
    }
    ColumnsAsRows(A, p.Room());
  }

  lemma Checks(p: Params, conns: seq<(int, int)>, inter: seq<(int, int)>, A: array2<int>)
    requires p.c >= 1 && p.W().Valid() && conns == Pairs(p.W(), p.Groups())
    requires A.Length0 == A.Length1 == p.A() * p.Groups()
    requires inter == Written(p.A(), p.W().AllLinks()) && Filled(p.A(), inter, A)
    ensures Passes(p, conns, A) <==> Accepts(p)
  {
    RowsCheck(p, inter, A);
    PairCheck(p);
    CountedPairs(conns, p.c);
    if p.PerGroup() % p.c == 0 {
      ColumnsCheck(p, inter, A);
    }
  }

  // Where there is no room: from radix 515 on, every fourth.
  lemma NoRoomIff(p: Params)
    ensures !RadixFits(p) <==> p.radix >= 515 && p.radix % 4 == 3
  {
  }

  // With radix 515 and all 33282 links of a group wanted between two groups, the links
  // divide and the radix is exceeded.
  lemma SelfLinkExceeds()
    ensures var p := Params(515, 33282); p.PerGroup() % p.c == 0 && !Accepts(p) && p.Groups() == 2
  {
    var p := Params(515, 33282);
    assert p.A() == 258 && p.H() == 129 && p.PerGroup() == 33282;
  }

  // A radix below 3 leaves one router and no link.
  lemma OneRouter(p: Params, A: array2<int>)
    requires p.c >= 1 && p.PerGroup() == 0 && p.A() > 0 && A.Length0 == A.Length1 == p.A() * p.Groups()
    requires Filled(p.A(), [], A)
    ensures Passes(p, [], A) && Accepts(p)
  {
    DivModUnique(0, p.c, 0, 0);
    assert p.H() == 0 by {
      if p.H() >= 1 { MulMono(p.A(), 1, p.H()); }
    }
    assert A.Length0 == 1 && A[0, 0] == 0;
    assert RowSum(A, 0, 0) == 0 && ColSum(A, 0, 0) == 0;
    assert RowSum(A, 0, 1) == RowSum(A, 0, 0) + A[0, 0];
    assert ColSum(A, 0, 1) == ColSum(A, 0, 0) + A[0, 0];
  }

  // What an accepted run has written: a symmetric network with exactly c links from
  // each group to each other group.
  lemma AcceptedIsRegular(p: Params)
    requires p.c >= 1 && p.PerGroup() > 0 && p.PerGroup() % p.c == 0
    ensures p.W().Valid() && Symmetric(p.W())
    ensures forall x, y :: 0 <= x < p.Groups() && 0 <= y < p.Groups() && x != y ==>
              Count(Pairs(p.W(), p.Groups()), (x, y)) == p.c
  {
    if p.PerGroup() < p.c {
      DivModUnique(p.PerGroup(), p.c, 0, p.PerGroup());
    }
    QuotientExact(p.PerGroup(), p.c);
    var w := p.W();
    SymmetricIffDivides(w);
    forall x, y | 0 <= x < w.g && 0 <= y < w.g && x != y ensures Count(Pairs(w, w.g), (x, y)) == p.c {
      PairsCount(w, w.g, x, y);
      OffsetBack(w, x, y);
    }
  }

  // writeInter and verifyConnections, after writeIntra.
  method WriteAndVerify(p: Params, A: array2<int>) returns (v: Verdict, inter: seq<(int, int)>)
    requires p.c >= 1 && p.W().Valid() && A.Length0 == A.Length1 == p.A() * p.Groups() && Filled(p.A(), [], A)
    modifies A
    ensures v.Fine? <==> Accepts(p)
    ensures inter == Written(p.A(), p.W().AllLinks())
  {
    var conns := GroupConnections(p);
    inter := WriteInter(p, conns, A);
    Checks(p, conns, inter, A);
    v := Verify(p, conns, A);
  }

  // The three cases of the two arguments: no router, one group, and more.
  lemma NoRouter(p: Params, A: array2<int>)
    requires p.c >= 1 && p.A() == 0 && A.Length0 == A.Length1 == 0
    ensures p.PerGroup() == 0 && Passes(p, [], A) && Accepts(p)
  {
    DivModUnique(0, p.c, 0, 0);
  }

  lemma OneGroup(p: Params)
    requires p.c >= 1 && p.PerGroup() > 0 && p.Groups() == 1
    ensures !Accepts(p)
  {
    if p.PerGroup() % p.c == 0 {
      QuotientPositive(p.PerGroup(), p.c);
    }
  }

  lemma MoreGroups(p: Params)
    requires p.c >= 1 && p.PerGroup() > 0 && p.Groups() != 1
    ensures p.W().Valid()
  {
    QuotientNat(p.PerGroup(), p.c);
    if p.H() == 0 || p.A() == 0 {
      MulMono(0, p.H(), p.A());
    }
  }

  method Start(a: nat, g: nat) returns (A: array2<int>)
    ensures fresh(A) && A.Length0 == A.Length1 == a * g
    ensures a >= 1 ==> Filled(a, [], A)
  {
    A := new int[a * g, a * g]((_, _) => 0);
    if a >= 1 {
      var intra := WriteIntra(a, g, A);
    }
  }

  // The whole script, from the two arguments to the verdict: it ends well exactly when the
  // wanted links divide the global links of a group and no router with a link to itself
  // exceeds its radix.
  method Generate(p: Params) returns (v: Verdict, inter: seq<(int, int)>)
    requires p.c >= 1
    ensures v.Fine? <==> Accepts(p)
    ensures v.Fine? && p.PerGroup() > 0 ==> inter == Written(p.A(), p.W().AllLinks())
  {
    inter := [];
    var g := p.Groups();
    var A := Start(p.A(), g);
    if p.A() == 0 {
      NoRouter(p, A);
      v := Verify(p, [], A);
    } else if p.PerGroup() == 0 {
      OneRouter(p, A);
      v := Verify(p, [], A);
    } else if g == 1 {
      // gl % len(other_groups) with no other group
      OneGroup(p);
      v := DivisionByZero;
    } else {
      MoreGroups(p);
      v, inter := WriteAndVerify(p, A);
    }
  }
}
