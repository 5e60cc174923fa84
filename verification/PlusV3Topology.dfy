/** The relative arrangement of scripts/dragonfly-plus/dragonfly-plus-topo-gen-v3.py,
    in both of its branches.  A group has s spines with h global ports each. */
module PlusV3Topology {
  import opened Arith
  import opened Residues
  import opened Seqs
  import opened ReversalWiring
  import opened PairwiseWiring

  // How many groups after x group y comes, less one: `(y - x + g) % g - 1`.
  function Step(g: int, x: int, y: int): int
    requires g > 0
  {
    (y - x + g) % g - 1
  }

  lemma StepBack(g: int, x: int, y: int)
    requires 0 <= x < g && 0 <= y < g && x != y
    ensures 0 <= Step(g, x, y) <= g - 2 && Step(g, y, x) == g - 2 - Step(g, x, y)
    ensures Step(g, x, y) == if y > x then y - x - 1 else y - x - 1 + g
  {
    if y > x {
      DivModUnique(y - x + g, g, 1, y - x);
      DivModUnique(x - y + g, g, 0, x - y + g);
    } else {
      DivModUnique(y - x + g, g, 0, y - x + g);
      DivModUnique(x - y + g, g, 1, x - y);
    }
  }

  /* ---- the sparse branch: fewer ports per spine than other groups ---- */

  // Link number i from group x to group y.
  function SparseLink(g: int, h: int, x: int, y: int, i: int): (Router, Router)
    requires g > 0 && h > 0
  {
    (Router(x, (Step(g, x, y) + (g - 1) * i) / h), Router(y, (Step(g, y, x) + (g - 1) * i) / h))
  }

  function SparsePair(g: int, h: int, x: int, y: int, n: nat): seq<(Router, Router)>
    requires g > 0 && h > 0
  {
    if n == 0 then [] else SparsePair(g, h, x, y, n - 1) + [SparseLink(g, h, x, y, n - 1)]
  }

  function SparsePairs(g: int, h: int, b: nat): (int, int) -> seq<(Router, Router)>
    requires g > 0 && h > 0
  {
    (x: int, y: int) => SparsePair(g, h, x, y, b)
  }

  function Sparse(g: nat, h: int, b: nat): seq<(Router, Router)>
    requires g > 0 && h > 0
  {
    AllOf(SparsePairs(g, h, b), g, g)
  }

  // writeInterconnectionFile, sparse branch; the assertion of rtrgid holds, and with
  // room to spare: the spine is one of the s spines.
  method WriteSparse(g: nat, s: nat, h: nat) returns (links: seq<(Router, Router)>)
    requires g >= 2 && s >= 1 && 1 <= h < g - 1
    ensures links == Sparse(g, h, h * s / (g - 1))
    ensures Within(g, s, links)
  {
    var b := h * s / (g - 1);
    QuotientFits(h * s, g - 1);
    links := WriteAll(g, s, h, b);
  }

  method WriteAll(g: nat, s: nat, h: nat, b: nat) returns (links: seq<(Router, Router)>)
    requires g >= 2 && s >= 1 && h >= 1 && (g - 1) * b <= h * s
    ensures links == Sparse(g, h, b) && Within(g, s, links)
  {
    links := [];
    ghost var pairs := SparsePairs(g, h, b);
    for x := 0 to g
      invariant links == AllOf(pairs, g, x) && Within(g, s, links)
    {
      var row := WriteRow(g, s, h, b, x, pairs);
      links := links + row;
    }
  }

  method WriteRow(g: nat, s: nat, h: nat, b: nat, x: nat, ghost pairs: (int, int) -> seq<(Router, Router)>) returns (links: seq<(Router, Router)>)
    requires g >= 2 && s >= 1 && h >= 1 && (g - 1) * b <= h * s && x < g
    requires forall y :: pairs(x, y) == SparsePair(g, h, x, y, b)
    ensures links == RowOf(pairs, x, g) && Within(g, s, links)
  {
    links := [];
    for y := 0 to g
      invariant links == RowOf(pairs, x, y) && Within(g, s, links)
    {
      if x != y {
        var more := WritePair(g, s, h, b, x, y);
        assert more == Cell(pairs, x, y);
        links := links + more;
      } else {
        assert Cell(pairs, x, y) == [];
      }
    }
  }

  method WritePair(g: nat, s: nat, h: nat, b: nat, x: nat, y: nat) returns (links: seq<(Router, Router)>)
    requires g >= 2 && s >= 1 && h >= 1 && (g - 1) * b <= h * s && x < g && y < g && x != y
    ensures links == SparsePair(g, h, x, y, b) && Within(g, s, links)
  {
    links := [];
    StepBack(g, x, y);
    for i := 0 to b
      invariant links == SparsePair(g, h, x, y, i) && Within(g, s, links)
    {
      var srcP := (y - x + g) % g - 1 + (g - 1) * i;
      var dstP := (x - y + g) % g - 1 + (g - 1) * i;
      PortInRange(g, s, h, b, Step(g, x, y), i);
      PortInRange(g, s, h, b, Step(g, y, x), i);
      links := links + [(Router(x, srcP / h), Router(y, dstP / h))];
    }
  }

  predicate InNetwork(g: int, s: int, r: Router) {
    0 <= r.group < g && 0 <= r.number < s
  }

  predicate Within(g: int, s: int, links: seq<(Router, Router)>) {
    forall i :: 0 <= i < |links| ==> InNetwork(g, s, links[i].0) && InNetwork(g, s, links[i].1)
  }

  lemma QuotientFits(n: nat, m: nat)
    requires m >= 1
    ensures 0 <= n / m && m * (n / m) <= n
  {
    if n / m < 0 {
      MulMono(m, n / m, -1);
    }
  }

  lemma PortInRange(g: int, s: int, h: int, b: int, k: int, i: int)
    requires g >= 2 && s >= 1 && h >= 1 && 0 <= k <= g - 2 && 0 <= i < b && (g - 1) * b <= h * s
    ensures 0 <= (k + (g - 1) * i) / h < s
  {
    MulMono(g - 1, i + 1, b);
    assert (g - 1) * (i + 1) == (g - 1) * i + (g - 1);
    MulMono(g - 1, 0, i);
    QuotientBelow(k + (g - 1) * i, h, s);
  }

  lemma QuotientBelow(p: int, h: int, s: int)
    requires h >= 1 && 0 <= p < h * s
    ensures 0 <= p / h < s
  {
    if p / h >= s {
      MulMono(h, s, p / h);
    }
  }

  // Different ports for different (group, i): the port names both.
  lemma PortsDiffer(g: int, k: int, i: int, l: int, j: int)
    requires g >= 2 && 0 <= k <= g - 2 && 0 <= l <= g - 2
    ensures k + (g - 1) * i == l + (g - 1) * j <==> k == l && i == j
  {
    DivModUnique(k + (g - 1) * i, g - 1, i, k);
    DivModUnique(l + (g - 1) * j, g - 1, j, l);
  }

  lemma {:induction false} PairReversed(g: int, h: int, x: int, y: int, n: nat, r: Router, q: Router)
    requires g > 0 && h > 0
    ensures Count(SparsePair(g, h, x, y, n), (r, q)) == Count(SparsePair(g, h, y, x, n), (q, r))
  {
    if n > 0 {
      PairReversed(g, h, x, y, n - 1, r, q);
      CountSnoc(SparsePair(g, h, x, y, n - 1), SparseLink(g, h, x, y, n - 1), (r, q));
      CountSnoc(SparsePair(g, h, y, x, n - 1), SparseLink(g, h, y, x, n - 1), (q, r));
    }
  }

  lemma {:induction false} PairElsewhere(g: int, h: int, x: int, y: int, n: nat, r: Router, q: Router)
    requires g > 0 && h > 0 && (x != r.group || y != q.group)
    ensures Count(SparsePair(g, h, x, y, n), (r, q)) == 0
  {
    if n > 0 {
      PairElsewhere(g, h, x, y, n - 1, r, q);
      CountSnoc(SparsePair(g, h, x, y, n - 1), SparseLink(g, h, x, y, n - 1), (r, q));
    }
  }

  lemma SparseCount(g: nat, h: int, b: nat, r: Router, q: Router)
    requires g > 0 && h > 0 && 0 <= r.group < g && 0 <= q.group < g
    ensures Count(Sparse(g, h, b), (r, q)) == if r.group == q.group then 0 else Count(SparsePair(g, h, r.group, q.group, b), (r, q))
  {
    forall x, y | (x, y) != (r.group, q.group) ensures Count(SparsePairs(g, h, b)(x, y), (r, q)) == 0 {
      PairElsewhere(g, h, x, y, b, r, q);
    }
    PairsOnly(SparsePairs(g, h, b), g, r, q);
  }

  // The links of the sparse branch are symmetric.
  lemma SparseSymmetric(g: nat, h: int, b: nat, r: Router, q: Router)
    requires g > 0 && h > 0 && 0 <= r.group < g && 0 <= q.group < g
    ensures Count(Sparse(g, h, b), (r, q)) == Count(Sparse(g, h, b), (q, r))
  {
    SparseCount(g, h, b, r, q);
    SparseCount(g, h, b, q, r);
    PairReversed(g, h, r.group, q.group, b, r, q);
  }

  /* ---- how many links a spine starts ---- */

  // Sums over a < m and i < n: by rows, and one column.
  function RowSum(f: (int, int) -> nat, a: int, n: nat): nat {
    if n == 0 then 0 else RowSum(f, a, n - 1) + f(a, n - 1)
  }

  function Sum2(f: (int, int) -> nat, m: nat, n: nat): nat {
    if m == 0 then 0 else Sum2(f, m - 1, n) + RowSum(f, m - 1, n)
  }

  function ColSum(f: (int, int) -> nat, m: nat, i: int): nat {
    if m == 0 then 0 else ColSum(f, m - 1, i) + f(m - 1, i)
  }

  lemma {:induction false} Sum2Column(f: (int, int) -> nat, m: nat, n: nat)
    requires n > 0
    ensures Sum2(f, m, n) == Sum2(f, m, n - 1) + ColSum(f, m, n - 1)
  {
    if m > 0 {
      Sum2Column(f, m - 1, n);
    }
  }

  lemma {:induction false} Sum2None(f: (int, int) -> nat, m: nat)
    ensures Sum2(f, m, 0) == 0
  {
    if m > 0 {
      Sum2None(f, m - 1);
    }
  }

  // Port k + m*i belongs to spine u.
  function OwnPort(m: int, h: int, u: int): (int, int) -> nat
    requires h > 0
  {
    (k: int, i: int) => if (k + m * i) / h == u then 1 else 0
  }

  lemma {:induction false} PortColumn(m: nat, h: int, u: int, n: nat, i: nat)
    requires h > 0 && 0 <= m * i
    ensures ColSum(OwnPort(m, h, u), n, i) == Own(h, u, m * i + n) - Own(h, u, m * i)
  {
    if n > 0 {
      PortColumn(m, h, u, n - 1, i);
      assert n - 1 + m * i == m * i + n - 1;
    }
  }

  // All (k, i) together are the ports below m * n.
  lemma {:induction false} PortsTogether(m: nat, h: int, u: int, n: nat)
    requires h > 0
    ensures 0 <= m * n && Sum2(OwnPort(m, h, u), m, n) == Own(h, u, m * n)
  {
    if n == 0 {
      Sum2None(OwnPort(m, h, u), m);
    } else {
      PortsTogether(m, h, u, n - 1);
      Sum2Column(OwnPort(m, h, u), m, n);
      PortColumn(m, h, u, m, n - 1);
      assert m * n == m * (n - 1) + m;
    }
  }

  lemma {:induction false} PairFrom(g: int, h: int, x: int, y: int, n: nat, r: Router)
    requires g > 0 && h > 0
    ensures From(SparsePair(g, h, x, y, n), r) == if x == r.group then RowSum(OwnPort(g - 1, h, r.number), Step(g, x, y), n) else 0
  {
    if n > 0 {
      PairFrom(g, h, x, y, n - 1, r);
      FromSnoc(SparsePair(g, h, x, y, n - 1), SparseLink(g, h, x, y, n - 1), r);
    }
  }

  // Going through the groups in order, the groups before x take the last steps and
  // the groups after x the first ones.
  lemma {:induction false} StepsTogether(f: (int, int) -> nat, weight: int -> nat, g: nat, b: nat, x: nat, n: nat)
    requires x < g && n <= g && forall y :: 0 <= y < g && y != x ==> weight(y) == RowSum(f, if y > x then y - x - 1 else y - x - 1 + g, b)
    ensures SumOthers(weight, x, n) ==
            if n <= x then Sum2(f, g - 1 - x + n, b) - Sum2(f, g - 1 - x, b)
            else Sum2(f, g - 1, b) - Sum2(f, g - 1 - x, b) + Sum2(f, n - 1 - x, b)
  {
    if n > 0 {
      StepsTogether(f, weight, g, b, x, n - 1);
    }
  }

  function PortWeight(g: int, h: int, b: nat, r: Router): int -> nat
    requires g > 0 && h > 0
  {
    (y: int) => RowSum(OwnPort(g - 1, h, r.number), Step(g, r.group, y), b)
  }

  lemma SparseFrom(g: nat, h: int, b: nat, r: Router, ports: nat)
    requires h > 0 && 0 <= r.group < g && ports == (g - 1) * b
    ensures From(Sparse(g, h, b), r) == Own(h, r.number, ports)
  {
    var pair, weight := SparsePairs(g, h, b), PortWeight(g, h, b, r);
    forall x, y ensures From(pair(x, y), r) == if x == r.group then weight(y) else 0 {
      PairFrom(g, h, x, y, b, r);
    }
    FromPairs(pair, g, r, weight);
    WeightTogether(g, h, b, r);
    PortsTogether(g - 1, h, r.number, b);
  }

  lemma WeightTogether(g: nat, h: int, b: nat, r: Router)
    requires h > 0 && 0 <= r.group < g
    ensures SumOthers(PortWeight(g, h, b, r), r.group, g) == Sum2(OwnPort(g - 1, h, r.number), g - 1, b)
  {
    forall y | 0 <= y < g && y != r.group
      ensures Step(g, r.group, y) == if y > r.group then y - r.group - 1 else y - r.group - 1 + g
    {
      StepBack(g, r.group, y);
    }
    StepsTogether(OwnPort(g - 1, h, r.number), PortWeight(g, h, b, r), g, b, r.group, g);
  }

  // No spine starts more links than it has global ports, and each uses all of them
  // when the other groups divide the ports of a group.
  lemma SparseDegree(g: nat, s: nat, h: nat, r: Router)
    requires g >= 2 && s >= 1 && h >= 1 && InNetwork(g, s, r)
    ensures var d := From(Sparse(g, h, h * s / (g - 1)), r);
            d <= h && ((h * s) % (g - 1) == 0 ==> d == h)
  {
    var b := h * s / (g - 1);
    QuotientFits(h * s, g - 1);
    MulMono(g - 1, 0, b);
    SparseFrom(g, h, b, r, (g - 1) * b);
    OwnExact(h, r.number, (g - 1) * b);
    if (h * s) % (g - 1) == 0 {
      assert (g - 1) * b == h * s;
      DivModUnique(h * s, h, s, 0);
    }
  }

  /* ---- the dense branch: at least as many ports per spine as other groups ---- */

  // Link i of spine a of group x to group y, and back.
  function Both(s: int, x: int, y: int, a: int, i: int): seq<(Router, Router)>
    requires s > 0
  {
    var r, q := Router(x, a), Router(y, (a + i) % s);
    [(r, q), (q, r)]
  }

  function DenseSpine(s: int, x: int, y: int, a: int, n: nat): seq<(Router, Router)>
    requires s > 0
  {
    if n == 0 then [] else DenseSpine(s, x, y, a, n - 1) + Both(s, x, y, a, n - 1)
  }

  function DenseBlock(s: int, ite: nat, x: int, y: int, n: nat): seq<(Router, Router)>
    requires s > 0
  {
    if n == 0 then [] else DenseBlock(s, ite, x, y, n - 1) + DenseSpine(s, x, y, n - 1, ite)
  }

  function DensePairs(s: nat, ite: nat): (int, int) -> seq<(Router, Router)>
    requires s > 0
  {
    (x: int, y: int) => if x < y then DenseBlock(s, ite, x, y, s) else []
  }

  function Dense(g: nat, s: nat, ite: nat): seq<(Router, Router)>
    requires s > 0
  {
    AllOf(DensePairs(s, ite), g, g)
  }

  // writeInterconnectionFile, dense branch.
  method WriteDense(g: nat, s: nat, h: nat) returns (links: seq<(Router, Router)>)
    requires g >= 2 && s >= 1 && h >= g - 1
    ensures links == Dense(g, s, h / (g - 1))
  {
    var ite := h / (g - 1);
    QuotientFits(h, g - 1);
    links := WriteDenseAll(g, s, ite);
  }

  method WriteDenseAll(g: nat, s: nat, ite: nat) returns (links: seq<(Router, Router)>)
    requires s > 0
    ensures links == Dense(g, s, ite)
  {
    links := [];
    ghost var pairs := DensePairs(s, ite);
    for x := 0 to g
      invariant links == AllOf(pairs, g, x)
    {
      var row := WriteDenseRow(g, s, ite, x, pairs);
      links := links + row;
    }
  }

  method WriteDenseRow(g: nat, s: nat, ite: nat, x: nat, ghost pairs: (int, int) -> seq<(Router, Router)>) returns (row: seq<(Router, Router)>)
    requires s > 0 && x < g && pairs == DensePairs(s, ite)
    ensures row == RowOf(pairs, x, g)
  {
    row := [];
    NoneBefore(pairs, x, x + 1);
    for y := x + 1 to g
      invariant row == RowOf(pairs, x, y)
    {
      var more := WriteBlock(s, ite, x, y);
      assert more == Cell(pairs, x, y);
      row := row + more;
    }
  }

  lemma {:induction false} NoneBefore(pairs: (int, int) -> seq<(Router, Router)>, x: int, n: nat)
    requires forall y :: 0 <= y < x ==> pairs(x, y) == []
    requires n <= x + 1
    ensures RowOf(pairs, x, n) == []
  {
    if n > 0 {
      NoneBefore(pairs, x, n - 1);
    }
  }

  method WriteBlock(s: nat, ite: nat, x: nat, y: nat) returns (links: seq<(Router, Router)>)
    requires s > 0
    ensures links == DenseBlock(s, ite, x, y, s)
  {
    links := [];
    for a := 0 to s
      invariant links == DenseBlock(s, ite, x, y, a)
    {
      ghost var before := links;
      for i := 0 to ite
        invariant links == before + DenseSpine(s, x, y, a, i)
      {
        var r, q := Router(x, a), Router(y, (a + i) % s);
        links := links + [(r, q)];
        links := links + [(q, r)];
      }
    }
  }

  lemma {:induction false} SpineSymmetric(s: int, x: int, y: int, a: int, n: nat, r: Router, q: Router)
    requires s > 0
    ensures Count(DenseSpine(s, x, y, a, n), (r, q)) == Count(DenseSpine(s, x, y, a, n), (q, r))
  {
    if n > 0 {
      SpineSymmetric(s, x, y, a, n - 1, r, q);
      CountConcat(DenseSpine(s, x, y, a, n - 1), Both(s, x, y, a, n - 1), (r, q));
      CountConcat(DenseSpine(s, x, y, a, n - 1), Both(s, x, y, a, n - 1), (q, r));
      TwoCount(Both(s, x, y, a, n - 1)[0], (r, q));
      TwoCount(Both(s, x, y, a, n - 1)[0], (q, r));
    }
  }

  lemma TwoCount(e: (Router, Router), f: (Router, Router))
    ensures Count([e, (e.1, e.0)], f) == (if e == f then 1 else 0) + (if (e.1, e.0) == f then 1 else 0)
  {
    assert [e, (e.1, e.0)] == [] + [e] + [(e.1, e.0)];
    CountSnoc([], e, f);
    CountSnoc([] + [e], (e.1, e.0), f);
  }

  lemma {:induction false} BlockSymmetric(s: int, ite: nat, x: int, y: int, n: nat, r: Router, q: Router)
    requires s > 0
    ensures Count(DenseBlock(s, ite, x, y, n), (r, q)) == Count(DenseBlock(s, ite, x, y, n), (q, r))
  {
    if n > 0 {
      BlockSymmetric(s, ite, x, y, n - 1, r, q);
      SpineSymmetric(s, x, y, n - 1, ite, r, q);
      CountConcat(DenseBlock(s, ite, x, y, n - 1), DenseSpine(s, x, y, n - 1, ite), (r, q));
      CountConcat(DenseBlock(s, ite, x, y, n - 1), DenseSpine(s, x, y, n - 1, ite), (q, r));
    }
  }

  // The links of the dense branch are symmetric.
  lemma DenseSymmetric(g: nat, s: nat, ite: nat, r: Router, q: Router)
    requires s > 0
    ensures Count(Dense(g, s, ite), (r, q)) == Count(Dense(g, s, ite), (q, r))
  {
    var pairs := DensePairs(s, ite);
    forall x | 0 <= x < g ensures Count(RowOf(pairs, x, g), (r, q)) == Count(RowOf(pairs, x, g), (q, r)) {
      forall y | 0 <= y < g ensures Count(Cell(pairs, x, y), (r, q)) == Count(Cell(pairs, x, y), (q, r)) {
        BlockSymmetric(s, ite, x, y, s, r, q);
      }
      SameRow(pairs, x, g, (r, q), (q, r));
    }
    SameCounts(pairs, g, g, (r, q), (q, r));
  }

  /* ---- degrees in the dense branch ---- */

  function Shifted(s: int, u: int): (int, int) -> nat
    requires s > 0
  {
    (a: int, i: int) => if (a + i) % s == u then 1 else 0
  }

  lemma {:induction false} ShiftColumn(s: nat, u: nat, n: nat, i: nat)
    requires s > 0
    ensures ColSum(Shifted(s, u), n, i) == Leaving(n + i, s, u) - Leaving(i, s, u)
  {
    if n > 0 {
      ShiftColumn(s, u, n - 1, i);
    }
  }

  // For each i, `(a + i) % s` hits every spine exactly once.
  lemma ShiftIsBijection(s: nat, u: nat, i: nat)
    requires u < s
    ensures ColSum(Shifted(s, u), s, i) == 1
  {
    ShiftColumn(s, u, s, i);
    ResiduesExact(s + i, s, u);
    ResiduesExact(i, s, u);
    OneMore(s, i);
  }

  lemma OneMore(s: nat, i: nat)
    requires s > 0
    ensures (s + i) / s == i / s + 1 && (s + i) % s == i % s
  {
    assert s * (i / s + 1) == s * (i / s) + s;
    DivModUnique(s + i, s, i / s + 1, i % s);
  }

  lemma {:induction false} ShiftTogether(s: nat, u: nat, n: nat)
    requires u < s
    ensures Sum2(Shifted(s, u), s, n) == n
  {
    if n == 0 {
      Sum2None(Shifted(s, u), s);
    } else {
      ShiftTogether(s, u, n - 1);
      Sum2Column(Shifted(s, u), s, n);
      ShiftIsBijection(s, u, n - 1);
    }
  }

  lemma {:induction false} SpineFrom(s: int, x: int, y: int, a: int, n: nat, r: Router)
    requires s > 0 && x != y
    ensures From(DenseSpine(s, x, y, a, n), r) ==
            (if r == Router(x, a) then n else 0) + (if r.group == y then RowSum(Shifted(s, r.number), a, n) else 0)
  {
    if n > 0 {
      SpineFrom(s, x, y, a, n - 1, r);
      FromConcat(DenseSpine(s, x, y, a, n - 1), Both(s, x, y, a, n - 1), r);
      var b := Both(s, x, y, a, n - 1);
      assert b == [] + [b[0]] + [b[1]];
      FromSnoc([], b[0], r);
      FromSnoc([] + [b[0]], b[1], r);
    }
  }

  lemma {:induction false} BlockFrom(s: int, ite: nat, x: int, y: int, n: nat, r: Router)
    requires s > 0 && x != y && 0 <= r.number
    ensures From(DenseBlock(s, ite, x, y, n), r) ==
            (if r.group == x && r.number < n then ite else 0) + (if r.group == y then Sum2(Shifted(s, r.number), n, ite) else 0)
  {
    if n > 0 {
      BlockFrom(s, ite, x, y, n - 1, r);
      FromConcat(DenseBlock(s, ite, x, y, n - 1), DenseSpine(s, x, y, n - 1, ite), r);
      SpineFrom(s, x, y, n - 1, ite, r);
    }
  }

  lemma CellFrom(s: nat, ite: nat, x: int, y: int, r: Router)
    requires 0 <= r.number < s
    ensures From(Cell(DensePairs(s, ite), x, y), r) == if x < y && (r.group == x || r.group == y) then ite else 0
  {
    if x < y {
      BlockFrom(s, ite, x, y, s, r);
      ShiftTogether(s, r.number, ite);
    }
  }

  lemma {:induction false} DenseRowFrom(pairs: (int, int) -> seq<(Router, Router)>, ite: nat, x: int, n: nat, r: Router)
    requires forall y :: 0 <= y < n ==> From(Cell(pairs, x, y), r) == (if x < y && (r.group == x || r.group == y) then ite else 0)
    requires 0 <= x
    ensures From(RowOf(pairs, x, n), r) ==
            if r.group == x then (if n > x then (n - 1 - x) * ite else 0) else if x < r.group < n then ite else 0
  {
    if n > 0 {
      DenseRowFrom(pairs, ite, x, n - 1, r);
      FromConcat(RowOf(pairs, x, n - 1), Cell(pairs, x, n - 1), r);
      assert (n - 1 - x) * ite == (n - 2 - x) * ite + ite;
    }
  }

  lemma {:induction false} DenseAllFrom(pairs: (int, int) -> seq<(Router, Router)>, ite: nat, own: nat, g: nat, n: nat, r: Router)
    requires forall x :: 0 <= x < n ==> From(RowOf(pairs, x, g), r) == (if r.group == x then own else if x < r.group then ite else 0)
    requires 0 <= r.group
    ensures From(AllOf(pairs, g, n), r) == if n <= r.group then n * ite else r.group * ite + own
  {
    if n > 0 {
      DenseAllFrom(pairs, ite, own, g, n - 1, r);
      FromConcat(AllOf(pairs, g, n - 1), RowOf(pairs, n - 1, g), r);
      assert (n - 1) * ite + ite == n * ite;
    }
  }

  // Every spine starts exactly (g - 1) * ite links, which its h ports allow.
  lemma DenseDegree(g: nat, s: nat, h: nat, r: Router)
    requires g >= 2 && s >= 1 && h >= g - 1 && InNetwork(g, s, r)
    ensures h / (g - 1) >= 0 && From(Dense(g, s, h / (g - 1)), r) == (g - 1) * (h / (g - 1)) <= h
  {
    QuotientFits(h, g - 1);
    var ite := h / (g - 1);
    DenseFrom(g, s, ite, r);
  }

  lemma DenseRow(g: nat, s: nat, ite: nat, x: nat, r: Router)
    requires InNetwork(g, s, r) && x < g
    ensures From(RowOf(DensePairs(s, ite), x, g), r) ==
            (if r.group == x then (g - 1 - x) * ite else if x < r.group then ite else 0)
  {
    var pairs := DensePairs(s, ite);
    forall y | 0 <= y < g ensures From(Cell(pairs, x, y), r) == (if x < y && (r.group == x || r.group == y) then ite else 0) {
      CellFrom(s, ite, x, y, r);
    }
    DenseRowFrom(pairs, ite, x, g, r);
  }

  lemma DenseFrom(g: nat, s: nat, ite: nat, r: Router)
    requires InNetwork(g, s, r)
    ensures From(Dense(g, s, ite), r) == (g - 1) * ite
  {
    var c, pairs := r.group, DensePairs(s, ite);
    MulMono(ite, 0, g - 1 - c);
    var own: nat := (g - 1 - c) * ite;
    forall x | 0 <= x < g
      ensures From(RowOf(pairs, x, g), r) == (if c == x then own else if x < c then ite else 0)
    {
      DenseRow(g, s, ite, x, r);
    }
    DenseAllFrom(pairs, ite, own, g, g, r);
    Shares(c, g - 1 - c, ite);
  }

  lemma Shares(m: int, n: int, ite: int)
    ensures m * ite + n * ite == (m + n) * ite
  {
  }
}
