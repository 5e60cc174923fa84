/** The inter-group loop of scripts/gen-cray-topo/connections_general_patched.c. A group
    has `size` routers, and `links` links lead from each group to each other one. */
module CrayTopology {
  import opened Arith
  import opened Residues
  import opened Seqs
  import opened ReversalWiring
  import opened PairwiseWiring

  // The number of group y among the groups other than x.
  function Rank(x: int, y: int): int {
    if y > x then y - 1 else y
  }

  // Link number i from group x to group y.
  function CrayLink(size: int, gp: int, x: int, y: int, i: int): (Router, Router)
    requires size > 0
  {
    (Router(x, (Rank(x, y) * gp + i) % size), Router(y, (Rank(y, x) * gp + i) % size))
  }

  function CrayPair(size: int, gp: int, x: int, y: int, n: nat): seq<(Router, Router)>
    requires size > 0
  {
    if n == 0 then [] else CrayPair(size, gp, x, y, n - 1) + [CrayLink(size, gp, x, y, n - 1)]
  }

  function CrayPairs(size: int, gp: nat): (int, int) -> seq<(Router, Router)>
    requires size > 0
  {
    (x: int, y: int) => CrayPair(size, gp, x, y, gp)
  }

  function Cray(g: nat, size: int, gp: nat): seq<(Router, Router)>
    requires size > 0
  {
    AllOf(CrayPairs(size, gp), g, g)
  }

  // The loop of the source; `invalid` counts how often it reports an invalid router.
  method WriteInter(g: nat, r: nat, c: nat, gp: nat) returns (links: seq<(Router, Router)>, invalid: int)
    requires r * c > 0
    ensures links == Cray(g, r * c, gp) && invalid == 0
  {
    var size, total := r * c, g * r * c;
    assert total == g * size;
    ghost var pairs := CrayPairs(size, gp);
    links, invalid := [], 0;
    for x := 0 to g
      invariant links == AllOf(pairs, g, x) && invalid == 0
    {
      var row, bad := WriteRow(g, size, gp, x, total, pairs);
      links, invalid := links + row, invalid + bad;
    }
  }

  method WriteRow(g: nat, size: nat, gp: nat, x: nat, total: nat, ghost pairs: (int, int) -> seq<(Router, Router)>) returns (row: seq<(Router, Router)>, invalid: int)
    requires size > 0 && x < g && total == g * size
    requires forall y :: pairs(x, y) == CrayPair(size, gp, x, y, gp)
    ensures row == RowOf(pairs, x, g) && invalid == 0
  {
    row, invalid := [], 0;
    for y := 0 to g
      invariant row == RowOf(pairs, x, y) && invalid == 0
    {
      var more, bad := WriteCell(g, size, gp, x, y, total, pairs);
      row, invalid := row + more, invalid + bad;
    }
  }

  method WriteCell(g: nat, size: nat, gp: nat, x: nat, y: nat, total: nat, ghost pairs: (int, int) -> seq<(Router, Router)>) returns (links: seq<(Router, Router)>, invalid: int)
    requires size > 0 && x < g && y < g && total == g * size
    requires forall y :: pairs(x, y) == CrayPair(size, gp, x, y, gp)
    ensures links == Cell(pairs, x, y) && invalid == 0
  {
    links, invalid := [], 0;
    if x != y {
      links, invalid := WritePair(g, size, gp, x, y, total);
    }
  }

  method WritePair(g: nat, size: nat, gp: nat, x: nat, y: nat, total: nat) returns (links: seq<(Router, Router)>, invalid: int)
    requires size > 0 && x < g && y < g && x != y && total == g * size
    ensures links == CrayPair(size, gp, x, y, gp) && invalid == 0
  {
    var nsrcg, ndstg := x, y;
    if x > y {
      nsrcg := nsrcg - 1;
    } else {
      ndstg := ndstg - 1;
    }
    var startSrc, startDst := ndstg * gp, nsrcg * gp;
    links, invalid := [], 0;
    for i := 0 to gp
      invariant links == CrayPair(size, gp, x, y, i) && invalid == 0
    {
      var src, dst := (startSrc + i) % size, (startDst + i) % size;
      InNetwork(g, size, x, src);
      InNetwork(g, size, y, dst);
      invalid := invalid + if x * size + src >= total || y * size + dst >= total then 1 else 0;
      links := links + [(Router(x, src), Router(y, dst))];
    }
  }

  lemma InNetwork(g: int, size: int, x: int, u: int)
    requires 0 <= x < g && 0 <= u < size
    ensures x * size + u < g * size
  {
    MulMono(size, x + 1, g);
    assert size * (x + 1) == x * size + size;
  }

  /* ---- symmetry ---- */

  lemma {:induction false} PairReversed(size: int, gp: int, x: int, y: int, n: nat, r: Router, q: Router)
    requires size > 0
    ensures Count(CrayPair(size, gp, x, y, n), (r, q)) == Count(CrayPair(size, gp, y, x, n), (q, r))
  {
    if n > 0 {
      PairReversed(size, gp, x, y, n - 1, r, q);
      CountSnoc(CrayPair(size, gp, x, y, n - 1), CrayLink(size, gp, x, y, n - 1), (r, q));
      CountSnoc(CrayPair(size, gp, y, x, n - 1), CrayLink(size, gp, y, x, n - 1), (q, r));
    }
  }

  lemma {:induction false} PairElsewhere(size: int, gp: int, x: int, y: int, n: nat, r: Router, q: Router)
    requires size > 0 && (x != r.group || y != q.group)
    ensures Count(CrayPair(size, gp, x, y, n), (r, q)) == 0
  {
    if n > 0 {
      PairElsewhere(size, gp, x, y, n - 1, r, q);
      CountSnoc(CrayPair(size, gp, x, y, n - 1), CrayLink(size, gp, x, y, n - 1), (r, q));
    }
  }

  lemma CrayCount(g: nat, size: int, gp: nat, r: Router, q: Router)
    requires size > 0 && 0 <= r.group < g && 0 <= q.group < g
    ensures Count(Cray(g, size, gp), (r, q)) == if r.group == q.group then 0 else Count(CrayPair(size, gp, r.group, q.group, gp), (r, q))
  {
    forall x, y | (x, y) != (r.group, q.group) ensures Count(CrayPairs(size, gp)(x, y), (r, q)) == 0 {
      PairElsewhere(size, gp, x, y, gp, r, q);
    }
    PairsOnly(CrayPairs(size, gp), g, r, q);
  }

  // Each router has as many links to another as the other has back.
  lemma CraySymmetric(g: nat, size: int, gp: nat, r: Router, q: Router)
    requires size > 0 && 0 <= r.group < g && 0 <= q.group < g
    ensures Count(Cray(g, size, gp), (r, q)) == Count(Cray(g, size, gp), (q, r))
  {
    CrayCount(g, size, gp, r, q);
    CrayCount(g, size, gp, q, r);
    PairReversed(size, gp, r.group, q.group, gp, r, q);
  }

  /* ---- how many links, and where they start ---- */

  // The links from group x to group y.
  function Leading(links: seq<(Router, Router)>, x: int, y: int): nat {
    if links == [] then 0 else
    var n := |links| - 1;
    Leading(links[..n], x, y) + if links[n].0.group == x && links[n].1.group == y then 1 else 0
  }

  lemma {:induction false} LeadingConcat(a: seq<(Router, Router)>, b: seq<(Router, Router)>, x: int, y: int)
    ensures Leading(a + b, x, y) == Leading(a, x, y) + Leading(b, x, y)
  {
    if b == [] {
      assert a + b == a;
    } else {
      LeadingConcat(a, b[..|b| - 1], x, y);
      assert (a + b)[..|a + b| - 1] == a + b[..|b| - 1];
    }
  }

  lemma {:induction false} PairLeading(size: int, gp: int, x: int, y: int, n: nat, v: int, w: int)
    requires size > 0
    ensures Leading(CrayPair(size, gp, x, y, n), v, w) == if x == v && y == w then n else 0
  {
    if n > 0 {
      PairLeading(size, gp, x, y, n - 1, v, w);
      assert CrayPair(size, gp, x, y, n)[..|CrayPair(size, gp, x, y, n)| - 1] == CrayPair(size, gp, x, y, n - 1);
    }
  }

  lemma {:induction false} RowLeading(pair: (int, int) -> seq<(Router, Router)>, x: int, n: nat, v: int, w: int, total: nat)
    requires forall y :: 0 <= y < n ==> Leading(Cell(pair, x, y), v, w) == if y == w then total else 0
    ensures Leading(RowOf(pair, x, n), v, w) == if 0 <= w < n then total else 0
  {
    if n > 0 {
      RowLeading(pair, x, n - 1, v, w, total);
      LeadingConcat(RowOf(pair, x, n - 1), Cell(pair, x, n - 1), v, w);
    }
  }

  lemma {:induction false} AllLeading(pair: (int, int) -> seq<(Router, Router)>, g: nat, n: nat, v: int, w: int, total: nat)
    requires forall x :: 0 <= x < n ==> Leading(RowOf(pair, x, g), v, w) == if x == v then total else 0
    ensures Leading(AllOf(pair, g, n), v, w) == if 0 <= v < n then total else 0
  {
    if n > 0 {
      AllLeading(pair, g, n - 1, v, w, total);
      LeadingConcat(AllOf(pair, g, n - 1), RowOf(pair, n - 1, g), v, w);
    }
  }

  // Exactly gp links lead from any group to any other, and none stays in its group.
  lemma LinksPerPair(g: nat, size: int, gp: nat, v: int, w: int)
    requires size > 0 && 0 <= v < g && 0 <= w < g
    ensures Leading(Cray(g, size, gp), v, w) == if v != w then gp else 0
  {
    var pairs, total := CrayPairs(size, gp), if v != w then gp else 0;
    forall x | 0 <= x < g ensures Leading(RowOf(pairs, x, g), v, w) == if x == v then total else 0 {
      forall y | 0 <= y < g ensures Leading(Cell(pairs, x, y), v, w) == if y == w then (if x == v then total else 0) else 0 {
        PairLeading(size, gp, x, y, gp, v, w);
      }
      RowLeading(pairs, x, g, v, w, if x == v then total else 0);
    }
    AllLeading(pairs, g, g, v, w, total);
  }

  lemma {:induction false} PairFrom(size: int, gp: nat, x: int, y: int, n: nat, r: Router)
    requires size > 0 && Rank(x, y) * gp >= 0
    ensures From(CrayPair(size, gp, x, y, n), r)
         == if x == r.group then Leaving(Rank(x, y) * gp + n, size, r.number) - Leaving(Rank(x, y) * gp, size, r.number) else 0
  {
    if n > 0 {
      PairFrom(size, gp, x, y, n - 1, r);
      FromSnoc(CrayPair(size, gp, x, y, n - 1), CrayLink(size, gp, x, y, n - 1), r);
    }
  }

  // The groups other than x among the first n.
  function Others(x: int, n: int): int {
    if 0 <= x < n then n - 1 else n
  }

  lemma {:induction false} RowFrom(pair: (int, int) -> seq<(Router, Router)>, x: int, n: nat, r: Router, sum: int -> int)
    requires forall y :: 0 <= y < n ==> From(Cell(pair, x, y), r) == sum(y + 1) - sum(y)
    ensures From(RowOf(pair, x, n), r) == sum(n) - sum(0)
  {
    if n > 0 {
      RowFrom(pair, x, n - 1, r, sum);
      FromConcat(RowOf(pair, x, n - 1), Cell(pair, x, n - 1), r);
    }
  }

  function LeavingTo(size: int, gp: nat, x: int, u: int, y: int): int
    requires size > 0
  {
    if Others(x, y) * gp >= 0 then Leaving(Others(x, y) * gp, size, u) else 0
  }

  lemma CellFrom(size: int, gp: nat, x: nat, y: nat, r: Router)
    requires size > 0
    ensures From(Cell(CrayPairs(size, gp), x, y), r)
         == if x == r.group then LeavingTo(size, gp, x, r.number, y + 1) - LeavingTo(size, gp, x, r.number, y) else 0
  {
    if x != y {
      MulMono(gp, 0, Rank(x, y));
      PairFrom(size, gp, x, y, gp, r);
      MulNext(Rank(x, y), gp);
    }
  }

  // The links of group x use the numbers 0, 1, 2, … of its routers in turn.
  lemma GroupFrom(g: nat, size: int, gp: nat, x: nat, r: Router)
    requires size > 0 && x < g
    ensures From(RowOf(CrayPairs(size, gp), x, g), r) == if x == r.group then LeavingTo(size, gp, x, r.number, g) else 0
  {
    var sum: int -> int := n => if x == r.group then LeavingTo(size, gp, x, r.number, n) else 0;
    forall y | 0 <= y < g ensures From(Cell(CrayPairs(size, gp), x, y), r) == sum(y + 1) - sum(y) {
      CellFrom(size, gp, x, y, r);
    }
    RowFrom(CrayPairs(size, gp), x, g, r, sum);
    assert Leaving(0, size, r.number) == 0;
  }

  // A group's links are spread evenly: the counts of any two of its routers, and so of
  // any two routers at all, differ by at most one.
  lemma DegreeExact(g: nat, size: int, gp: nat, r: Router)
    requires size > 0 && 0 <= r.group < g && 0 <= r.number < size
    ensures From(Cray(g, size, gp), r) == (g - 1) * gp / size + if (g - 1) * gp % size > r.number then 1 else 0
  {
    var pairs := CrayPairs(size, gp);
    var total := From(RowOf(pairs, r.group, g), r);
    forall x | 0 <= x < g ensures From(RowOf(pairs, x, g), r) == if x == r.group then total else 0 {
      GroupFrom(g, size, gp, x, r);
    }
    AllOfFrom(pairs, g, g, r, total);
    GroupFrom(g, size, gp, r.group, r);
    ShareExact((g - 1) * gp, g - 1, gp, size, r.number);
  }

  lemma ShareExact(n: int, m: int, gp: nat, size: int, u: nat)
    requires size > 0 && u < size && m >= 0 && n == m * gp
    ensures n >= 0 && Leaving(n, size, u) == n / size + if n % size > u then 1 else 0
  {
    MulMono(gp, 0, m);
    ResiduesExact(n, size, u);
  }
}
