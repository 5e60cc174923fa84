/** The links that the topology generators write, each told by its numbers: which router of
    which group it leaves, and where it ends. */
module GeneratedLinks {
  import opened Arith
  import opened PairwiseWiring
  import opened ReversalWiring
  import opened RouterMatrix
  import opened Seqs
  import Cray = CrayTopology
  import Dally = DallyTopology
  import Large = PlusLargeTopology
  import V2 = PlusV2Topology
  import V3 = PlusV3Topology

  /* ---- the links of the reversal wiring ---- */

  // Group y is the one that comes q mod (g - 1) places after the next one, going round.
  predicate Following(x: int, q: int, g: int, y: int)
    requires g >= 2
  {
    y == if x + 1 + q % (g - 1) < g then x + 1 + q % (g - 1) else x + 1 + q % (g - 1) - g
  }

  lemma FollowingIs(w: Wiring, x: nat, q: nat, y: int)
    requires w.Valid() && x < w.g && Following(x, q, w.g, y)
    ensures w.Other(x, q) == y
  {
    var k := q % (w.g - 1);
    if x + 1 + k < w.g {
      DivModUnique(x + 1 + k, w.g, 0, x + 1 + k);
    } else {
      DivModUnique(x + 1 + k, w.g, 1, x + 1 + k - w.g);
    }
  }

  lemma LinkNumber(w: Wiring, x: nat, q: nat, y: int, i: nat)
    requires w.Valid() && x < w.g && q < w.ports && Following(x, q, w.g, y) && i == x * w.ports + q
    ensures |w.AllLinks()| == w.g * w.ports && i < w.g * w.ports
    ensures w.AllLinks()[i] == (Router(x, q / w.h), Router(y, w.a - 1 - q / w.h))
  {
    LinksAt(w, w.g, x, q);
    FollowingIs(w, x, q, y);
  }

  // dragonfly-dally: entry q of group x in the file.
  lemma DallyLink(radix: nat, c: nat, a: nat, h: nat, n: nat, g: nat, x: nat, q: nat, y: int, i: nat)
    requires a == (radix + 1) / 2 && h == a / 2 && n == h * a && c >= 1 && g == n / c + 1
    requires n > 0 && g >= 2 && x < g && q < n && Following(x, q, g, y) && i == x * n + q
    ensures var p := Dally.Params(radix, c);
            && p.W().Valid() && |Written(p.A(), p.W().AllLinks())| == g * n && i < g * n
            && Written(p.A(), p.W().AllLinks())[i] == (q / h + x * a, a - 1 - q / h + y * a)
  {
    if h == 0 || a == 0 {
      MulMono(0, h, a);
    }
    LinkNumber(Dally.Params(radix, c).W(), x, q, y, i);
  }

  // And when its network is accepted, in terms of the two arguments.
  lemma DallyAccepted(radix: nat, c: nat, a: nat, h: nat)
    requires a == (radix + 1) / 2 && h == a / 2 && c >= 1
    ensures Dally.Accepts(Dally.Params(radix, c)) <==> (h * a) % c == 0 && !(radix >= 515 && radix % 4 == 3)
  {
    Dally.NoRoomIff(Dally.Params(radix, c));
  }

  // dragonfly-plus, first version: link q of group x; the groups are one more than the
  // square of the spines.
  lemma LargeLink(s: nat, x: nat, q: nat, y: int, i: nat)
    requires s >= 1 && x <= s * s && q < s * s && i == x * (s * s) + q
    requires y == if x + 1 + q <= s * s then x + 1 + q else x + q - s * s
    ensures |Large.Square(s).AllLinks()| == (s * s + 1) * (s * s) && i < |Large.Square(s).AllLinks()|
    ensures Large.Square(s).AllLinks()[i] == (Router(x, q / s), Router(y, s - 1 - q / s))
  {
    Large.SquareValid(s);
    DivModUnique(q, s * s, 0, q);
    LinkNumber(Large.Square(s), x, q, y, i);
  }

  // dragonfly-plus, second version: link q of group x.
  lemma PlusV2Link(radix: nat, c: nat, s: nat, h: nat, g: nat, x: nat, q: nat, y: int, i: nat)
    requires s == radix / 2 && h == radix - s && c >= 1 && g == s * s / c + 1
    requires g >= 2 && x < g && q < s * h && Following(x, q, g, y) && i == x * (s * h) + q
    ensures V2.Net(radix, c).Valid() && |V2.Net(radix, c).AllLinks()| == g * (s * h) && i < |V2.Net(radix, c).AllLinks()|
    ensures V2.Net(radix, c).AllLinks()[i] == (Router(x, q / h), Router(y, s - 1 - q / h))
  {
    V2.NetValid(radix, c);
    LinkNumber(V2.Net(radix, c), x, q, y, i);
  }

  /* ---- the links of the pairwise generators ---- */

  // How often r and q are joined by the links numbered below n.
  function Numbers(n: nat, joins: int -> bool): set<int> {
    set i | 0 <= i < n && joins(i)
  }

  lemma NumbersMore(n: nat, joins: int -> bool)
    ensures |Numbers(n + 1, joins)| == |Numbers(n, joins)| + if joins(n) then 1 else 0
  {
    assert Numbers(n + 1, joins) == Numbers(n, joins) + if joins(n) then {n} else {};
  }

  // gen-cray-topo: between groups x and y link i leaves the router that is i places after
  // gp times the number of y among the others, and ends likewise.
  predicate CrayJoins(size: int, gp: nat, r: Router, q: Router, i: int)
    requires size > 0
  {
    var x, y := r.group, q.group;
    && r.number == ((if y > x then y - 1 else y) * gp + i) % size
    && q.number == ((if x > y then x - 1 else x) * gp + i) % size
  }

  lemma CrayLinks(g: nat, size: int, gp: nat, r: Router, q: Router)
    requires size > 0 && 0 <= r.group < g && 0 <= q.group < g && r.group != q.group
    ensures Count(Cray.Cray(g, size, gp), (r, q)) == |set i | 0 <= i < gp && CrayJoins(size, gp, r, q, i)|
  {
    var joins := i => CrayJoins(size, gp, r, q, i);
    Cray.CrayCount(g, size, gp, r, q);
    CrayNumbers(size, gp, gp, r, q, joins);
    assert Numbers(gp, joins) == set i | 0 <= i < gp && CrayJoins(size, gp, r, q, i);
  }

  lemma {:induction false} CrayNumbers(size: int, gp: nat, n: nat, r: Router, q: Router, joins: int -> bool)
    requires size > 0 && r.group != q.group
    requires forall i :: joins(i) <==> Cray.CrayLink(size, gp, r.group, q.group, i) == (r, q)
    ensures Count(Cray.CrayPair(size, gp, r.group, q.group, n), (r, q)) == |Numbers(n, joins)|
  {
    if n == 0 {
      assert Numbers(0, joins) == {};
    } else {
      CrayNumbers(size, gp, n - 1, r, q, joins);
      CountSnoc(Cray.CrayPair(size, gp, r.group, q.group, n - 1), Cray.CrayLink(size, gp, r.group, q.group, n - 1), (r, q));
      NumbersMore(n - 1, joins);
    }
  }

  // dragonfly-plus, third version, with few ports: between groups x and y link i takes the
  // port that is g - 1 times i after the distance of y from x, less one, and likewise back;
  // h ports in a row belong to a spine.
  predicate SparseJoins(g: nat, h: int, r: Router, q: Router, i: int)
    requires h > 0
  {
    var x, y := r.group, q.group;
    && r.number == ((if y > x then y - x - 1 else y - x - 1 + g) + (g - 1) * i) / h
    && q.number == ((if x > y then x - y - 1 else x - y - 1 + g) + (g - 1) * i) / h
  }

  lemma SparseLinks(g: nat, h: int, b: nat, r: Router, q: Router)
    requires h > 0 && 0 <= r.group < g && 0 <= q.group < g && r.group != q.group
    ensures Count(V3.Sparse(g, h, b), (r, q)) == |set i | 0 <= i < b && SparseJoins(g, h, r, q, i)|
  {
    var joins := i => SparseJoins(g, h, r, q, i);
    V3.StepBack(g, r.group, q.group);
    V3.StepBack(g, q.group, r.group);
    V3.SparseCount(g, h, b, r, q);
    SparseNumbers(g, h, b, r, q, joins);
    assert Numbers(b, joins) == set i | 0 <= i < b && SparseJoins(g, h, r, q, i);
  }

  lemma {:induction false} SparseNumbers(g: nat, h: int, n: nat, r: Router, q: Router, joins: int -> bool)
    requires g > 0 && h > 0 && r.group != q.group
    requires forall i :: joins(i) <==> V3.SparseLink(g, h, r.group, q.group, i) == (r, q)
    ensures Count(V3.SparsePair(g, h, r.group, q.group, n), (r, q)) == |Numbers(n, joins)|
  {
    if n == 0 {
      assert Numbers(0, joins) == {};
    } else {
      SparseNumbers(g, h, n - 1, r, q, joins);
      CountSnoc(V3.SparsePair(g, h, r.group, q.group, n - 1), V3.SparseLink(g, h, r.group, q.group, n - 1), (r, q));
      NumbersMore(n - 1, joins);
    }
  }

  // With many ports: link i of a spine leads to the spine i places further round in each
  // later group, and the same links lead back.
  predicate DenseJoins(s: nat, r: Router, q: Router, i: int)
    requires s > 0
  {
    q.number == (r.number + i) % s
  }

  lemma DenseLinks(g: nat, s: nat, ite: nat, r: Router, q: Router)
    requires s > 0 && 0 <= r.group < q.group < g && 0 <= r.number < s && 0 <= q.number < s
    ensures Count(V3.Dense(g, s, ite), (r, q)) == |set i | 0 <= i < ite && DenseJoins(s, r, q, i)|
    ensures Count(V3.Dense(g, s, ite), (q, r)) == Count(V3.Dense(g, s, ite), (r, q))
  {
    var joins := i => DenseJoins(s, r, q, i);
    forall x, y | (x, y) != (r.group, q.group) ensures Count(V3.DensePairs(s, ite)(x, y), (r, q)) == 0 {
      if x < y {
        BlockElsewhere(s, ite, x, y, s, r, q);
      }
    }
    PairsOnly(V3.DensePairs(s, ite), g, r, q);
    BlockNumbers(s, ite, s, r, q, joins);
    assert Numbers(ite, joins) == set i | 0 <= i < ite && DenseJoins(s, r, q, i);
    V3.DenseSymmetric(g, s, ite, q, r);
  }

  lemma {:induction false} SpineNumbers(s: nat, a: int, n: nat, r: Router, q: Router, joins: int -> bool)
    requires s > 0 && r.group < q.group && forall i :: joins(i) <==> DenseJoins(s, r, q, i)
    ensures Count(V3.DenseSpine(s, r.group, q.group, a, n), (r, q)) == if a == r.number then |Numbers(n, joins)| else 0
  {
    if n == 0 {
      assert Numbers(0, joins) == {};
    } else {
      SpineNumbers(s, a, n - 1, r, q, joins);
      var both := V3.Both(s, r.group, q.group, a, n - 1);
      CountConcat(V3.DenseSpine(s, r.group, q.group, a, n - 1), both, (r, q));
      V3.TwoCount(both[0], (r, q));
      NumbersMore(n - 1, joins);
    }
  }

  lemma {:induction false} BlockNumbers(s: nat, ite: nat, n: nat, r: Router, q: Router, joins: int -> bool)
    requires s > 0 && r.group < q.group && 0 <= r.number && forall i :: joins(i) <==> DenseJoins(s, r, q, i)
    ensures Count(V3.DenseBlock(s, ite, r.group, q.group, n), (r, q)) == if r.number < n then |Numbers(ite, joins)| else 0
  {
    if n > 0 {
      BlockNumbers(s, ite, n - 1, r, q, joins);
      SpineNumbers(s, n - 1, ite, r, q, joins);
      CountConcat(V3.DenseBlock(s, ite, r.group, q.group, n - 1), V3.DenseSpine(s, r.group, q.group, n - 1, ite), (r, q));
    }
  }

  // Links between other groups, in order, are others.
  lemma {:induction false} SpineElsewhere(s: nat, x: int, y: int, a: int, n: nat, r: Router, q: Router)
    requires s > 0 && x < y && r.group < q.group && (x, y) != (r.group, q.group)
    ensures Count(V3.DenseSpine(s, x, y, a, n), (r, q)) == 0
  {
    if n > 0 {
      SpineElsewhere(s, x, y, a, n - 1, r, q);
      CountConcat(V3.DenseSpine(s, x, y, a, n - 1), V3.Both(s, x, y, a, n - 1), (r, q));
      V3.TwoCount(V3.Both(s, x, y, a, n - 1)[0], (r, q));
    }
  }

  lemma {:induction false} BlockElsewhere(s: nat, ite: nat, x: int, y: int, n: nat, r: Router, q: Router)
    requires s > 0 && x < y && r.group < q.group && (x, y) != (r.group, q.group)
    ensures Count(V3.DenseBlock(s, ite, x, y, n), (r, q)) == 0
  {
    if n > 0 {
      BlockElsewhere(s, ite, x, y, n - 1, r, q);
      SpineElsewhere(s, x, y, n - 1, ite, r, q);
      CountConcat(V3.DenseBlock(s, ite, x, y, n - 1), V3.DenseSpine(s, x, y, n - 1, ite), (r, q));
    }
  }
}
