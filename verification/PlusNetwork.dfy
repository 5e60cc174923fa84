/** What the two network classes of scripts/dragonfly-plus (dragonfly-plus-topo-gen-v2.py
    and dragonfly-plus-random-topo-gen.py) have in common: the local connections of a
    group, the adjacency matrix, and verifyTopology.

    A group has s leaves, numbered 0 to s - 1, and s spines behind them. */
module PlusNetwork {
  import opened Arith
  import opened Identity
  import opened Seqs
  import opened ReversalWiring
  import opened RouterMatrix

  // g groups of s leaves and s spines with h global links per spine.
  datatype Plus = Plus(s: nat, h: nat, g: nat) {
    function Radix(): nat { s + h }
    function Routers(): nat { 2 * s }
  }

  /* ---- local connections ---- */

  function Pair(x: int, s: nat, u: int, l: int): Links {
    [(Router(x, s + u), Router(x, l)), (Router(x, l), Router(x, s + u))]
  }

  // The connections of one spine with the first m leaves, of the first n spines of a
  // group with all leaves, and of the first g groups.
  function SpineLocal(x: int, s: nat, u: int, m: nat): Links {
    if m == 0 then [] else SpineLocal(x, s, u, m - 1) + Pair(x, s, u, m - 1)
  }

  function GroupLocal(x: int, s: nat, n: nat): Links {
    if n == 0 then [] else GroupLocal(x, s, n - 1) + SpineLocal(x, s, n - 1, s)
  }

  function Local(s: nat, g: nat): Links {
    Groups(x => GroupLocal(x, s, s), g)
  }

  // The lists of the first n groups, one after the other.
  function Groups(of: nat -> Links, n: nat): Links {
    if n == 0 then [] else Groups(of, n - 1) + of(n - 1)
  }

  // srtr.connectTo(lrtr, LOCAL) for one spine; addConnection refuses a connection once
  // the router's intra_radix is used up.
  method ConnectSpine(x: int, s: nat, u: nat, used1: seq<nat>) returns (links: Links, used: seq<nat>, raised: bool)
    requires u < s && |used1| == s && forall l :: 0 <= l < s ==> used1[l] == u
    ensures !raised && links == SpineLocal(x, s, u, s)
    ensures |used| == s && forall l :: 0 <= l < s ==> used[l] == u + 1
  {
    links, used, raised := [], used1, false;
    var mine := 0;
    for l := 0 to s
      invariant mine == l && links == SpineLocal(x, s, u, l)
      invariant |used| == s && forall k :: 0 <= k < s ==> used[k] == if k < l then u + 1 else u
    {
      if mine >= s {
        return links, used, true;
      }
      mine := mine + 1;
      if used[l] >= s {
        return links, used, true;
      }
      used := used[l := used[l] + 1];
      links := links + Pair(x, s, u, l);
    }
  }

  // generateLocalConnections of one group.
  method ConnectGroup(x: int, s: nat) returns (links: Links, raised: bool)
    ensures !raised && links == GroupLocal(x, s, s)
  {
    links, raised := [], false;
    var used: seq<nat> := seq(s, _ => 0);
    for u := 0 to s
      invariant links == GroupLocal(x, s, u)
      invariant |used| == s && forall l :: 0 <= l < s ==> used[l] == u
    {
      var more, failed;
      more, used, failed := ConnectSpine(x, s, u, used);
      if failed {
        return links, true;
      }
      links := links + more;
    }
  }

  // generateLocalGroupConnections
  method ConnectLocal(s: nat, g: nat) returns (links: Links, raised: bool)
    ensures !raised && links == Local(s, g)
  {
    links, raised := [], false;
    for x := 0 to g
      invariant links == Local(s, x)
    {
      var more, failed := ConnectGroup(x, s);
      if failed {
        return links, true;
      }
      links := links + more;
    }
  }

  /* ---- which local connections there are ---- */

  // r is one of the first n spines of group x and q a leaf of it.
  predicate Crosses(x: int, s: nat, n: nat, r: Router, q: Router) {
    r.group == x == q.group && s <= r.number < s + n && 0 <= q.number < s
  }

  predicate SpineMeets(x: int, s: nat, u: int, m: nat, r: Router, q: Router) {
    r == Router(x, s + u) && q.group == x && 0 <= q.number < m
  }

  lemma PairCount(a: (Router, Router), b: (Router, Router), e: (Router, Router))
    ensures Count([a, b], e) == (if a == e then 1 else 0) + (if b == e then 1 else 0)
  {
    CountSnoc([], a, e);
    CountSnoc([a], b, e);
    assert [] + [a] == [a] && [a] + [b] == [a, b];
  }

  lemma {:induction false} SpineLocalCount(x: int, s: nat, u: nat, m: nat, r: Router, q: Router)
    requires m <= s
    ensures Count(SpineLocal(x, s, u, m), (r, q)) == if SpineMeets(x, s, u, m, r, q) || SpineMeets(x, s, u, m, q, r) then 1 else 0
  {
    if m > 0 {
      SpineLocalCount(x, s, u, m - 1, r, q);
      var p := Pair(x, s, u, m - 1);
      CountConcat(SpineLocal(x, s, u, m - 1), p, (r, q));
      PairCount(p[0], p[1], (r, q));
    }
  }

  lemma {:induction false} GroupLocalCount(x: int, s: nat, n: nat, r: Router, q: Router)
    ensures Count(GroupLocal(x, s, n), (r, q)) == if Crosses(x, s, n, r, q) || Crosses(x, s, n, q, r) then 1 else 0
  {
    if n > 0 {
      GroupLocalCount(x, s, n - 1, r, q);
      SpineLocalCount(x, s, n - 1, s, r, q);
      CountConcat(GroupLocal(x, s, n - 1), SpineLocal(x, s, n - 1, s), (r, q));
    }
  }

  lemma {:induction false} GroupsCount(of: nat -> Links, n: nat, e: (Router, Router), at: int, total: nat)
    requires forall x: nat :: x < n ==> Count(of(x), e) == if x == at then total else 0
    ensures Count(Groups(of, n), e) == if 0 <= at < n then total else 0
  {
    if n > 0 {
      GroupsCount(of, n - 1, e, at, total);
      CountConcat(Groups(of, n - 1), of(n - 1), e);
    }
  }

  lemma {:induction false} GroupsFrom(of: nat -> Links, n: nat, r: Router, at: int, total: nat)
    requires forall x: nat :: x < n ==> From(of(x), r) == if x == at then total else 0
    ensures From(Groups(of, n), r) == if 0 <= at < n then total else 0
  {
    if n > 0 {
      GroupsFrom(of, n - 1, r, at, total);
      FromConcat(Groups(of, n - 1), of(n - 1), r);
    }
  }

  lemma {:induction false} GroupsHave(of: nat -> Links, n: nat, a: int, g: int, size: nat)
    requires forall x: nat :: x < n ==> |of(x)| == size && AllHave(a, g, of(x))
    ensures |Groups(of, n)| == n * size && AllHave(a, g, Groups(of, n))
  {
    if n > 0 {
      GroupsHave(of, n - 1, a, g, size);
      MulNext(n - 1, size);
    }
  }

  // Every spine and every leaf of a group are connected once each way, and no others.
  lemma LocalExact(s: nat, g: nat, r: Router, q: Router)
    ensures Count(Local(s, g), (r, q)) ==
            if 0 <= r.group < g && (Crosses(r.group, s, s, r, q) || Crosses(r.group, s, s, q, r)) then 1 else 0
  {
    var total := if Crosses(r.group, s, s, r, q) || Crosses(r.group, s, s, q, r) then 1 else 0;
    forall x: nat | x < g ensures Count(GroupLocal(x, s, s), (r, q)) == if x == r.group then total else 0 {
      GroupLocalCount(x, s, s, r, q);
    }
    GroupsCount(x => GroupLocal(x, s, s), g, (r, q), r.group, total);
  }

  lemma {:induction false} SpineLocalFrom(x: int, s: nat, u: nat, m: nat, r: Router)
    requires m <= s
    ensures From(SpineLocal(x, s, u, m), r) == if r == Router(x, s + u) then m else if r.group == x && 0 <= r.number < m then 1 else 0
  {
    if m > 0 {
      SpineLocalFrom(x, s, u, m - 1, r);
      var p := Pair(x, s, u, m - 1);
      FromConcat(SpineLocal(x, s, u, m - 1), p, r);
      assert p == ([] + [p[0]]) + [p[1]];
      FromSnoc([], p[0], r);
      FromSnoc([] + [p[0]], p[1], r);
    }
  }

  lemma {:induction false} GroupLocalFrom(x: int, s: nat, n: nat, r: Router)
    ensures From(GroupLocal(x, s, n), r) ==
            if r.group != x then 0 else if 0 <= r.number < s then n else if s <= r.number < s + n then s else 0
  {
    if n > 0 {
      GroupLocalFrom(x, s, n - 1, r);
      SpineLocalFrom(x, s, n - 1, s, r);
      FromConcat(GroupLocal(x, s, n - 1), SpineLocal(x, s, n - 1, s), r);
    }
  }

  // Every router has s of them.
  lemma LocalDegree(s: nat, g: nat, r: Router)
    ensures From(Local(s, g), r) == if Has(2 * s, g, r) then s else 0
  {
    var total := if 0 <= r.number < 2 * s then s else 0;
    forall x: nat | x < g ensures From(GroupLocal(x, s, s), r) == if x == r.group then total else 0 {
      GroupLocalFrom(x, s, s, r);
    }
    GroupsFrom(x => GroupLocal(x, s, s), g, r, r.group, total);
  }

  lemma {:induction false} SpineLocalHas(x: int, s: nat, u: nat, m: nat, g: nat)
    requires m <= s && u < s && 0 <= x < g
    ensures |SpineLocal(x, s, u, m)| == 2 * m && AllHave(2 * s, g, SpineLocal(x, s, u, m))
  {
    if m > 0 {
      SpineLocalHas(x, s, u, m - 1, g);
    }
  }

  lemma {:induction false} GroupLocalHas(x: int, s: nat, n: nat, g: nat)
    requires n <= s && 0 <= x < g
    ensures |GroupLocal(x, s, n)| == n * (2 * s) && AllHave(2 * s, g, GroupLocal(x, s, n))
  {
    if n > 0 {
      GroupLocalHas(x, s, n - 1, g);
      SpineLocalHas(x, s, n - 1, s, g);
      MulNext(n - 1, 2 * s);
    }
  }

  lemma LocalHas(s: nat, g: nat)
    ensures |Local(s, g)| == g * (s * (2 * s)) && AllHave(2 * s, g, Local(s, g))
  {
    forall x: nat | x < g ensures |GroupLocal(x, s, s)| == s * (2 * s) && AllHave(2 * s, g, GroupLocal(x, s, s)) {
      GroupLocalHas(x, s, s, g);
    }
    GroupsHave(x => GroupLocal(x, s, s), g, 2 * s, g, s * (2 * s));
  }

  /* ---- global connections among the routers ---- */

  // Global links between spines only, h from each.
  ghost predicate Regular(p: Plus, glob: Links) {
    && AllHave(p.s, p.g, glob)
    && forall r :: Has(p.s, p.g, r) ==> From(glob, r) == p.h
  }

  ghost predicate Mutual(p: Plus, glob: Links) {
    forall r, q :: Has(p.s, p.g, r) && Has(p.s, p.g, q) ==> Count(glob, (r, q)) == Count(glob, (q, r))
  }

  // localConnectionsOutput and globalConnectionsOutput, as getAdjacencyMatrix lists them.
  function AllConns(p: Plus, glob: Links): Links {
    Local(p.s, p.g) + Lift(p.s, glob)
  }

  lemma AllConnsHave(p: Plus, glob: Links)
    requires AllHave(p.s, p.g, glob)
    ensures AllHave(p.Routers(), p.g, AllConns(p, glob))
  {
    LocalHas(p.s, p.g);
  }

  lemma ConnsCount(p: Plus, glob: Links, r: Router, q: Router)
    ensures Count(AllConns(p, glob), (r, q)) == Count(Local(p.s, p.g), (r, q)) + Count(glob, (Down(p.s, r), Down(p.s, q)))
  {
    CountConcat(Local(p.s, p.g), Lift(p.s, glob), (r, q));
    LiftCount(p.s, glob, r, q);
  }

  // A leaf starts s connections, a spine s and its global links.
  lemma ConnsFrom(p: Plus, glob: Links, r: Router)
    requires Regular(p, glob) && Has(p.Routers(), p.g, r)
    ensures From(AllConns(p, glob), r) == p.s + if r.number < p.s then 0 else p.h
  {
    FromConcat(Local(p.s, p.g), Lift(p.s, glob), r);
    LocalDegree(p.s, p.g, r);
    LiftFrom(p.s, glob, r);
    NoneOutside(p.s, p.g, glob, Down(p.s, r), r);
  }

  /* ---- the matrix ---- */

  // A has the connections of the list.
  ghost predicate Counts(A: array2<int>, L: seq<(int, int)>)
    reads A
  {
    forall i, j :: 0 <= i < A.Length0 && 0 <= j < A.Length1 ==> A[i, j] == Count(L, (i, j))
  }

  // getAdjacencyMatrix
  method Fill(a: nat, g: nat, conns: Links) returns (A: array2<int>)
    requires AllHave(a, g, conns)
    ensures fresh(A) && A.Length0 == A.Length1 == a * g && Counts(A, Written(a, conns))
  {
    A := new int[a * g, a * g]((_, _) => 0);
    for k := 0 to |conns|
      invariant Counts(A, Written(a, conns)[..k])
    {
      ghost var L := Written(a, conns)[..k];
      var e := Enter(a, g, A, conns[k].0, conns[k].1);
      assert Written(a, conns)[..k + 1] == L + [e];
      forall i, j ensures Count(L + [e], (i, j)) == Count(L, (i, j)) + if (i, j) == e then 1 else 0 {
        CountSnoc(L, e, (i, j));
      }
    }
    assert Written(a, conns)[..|conns|] == Written(a, conns);
  }

  lemma {:induction false} RowSumCounts(A: array2<int>, L: seq<(int, int)>, i: nat, n: nat)
    requires Counts(A, L) && i < A.Length0 && n <= A.Length1
    ensures RowSum(A, i, n) == RowCount(L, i, n)
  {
    if n > 0 {
      RowSumCounts(A, L, i, n - 1);
    }
  }

  ghost function Total(A: array2<int>, n: nat): int
    requires n <= A.Length0
    reads A
  {
    if n == 0 then 0 else Total(A, n - 1) + RowSum(A, n - 1, A.Length1)
  }

  ghost function TotalCount(L: seq<(int, int)>, n: nat, m: nat): nat {
    if n == 0 then 0 else TotalCount(L, n - 1, m) + RowCount(L, n - 1, m)
  }

  lemma {:induction false} TotalCounts(A: array2<int>, L: seq<(int, int)>, n: nat)
    requires Counts(A, L) && n <= A.Length0
    ensures Total(A, n) == TotalCount(L, n, A.Length1)
  {
    if n > 0 {
      TotalCounts(A, L, n - 1);
      RowSumCounts(A, L, n - 1, A.Length1);
    }
  }

  lemma {:induction false} TotalCountLast(L: seq<(int, int)>, n: nat, m: nat)
    requires L != []
    ensures var e := L[|L| - 1];
            TotalCount(L, n, m) == TotalCount(L[..|L| - 1], n, m) + if 0 <= e.0 < n && 0 <= e.1 < m then 1 else 0
  {
    if n > 0 {
      TotalCountLast(L, n - 1, m);
      RowCountLast(L, n - 1, m);
    }
  }

  lemma {:induction false} TotalCountNone(n: nat, m: nat)
    ensures TotalCount([], n, m) == 0
  {
    if n > 0 {
      TotalCountNone(n - 1, m);
      RowCountNone(n - 1, m);
    }
  }

  // The entries of the matrix add up to the number of connections.
  lemma {:induction false} TotalIsLength(L: seq<(int, int)>, n: nat)
    requires forall k :: 0 <= k < |L| ==> 0 <= L[k].0 < n && 0 <= L[k].1 < n
    ensures TotalCount(L, n, n) == |L|
  {
    if L == [] {
      TotalCountNone(n, n);
    } else {
      TotalIsLength(L[..|L| - 1], n);
      TotalCountLast(L, n, n);
    }
  }

  /* ---- verifyTopology ---- */

  datatype Verdict = Fine | Asymmetric | RadixExceeded | Unfair | TooFewConnections | NotUniform | WrongTotal

  // verify symmetry
  method VerifySymmetry(A: array2<int>) returns (ok: bool)
    requires A.Length0 == A.Length1
    ensures ok <==> forall i, j :: 0 <= i < A.Length0 && 0 <= j < A.Length0 ==> A[i, j] == A[j, i]
  {
    for i := 0 to A.Length0
      invariant forall k, j :: 0 <= k < i && 0 <= j < A.Length0 ==> A[k, j] == A[j, k]
    {
      for j := 0 to A.Length0
        invariant forall k :: 0 <= k < j ==> A[i, k] == A[k, i]
      {
        if A[i, j] != A[j, i] {
          return false;
        }
      }
    }
    return true;
  }

  // Leaf or spine r fails the comparison with the expected lengths of its lists.
  predicate Differs(local: Links, glob: Links, r: Router, loc: nat, num: nat) {
    IsNot(From(local, r), loc) || IsNot(From(glob, r), num)
  }

  // verify fairness: `failed` starts anew for each router, so the last leaf decides.
  method Fairness(p: Plus, local: Links, glob: Links) returns (failed: bool)
    requires p.s >= 1 && p.g >= 1
    ensures failed <==> Differs(local, glob, Router(p.g - 1, p.s - 1), From(local, Router(0, 0)), 0)
  {
    failed := false;
    var loc, num := From(local, Router(0, p.s)), From(glob, Router(0, p.s));
    for x := 0 to p.g {
      for u := 0 to p.s {
        failed := Differs(local, glob, Router(x, p.s + u), loc, num);
      }
    }
    loc, num := From(local, Router(0, 0)), 0;
    for x := 0 to p.g
      invariant x > 0 ==> (failed <==> Differs(local, glob, Router(x - 1, p.s - 1), loc, num))
    {
      for l := 0 to p.s
        invariant l > 0 ==> (failed <==> Differs(local, glob, Router(x, l - 1), loc, num))
      {
        failed := Differs(local, glob, Router(x, l), loc, num);
      }
    }
  }

  // verify the uniformity of the connections between groups
  method VerifyUniform(g: nat, toGroup: (nat, nat) -> nat) returns (ok: bool)
    requires g >= 2
    ensures ok <==> forall x, y :: 0 <= x < g && 0 <= y < g && x != y ==> toGroup(x, y) == toGroup(0, 1)
  {
    var between := toGroup(0, 1);
    for x := 0 to g
      invariant forall z, y :: 0 <= z < x && 0 <= y < g && z != y ==> toGroup(z, y) == between
    {
      var others := OthersAfterMe(x, g);
      OthersAre(x, g);
      for k := 0 to |others|
        invariant forall i :: 0 <= i < k ==> toGroup(x, others[i]) == between
      {
        if toGroup(x, others[k]) != between {
          return false;
        }
      }
      forall y | 0 <= y < g && y != x ensures toGroup(x, y) == between {
        assert y in others;
      }
    }
    return true;
  }

  // The other groups are all groups but the own one.
  lemma OthersAre(x: nat, g: nat)
    requires x < g
    ensures forall k :: 0 <= k < |OthersAfterMe(x, g)| ==> 0 <= OthersAfterMe(x, g)[k] < g && OthersAfterMe(x, g)[k] != x
    ensures forall y :: 0 <= y < g && y != x ==> y in OthersAfterMe(x, g)
  {
    AllButAt(x, g);
    var all := AllBut(x, g);
    forall y | 0 <= y < g && y != x ensures y in all {
      assert all[if y < x then y else y - 1] == y;
    }
    RollMembers(all, x);
  }

  lemma RollMembers(s: seq<int>, k: nat)
    ensures forall y :: y in s <==> y in RollLeft(s, k)
  {
    if s != [] {
      var m := k % |s|;
      assert s == s[..m] + s[m..];
    }
  }

  method VerifySum(A: array2<int>, expected: int) returns (ok: bool)
    ensures ok <==> Total(A, A.Length0) == expected
  {
    var sum := 0;
    for i := 0 to A.Length0
      invariant sum == Total(A, i)
    {
      ghost var before := sum;
      for j := 0 to A.Length1
        invariant sum == before + RowSum(A, i, j)
      {
        sum := sum + A[i, j];
      }
    }
    ok := sum == expected;
  }

  // verifyTopology. `sizes` has the number of different connections of each group, and
  // toGroup counts those of a group that lead to another; only the randomised script
  // adds up the links at the end.
  method Verify(p: Plus, A: array2<int>, local: Links, glob: Links, sizes: seq<nat>, toGroup: (nat, nat) -> nat, sumUp: bool)
    returns (v: Verdict)
    requires p.s >= 1 && p.g >= 2 && A.Length0 == A.Length1 && |sizes| == p.g
    ensures v.Fine? <==>
              && (forall i, j :: 0 <= i < A.Length0 && 0 <= j < A.Length0 ==> A[i, j] == A[j, i])
              && RowsFit(A, p.Radix())
              && !Differs(local, glob, Router(p.g - 1, p.s - 1), From(local, Router(0, 0)), 0)
              && (forall x :: 0 <= x < p.g ==> sizes[x] == p.s * p.h)
              && (forall x, y :: 0 <= x < p.g && 0 <= y < p.g && x != y ==> toGroup(x, y) == toGroup(0, 1))
              && (sumUp ==> Total(A, A.Length0) == Expected(p))
  {
    var ok := VerifySymmetry(A);
    if !ok {
      return Asymmetric;
    }
    ok := RowsWithin(A, p.Radix());
    if !ok {
      return RadixExceeded;
    }
    var failed := Fairness(p, local, glob);
    if failed {
      return Unfair;
    }
    for x := 0 to p.g
      invariant forall y :: 0 <= y < x ==> sizes[y] == p.s * p.h
    {
      if sizes[x] != p.s * p.h {
        return TooFewConnections;
      }
    }
    ok := VerifyUniform(p.g, toGroup);
    if !ok {
      return NotUniform;
    }
    if sumUp {
      ok := VerifySum(A, Expected(p));
      if !ok {
        return WrongTotal;
      }
    }
    return Fine;
  }

  // The number of links of all routers without those to the terminals.
  function Expected(p: Plus): int {
    p.Radix() * ((p.s + p.s) * p.g) - p.s * p.s * p.g
  }

  /* ---- why the checks come out as they do ---- */

  // The entry of two routers of the network.
  lemma EntryIs(p: Plus, glob: Links, A: array2<int>, r: Router, q: Router)
    requires AllHave(p.s, p.g, glob) && A.Length0 == A.Length1 == p.Routers() * p.g && Counts(A, Written(p.Routers(), AllConns(p, glob)))
    requires Has(p.Routers(), p.g, r) && Has(p.Routers(), p.g, q)
    ensures 0 <= Gid(p.Routers(), r) < A.Length0 && 0 <= Gid(p.Routers(), q) < A.Length0
    ensures A[Gid(p.Routers(), r), Gid(p.Routers(), q)] == Count(Local(p.s, p.g), (r, q)) + Count(glob, (Down(p.s, r), Down(p.s, q)))
  {
    InRange(p.Routers(), p.g, r);
    InRange(p.Routers(), p.g, q);
    AllConnsHave(p, glob);
    CountWritten(p.Routers(), p.g, AllConns(p, glob), r, q);
    ConnsCount(p, glob, r, q);
  }

  lemma LocalMutual(s: nat, g: nat, r: Router, q: Router)
    ensures Count(Local(s, g), (r, q)) == Count(Local(s, g), (q, r))
  {
    LocalExact(s, g, r, q);
    LocalExact(s, g, q, r);
  }

  // The matrix is symmetric exactly when the global links are.
  lemma SymmetricIff(p: Plus, glob: Links, A: array2<int>)
    requires p.s >= 1 && AllHave(p.s, p.g, glob) && A.Length0 == A.Length1 == p.Routers() * p.g
    requires Counts(A, Written(p.Routers(), AllConns(p, glob)))
    ensures (forall i, j :: 0 <= i < A.Length0 && 0 <= j < A.Length0 ==> A[i, j] == A[j, i]) <==> Mutual(p, glob)
  {
    if Mutual(p, glob) {
      forall i, j | 0 <= i < A.Length0 && 0 <= j < A.Length0 ensures A[i, j] == A[j, i] {
        EntriesMutual(p, glob, A, i, j);
      }
    }
    if forall i, j :: 0 <= i < A.Length0 && 0 <= j < A.Length0 ==> A[i, j] == A[j, i] {
      forall r, q | Has(p.s, p.g, r) && Has(p.s, p.g, q) ensures Count(glob, (r, q)) == Count(glob, (q, r)) {
        var r', q' := Up(p.s, r), Up(p.s, q);
        assert Down(p.s, r') == r && Down(p.s, q') == q;
        EntryIs(p, glob, A, r', q');
        EntryIs(p, glob, A, q', r');
        LocalMutual(p.s, p.g, r', q');
      }
    }
  }

  lemma EntriesMutual(p: Plus, glob: Links, A: array2<int>, i: nat, j: nat)
    requires p.s >= 1 && AllHave(p.s, p.g, glob) && Mutual(p, glob) && A.Length0 == A.Length1 == p.Routers() * p.g
    requires Counts(A, Written(p.Routers(), AllConns(p, glob))) && i < A.Length0 && j < A.Length0
    ensures A[i, j] == A[j, i]
  {
    var a := p.Routers();
    RouterAtHas(a, p.g, i);
    RouterAtHas(a, p.g, j);
    var r, q := RouterAt(a, i), RouterAt(a, j);
    EntryIs(p, glob, A, r, q);
    EntryIs(p, glob, A, q, r);
    LocalMutual(p.s, p.g, r, q);
    NoneOutside(p.s, p.g, glob, Down(p.s, r), Down(p.s, q));
    NoneOutside(p.s, p.g, glob, Down(p.s, q), Down(p.s, r));
  }

  // No router uses more than its radix.
  lemma RowFits(p: Plus, glob: Links, A: array2<int>, i: nat)
    requires p.s >= 1 && Regular(p, glob) && A.Length0 == A.Length1 == p.Routers() * p.g
    requires Counts(A, Written(p.Routers(), AllConns(p, glob))) && i < A.Length0
    ensures RowSum(A, i, A.Length1) <= p.Radix()
  {
    var a := p.Routers();
    RouterAtHas(a, p.g, i);
    RowSumCounts(A, Written(a, AllConns(p, glob)), i, A.Length1);
    AllConnsHave(p, glob);
    RowCountWritten(a, p.g, AllConns(p, glob), RouterAt(a, i));
    ConnsFrom(p, glob, RouterAt(a, i));
  }

  // The last leaf differs from the first exactly when there are too many to share the
  // object of their length.
  lemma LeavesFair(p: Plus, glob: Links)
    requires p.s >= 1 && p.g >= 1 && AllHave(p.s, p.g, glob)
    ensures Differs(Local(p.s, p.g), Lift(p.s, glob), Router(p.g - 1, p.s - 1), From(Local(p.s, p.g), Router(0, 0)), 0) <==> p.s > SHARED
  {
    var last := Router(p.g - 1, p.s - 1);
    LocalDegree(p.s, p.g, last);
    LocalDegree(p.s, p.g, Router(0, 0));
    LiftFrom(p.s, glob, last);
    NoneOutside(p.s, p.g, glob, Down(p.s, last), last);
  }

  // With as many global links per spine as leaves the total is the expected one.
  lemma TotalFits(p: Plus, glob: Links, A: array2<int>)
    requires p.h == p.s && AllHave(p.s, p.g, glob) && |glob| == p.g * (p.s * p.s) && A.Length0 == A.Length1 == p.Routers() * p.g
    requires Counts(A, Written(p.Routers(), AllConns(p, glob)))
    ensures Total(A, A.Length0) == Expected(p)
  {
    var a, conns := p.Routers(), AllConns(p, glob);
    AllConnsHave(p, glob);
    forall k | 0 <= k < |conns| ensures 0 <= Written(a, conns)[k].0 < A.Length0 && 0 <= Written(a, conns)[k].1 < A.Length0 {
      InRange(a, p.g, conns[k].0);
      InRange(a, p.g, conns[k].1);
    }
    TotalCounts(A, Written(a, conns), A.Length0);
    TotalIsLength(Written(a, conns), A.Length0);
    LocalHas(p.s, p.g);
    Products(p.s, p.g);
  }

  lemma Products(s: int, g: int)
    ensures g * (s * (2 * s)) + g * (s * s) == (s + s) * ((s + s) * g) - s * s * g
  {
  }

  // verifyTopology on a network of which only the global links are in question: if each
  // spine starts h of them it passes exactly when they are symmetric, the leaves are few
  // enough, and the lists of the groups are as they should be.
  method VerifyTopology(p: Plus, local: Links, glob: Links, sizes: seq<nat>, toGroup: (nat, nat) -> nat, sumUp: bool) returns (v: Verdict)
    requires p.s >= 1 && p.g >= 2 && |sizes| == p.g && local == Local(p.s, p.g) && AllHave(p.s, p.g, glob)
    ensures v.Fine? ==> forall x :: 0 <= x < p.g ==> sizes[x] == p.s * p.h
    ensures Regular(p, glob) && (sumUp ==> p.h == p.s && |glob| == p.g * (p.s * p.s)) ==>
            (v.Fine? <==>
              && Mutual(p, glob) && p.s <= SHARED
              && (forall x :: 0 <= x < p.g ==> sizes[x] == p.s * p.h)
              && (forall x, y :: 0 <= x < p.g && 0 <= y < p.g && x != y ==> toGroup(x, y) == toGroup(0, 1)))
  {
    var lifted := Lift(p.s, glob);
    AllConnsHave(p, glob);
    var A := Fill(p.s + p.s, p.g, local + lifted);
    if Regular(p, glob) {
      SymmetricIff(p, glob, A);
      forall i | 0 <= i < A.Length0 ensures RowSum(A, i, A.Length1) <= p.Radix() {
        RowFits(p, glob, A, i);
      }
      LeavesFair(p, glob);
      if sumUp && p.h == p.s && |glob| == p.g * (p.s * p.s) {
        TotalFits(p, glob, A);
      }
    }
    v := Verify(p, A, local, lifted, sizes, toGroup, sumUp);
  }
}
