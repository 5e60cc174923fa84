/** Routers numbered through a network of groups, and the adjacency matrix over these
    numbers that the topology generators fill and check. */
module RouterMatrix {
  import opened Arith
  import opened Seqs
  import opened ReversalWiring

  type Links = seq<(Router, Router)>

  /* ---- numbers ---- */

  // Router `number` of a group of a routers.
  function Gid(a: int, r: Router): int {
    r.number + r.group * a
  }

  lemma GidParts(a: int, r: Router)
    requires 0 <= r.number < a
    ensures Gid(a, r) / a == r.group && Gid(a, r) % a == r.number
  {
    DivModUnique(Gid(a, r), a, r.group, r.number);
  }

  lemma GidIs(a: int, r: Router, s: int)
    requires 0 <= r.number < a
    ensures s == Gid(a, r) <==> s / a == r.group && s % a == r.number
  {
    GidParts(a, r);
  }

  lemma InRange(a: int, g: int, r: Router)
    requires 0 <= r.number < a && 0 <= r.group < g
    ensures 0 <= Gid(a, r) < a * g
  {
    MulMono(a, r.group, g - 1);
    assert a * (g - 1) == a * g - a;
  }

  lemma GroupInRange(a: int, g: int, s: int)
    requires a > 0 && 0 <= s < a * g
    ensures 0 <= s / a < g
  {
    if s / a >= g {
      MulMono(a, g, s / a);
    }
  }

  predicate Has(a: int, g: int, r: Router) {
    0 <= r.group < g && 0 <= r.number < a
  }

  ghost predicate AllHave(a: int, g: int, links: Links) {
    forall i :: 0 <= i < |links| ==> Has(a, g, links[i].0) && Has(a, g, links[i].1)
  }

  lemma {:induction false} GroupLinksHave(w: Wiring, z: int, n: nat)
    requires w.Valid() && 0 <= z < w.g && n <= w.ports
    ensures AllHave(w.a, w.g, w.GroupLinks(z, n))
  {
    if n > 0 {
      GroupLinksHave(w, z, n - 1);
      PortRange(w, n - 1);
      OtherRange(w, z, n - 1);
    }
  }

  // The links of a wiring join its routers.
  lemma {:induction false} LinksHave(w: Wiring, n: nat)
    requires w.Valid() && n <= w.g
    ensures AllHave(w.a, w.g, w.Links(n))
  {
    if n > 0 {
      LinksHave(w, n - 1);
      GroupLinksHave(w, n - 1, w.ports);
    }
  }

  function RouterAt(a: int, s: int): Router
    requires a > 0
  {
    Router(s / a, s % a)
  }

  lemma RouterAtHas(a: int, g: int, s: int)
    requires a > 0 && 0 <= s < a * g
    ensures Has(a, g, RouterAt(a, s)) && Gid(a, RouterAt(a, s)) == s
  {
    GroupInRange(a, g, s);
  }

  // Links written as pairs of global router numbers.
  function Written(a: int, links: Links): seq<(int, int)> {
    seq(|links|, i requires 0 <= i < |links| => (Gid(a, links[i].0), Gid(a, links[i].1)))
  }

  /* ---- the matrix ---- */

  // One link: what the file says, and its entry in the matrix.
  method Enter(a: int, ghost g: int, A: array2<int>, src: Router, dst: Router) returns (e: (int, int))
    requires A.Length0 == A.Length1 == a * g
    requires 0 <= src.number < a && 0 <= src.group < g && 0 <= dst.number < a && 0 <= dst.group < g
    modifies A
    ensures e == (Gid(a, src), Gid(a, dst))
    ensures forall s, d :: 0 <= s < A.Length0 && 0 <= d < A.Length0 ==> A[s, d] == old(A[s, d]) + if (s, d) == e then 1 else 0
  {
    InRange(a, g, src);
    InRange(a, g, dst);
    e := (Gid(a, src), Gid(a, dst));
    A[e.0, e.1] := A[e.0, e.1] + 1;
  }

  ghost function RowSum(A: array2<int>, s: int, n: nat): int
    requires 0 <= s < A.Length0 && n <= A.Length1
    reads A
  {
    if n == 0 then 0 else RowSum(A, s, n - 1) + A[s, n - 1]
  }

  ghost function ColSum(A: array2<int>, d: int, n: nat): int
    requires 0 <= d < A.Length1 && n <= A.Length0
    reads A
  {
    if n == 0 then 0 else ColSum(A, d, n - 1) + A[n - 1, d]
  }

  method RowsWithin(A: array2<int>, limit: int) returns (ok: bool)
    ensures ok <==> RowsFit(A, limit)
  {
    for i := 0 to A.Length0
      invariant forall k :: 0 <= k < i ==> RowSum(A, k, A.Length1) <= limit
    {
      var sum := 0;
      for j := 0 to A.Length1
        invariant sum == RowSum(A, i, j)
      {
        sum := sum + A[i, j];
      }
      if sum > limit {
        return false;
      }
    }
    return true;
  }

  method ColumnsWithin(A: array2<int>, limit: int) returns (ok: bool)
    ensures ok <==> ColumnsFit(A, limit)
  {
    for j := 0 to A.Length1
      invariant forall k :: 0 <= k < j ==> ColSum(A, k, A.Length0) <= limit
    {
      var sum := 0;
      for i := 0 to A.Length0
        invariant sum == ColSum(A, j, i)
      {
        sum := sum + A[i, j];
      }
      if sum > limit {
        return false;
      }
    }
    return true;
  }

  lemma {:induction false} ColSumIs(A: array2<int>, d: int, n: nat)
    requires A.Length0 == A.Length1 && 0 <= d < A.Length0 && n <= A.Length0
    requires forall s :: 0 <= s < A.Length0 ==> A[s, d] == A[d, s]
    ensures ColSum(A, d, n) == RowSum(A, d, n)
  {
    if n > 0 {
      ColSumIs(A, d, n - 1);
    }
  }

  // No row, and no column, adds up to more than the limit.
  ghost predicate RowsFit(A: array2<int>, limit: int)
    reads A
  {
    forall i :: 0 <= i < A.Length0 ==> RowSum(A, i, A.Length1) <= limit
  }

  ghost predicate ColumnsFit(A: array2<int>, limit: int)
    reads A
  {
    forall j :: 0 <= j < A.Length1 ==> ColSum(A, j, A.Length0) <= limit
  }

  // For a symmetric matrix that is the same.
  lemma ColumnsAsRows(A: array2<int>, limit: int)
    requires A.Length0 == A.Length1 && forall s, d :: 0 <= s < A.Length0 && 0 <= d < A.Length0 ==> A[s, d] == A[d, s]
    ensures RowsFit(A, limit) <==> ColumnsFit(A, limit)
  {
    forall d | 0 <= d < A.Length0 ensures ColSum(A, d, A.Length0) == RowSum(A, d, A.Length1) {
      ColSumIs(A, d, A.Length0);
    }
  }

  /* ---- counting ---- */

  // The pairs of L that start at s and end below n.
  function RowCount(L: seq<(int, int)>, s: int, n: nat): nat {
    if n == 0 then 0 else RowCount(L, s, n - 1) + Count(L, (s, n - 1))
  }

  lemma {:induction false} RowCountLast(L: seq<(int, int)>, s: int, n: nat)
    requires L != []
    ensures var e := L[|L| - 1];
            RowCount(L, s, n) == RowCount(L[..|L| - 1], s, n) + if e.0 == s && 0 <= e.1 < n then 1 else 0
  {
    if n > 0 {
      RowCountLast(L, s, n - 1);
      CountLast(L, (s, n - 1));
    }
  }

  lemma {:induction false} RowCountNone(s: int, n: nat)
    ensures RowCount([], s, n) == 0
  {
    if n > 0 {
      RowCountNone(s, n - 1);
    }
  }

  lemma SameGid(a: int, r: Router, q: Router)
    requires 0 <= r.number < a && 0 <= q.number < a
    ensures Gid(a, r) == Gid(a, q) <==> r == q
  {
    GidParts(a, r);
    GidParts(a, q);
  }

  // Numbering the routers keeps every count.
  lemma {:induction false} CountWritten(a: int, g: int, links: seq<(Router, Router)>, r: Router, q: Router)
    requires AllHave(a, g, links) && Has(a, g, r) && Has(a, g, q)
    ensures Count(Written(a, links), (Gid(a, r), Gid(a, q))) == Count(links, (r, q))
  {
    if links != [] {
      var n := |links| - 1;
      CountWritten(a, g, links[..n], r, q);
      assert Written(a, links)[..n] == Written(a, links[..n]);
      CountLast(Written(a, links), (Gid(a, r), Gid(a, q)));
      CountLast(links, (r, q));
      SameGid(a, links[n].0, r);
      SameGid(a, links[n].1, q);
    }
  }

  lemma {:induction false} RowCountWritten(a: int, g: int, links: seq<(Router, Router)>, r: Router)
    requires AllHave(a, g, links) && Has(a, g, r) && a * g >= 0
    ensures RowCount(Written(a, links), Gid(a, r), a * g) == From(links, r)
  {
    if links == [] {
      RowCountNone(Gid(a, r), a * g);
    } else {
      var n := |links| - 1;
      RowCountWritten(a, g, links[..n], r);
      RowCountLast(Written(a, links), Gid(a, r), a * g);
      assert Written(a, links)[..n] == Written(a, links[..n]);
      FromLast(links, r);
      SameGid(a, links[n].0, r);
      InRange(a, g, links[n].1);
    }
  }

  /* ---- links between spines, which come behind the s leaves of a group ---- */

  // Spine u of a group by its number in the group, and back.
  function Up(s: nat, r: Router): Router { Router(r.group, r.number + s) }

  function Down(s: nat, r: Router): Router { Router(r.group, r.number - s) }

  function Lift(s: nat, links: Links): Links {
    seq(|links|, i requires 0 <= i < |links| => (Up(s, links[i].0), Up(s, links[i].1)))
  }

  lemma {:induction false} LiftCount(s: nat, links: Links, r: Router, q: Router)
    ensures Count(Lift(s, links), (r, q)) == Count(links, (Down(s, r), Down(s, q)))
  {
    if links != [] {
      var n := |links| - 1;
      LiftCount(s, links[..n], r, q);
      assert Lift(s, links)[..n] == Lift(s, links[..n]);
      CountLast(Lift(s, links), (r, q));
      CountLast(links, (Down(s, r), Down(s, q)));
    }
  }

  lemma {:induction false} LiftFrom(s: nat, links: Links, r: Router)
    ensures From(Lift(s, links), r) == From(links, Down(s, r))
  {
    if links != [] {
      var n := |links| - 1;
      LiftFrom(s, links[..n], r);
      assert Lift(s, links)[..n] == Lift(s, links[..n]);
      FromLast(Lift(s, links), r);
      FromLast(links, Down(s, r));
    }
  }

  // A router that is not there has no links.
  lemma {:induction false} NoneOutside(a: int, g: int, links: Links, r: Router, q: Router)
    requires AllHave(a, g, links)
    ensures !Has(a, g, r) ==> From(links, r) == 0
    ensures !Has(a, g, r) || !Has(a, g, q) ==> Count(links, (r, q)) == 0
  {
    if links != [] {
      var n := |links| - 1;
      NoneOutside(a, g, links[..n], r, q);
      FromLast(links, r);
      CountLast(links, (r, q));
    }
  }
}
