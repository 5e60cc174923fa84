/** The LARGE form of scripts/dragonfly-plus/dragonfly-plus-topo-gen.py: every group
    has one link to every other group. */
module PlusLargeTopology {
  import opened Arith
  import opened Seqs
  import opened ReversalWiring
  import opened RouterMatrix

  datatype Result = Raised | Wrote(links: Links)

  function Square(s: nat): Wiring {
    Wiring(s, s, s * s + 1, s * s)
  }

  lemma SquareValid(s: nat)
    requires s >= 1
    ensures Square(s).Valid() && Square(s).ports == Square(s).g - 1
    ensures Square(s).ports % (Square(s).g - 1) == 0 && Square(s).ports / (Square(s).g - 1) == 1
  {
    MulMono(s, 1, s);
    DivModUnique(s * s, s * s, 1, 0);
  }

  // The routers r has a link to, and the ones that have a link to r.
  ghost function Targets(links: Links, r: Router): set<Router> {
    set i | 0 <= i < |links| && links[i].0 == r :: links[i].1
  }

  ghost function Sources(links: Links, r: Router): set<Router> {
    set i | 0 <= i < |links| && links[i].1 == r :: links[i].0
  }

  lemma {:induction false} TargetsBound(links: Links, r: Router)
    ensures |Targets(links, r)| <= From(links, r)
  {
    if links == [] {
      assert Targets(links, r) == {};
    } else {
      var n := |links| - 1;
      TargetsBound(links[..n], r);
      FromLast(links, r);
      assert Targets(links, r) == Targets(links[..n], r) + if links[n].0 == r then {links[n].1} else {};
    }
  }

  /* ---- the matrix and the closing checks ---- */

  // The matrix has a one for each link of the list.
  ghost predicate Marks(A: array2<int>, L: seq<(int, int)>)
    reads A
  {
    forall i, j :: 0 <= i < A.Length0 && 0 <= j < A.Length1 ==> A[i, j] == if (i, j) in L then 1 else 0
  }

  method Mark(a: nat, g: nat, links: Links) returns (A: array2<int>)
    requires AllHave(a, g, links)
    ensures fresh(A) && A.Length0 == A.Length1 == a * g && Marks(A, Written(a, links))
  {
    A := new int[a * g, a * g]((_, _) => 0);
    for k := 0 to |links|
      invariant Marks(A, Written(a, links)[..k])
    {
      InRange(a, g, links[k].0);
      InRange(a, g, links[k].1);
      var src, dst := Gid(a, links[k].0), Gid(a, links[k].1);
      A[src, dst] := 1;
      assert Written(a, links)[..k + 1] == Written(a, links)[..k] + [(src, dst)];
    }
    assert Written(a, links)[..|links|] == Written(a, links);
  }

  lemma {:induction false} MarkedRow(A: array2<int>, L: seq<(int, int)>, i: nat, n: nat)
    requires Marks(A, L) && i < A.Length0 && n <= A.Length1
    ensures RowSum(A, i, n) <= RowCount(L, i, n)
  {
    if n > 0 {
      MarkedRow(A, L, i, n - 1);
      CountPositive(L, (i, n - 1));
    }
  }

  // The entries of two routers, whichever way.
  lemma MarkedBack(w: Wiring, A: array2<int>, i: nat, j: nat)
    requires w.Valid() && Symmetric(w) && A.Length0 == A.Length1 == (2 * w.a) * w.g && i < A.Length0 && j < A.Length0
    requires AllHave(2 * w.a, w.g, Lift(w.a, w.AllLinks())) && Marks(A, Written(2 * w.a, Lift(w.a, w.AllLinks())))
    ensures A[i, j] == A[j, i]
  {
    var s, links, lifted := w.a, w.AllLinks(), Lift(w.a, w.AllLinks());
    LinksHave(w, w.g);
    RouterAtHas(2 * s, w.g, i);
    RouterAtHas(2 * s, w.g, j);
    var r, q := RouterAt(2 * s, i), RouterAt(2 * s, j);
    CountWritten(2 * s, w.g, lifted, r, q);
    CountWritten(2 * s, w.g, lifted, q, r);
    LiftCount(s, links, r, q);
    LiftCount(s, links, q, r);
    if !(w.Has(Down(s, r)) && w.Has(Down(s, q))) {
      NoneOutside(s, w.g, links, Down(s, r), Down(s, q));
      NoneOutside(s, w.g, links, Down(s, q), Down(s, r));
    }
    CountPositive(Written(2 * s, lifted), (i, j));
    CountPositive(Written(2 * s, lifted), (j, i));
  }

  // No row has more ones than a spine has global links.
  lemma MarkedFits(w: Wiring, A: array2<int>, i: nat)
    requires w.Valid() && A.Length0 == A.Length1 == (2 * w.a) * w.g && i < A.Length0
    requires AllHave(2 * w.a, w.g, Lift(w.a, w.AllLinks())) && Marks(A, Written(2 * w.a, Lift(w.a, w.AllLinks())))
    ensures RowSum(A, i, A.Length1) <= w.h
  {
    var s, links, lifted := w.a, w.AllLinks(), Lift(w.a, w.AllLinks());
    LinksHave(w, w.g);
    MarkedRow(A, Written(2 * s, lifted), i, A.Length1);
    RouterAtHas(2 * s, w.g, i);
    var r := RouterAt(2 * s, i);
    RowCountWritten(2 * s, w.g, lifted, r);
    LiftFrom(s, links, r);
    if w.Has(Down(s, r)) {
      OutDegree(w, w.g, Down(s, r));
    } else {
      NoneOutside(s, w.g, links, Down(s, r), r);
    }
  }

  lemma LiftHave(w: Wiring)
    requires w.Valid()
    ensures AllHave(2 * w.a, w.g, Lift(w.a, w.AllLinks()))
  {
    LinksHave(w, w.g);
  }

  // The sums of all rows and of all columns against the upward radix.
  method CloseChecks(s: nat, g: nat, links: Links, up: nat) returns (ok: bool)
    requires s >= 1 && up == s && g == Square(s).g && links == Square(s).AllLinks()
    ensures ok
  {
    ghost var w := Square(s);
    SquareValid(s);
    LiftHave(w);
    SymmetricIffDivides(w);
    var A := Mark(s + s, g, Lift(s, links));
    forall i | 0 <= i < A.Length0 ensures RowSum(A, i, A.Length1) <= up {
      MarkedFits(w, A, i);
    }
    forall i, j | 0 <= i < A.Length0 && 0 <= j < A.Length0 ensures A[i, j] == A[j, i] {
      MarkedBack(w, A, i, j);
    }
    ColumnsAsRows(A, up);
    ok := RowsWithin(A, up);
    if ok {
      ok := ColumnsWithin(A, up);
    }
  }

  // writeInter for TopSize.LARGE, with its guards in order and the closing checks; the
  // guards leave one shape: as many leaves as spines, and one more group than spines
  // squared.
  method WriteInter(groups: nat, spines: nat, leaves: nat) returns (r: Result)
    requires groups >= 1 && spines >= 1
    ensures r.Wrote? <==> leaves == spines && groups == spines * spines + 1
    ensures r.Wrote? ==> r.links == Square(spines).AllLinks()
  {
    var up, others := leaves, groups - 1;
    if others % spines != 0 {
      SquareDivides(spines);
      return Raised;
    }
    if others != spines * spines || others != spines * up || up > groups || up != spines {
      SquareBounds(spines);
      return Raised;
    }
    SquareValid(spines);
    ghost var w := Square(spines);
    var links := [];
    var x := 0;
    while x < groups
      invariant 0 <= x <= groups && links == w.Links(x)
    {
      var spine := 0;
      while spine < spines
        invariant 0 <= spine <= spines && links == w.Links(x) + w.GroupLinks(x, spine * up)
      {
        ghost var base := spine * up;
        for ii := 0 to up
          invariant links == w.Links(x) + w.GroupLinks(x, base + ii)
        {
          var index := (x + 1 + ii + spine * up) % groups;
          PortOf(spines, spine, ii);
          DivModUnique(base + ii, w.g - 1, 0, base + ii);
          DivModUnique(base + ii, w.h, spine, ii);
          links := links + [(Router(x, spine), Router(index, spines - 1 - spine))];
        }
        assert (spine + 1) * up == base + up;
        spine := spine + 1;
      }
      x := x + 1;
    }
    var ok := CloseChecks(spines, groups, links, up);
    r := if ok then Wrote(links) else Raised;
  }

  lemma SquareDivides(s: nat)
    requires s >= 1
    ensures (s * s) % s == 0
  {
    DivModUnique(s * s, s, s, 0);
  }

  lemma SquareBounds(s: nat)
    requires s >= 1
    ensures s <= s * s
  {
    MulMono(s, 1, s);
  }

  lemma PortOf(s: nat, spine: nat, ii: nat)
    requires spine < s && ii < s
    ensures 0 <= spine * s + ii < s * s
  {
    MulMono(s, spine, s - 1);
    assert s * (s - 1) == s * s - s;
  }

  // What is written is symmetric, has exactly one link between any two groups, and
  // neither of the two closing radix checks can fail.
  lemma WrittenIsRegular(s: nat, r: Router)
    requires s >= 1 && Square(s).Has(r)
    ensures Square(s).Valid() && Symmetric(Square(s))
    ensures From(Square(s).AllLinks(), r) == s
    ensures |Targets(Square(s).AllLinks(), r)| <= s && |Sources(Square(s).AllLinks(), r)| <= s
  {
    SquareValid(s);
    var w := Square(s);
    var links := w.AllLinks();
    SymmetricIffDivides(w);
    OutDegree(w, w.g, r);
    TargetsBound(links, r);
    LinksHave(w, w.g);
    forall q | q in Sources(links, r) ensures q in Targets(links, r) {
      var i :| 0 <= i < |links| && links[i] == (q, r);
      CountPositive(links, (q, r));
      CountPositive(links, (r, q));
    }
    SubsetSize(Sources(links, r), Targets(links, r));
  }

  lemma SubsetSize(a: set<Router>, b: set<Router>)
    requires a <= b
    ensures |a| <= |b|
  {
    assert b == a + (b - a);
  }

  lemma OneLinkPerPair(s: nat, x: int, y: int)
    requires s >= 1 && 0 <= x < s * s + 1 && 0 <= y < s * s + 1 && x != y
    ensures Count(Pairs(Square(s), s * s + 1), (x, y)) == 1
  {
    SquareValid(s);
    PairsCount(Square(s), s * s + 1, x, y);
    OffsetBack(Square(s), x, y);
  }
}
