/** Links written for every ordered pair of different groups: what the loops over
    source and destination groups have in common. */
module PairwiseWiring {
  import opened Seqs
  import opened ReversalWiring

  // The links from group x to each of the first n groups, and from the first n
  // groups to all g; pair(x, y) are the links from x to y.
  function RowOf(pair: (int, int) -> seq<(Router, Router)>, x: int, n: nat): seq<(Router, Router)> {
    if n == 0 then [] else RowOf(pair, x, n - 1) + Cell(pair, x, n - 1)
  }

  function Cell(pair: (int, int) -> seq<(Router, Router)>, x: int, y: int): seq<(Router, Router)> {
    if x != y then pair(x, y) else []
  }

  function AllOf(pair: (int, int) -> seq<(Router, Router)>, g: nat, n: nat): seq<(Router, Router)> {
    if n == 0 then [] else AllOf(pair, g, n - 1) + RowOf(pair, n - 1, g)
  }

  lemma {:induction false} RowOfCount(pair: (int, int) -> seq<(Router, Router)>, x: int, n: nat, e: (Router, Router), z: int, total: nat)
    requires forall y :: 0 <= y < n ==> Count(Cell(pair, x, y), e) == if y == z then total else 0
    ensures Count(RowOf(pair, x, n), e) == if 0 <= z < n then total else 0
  {
    if n > 0 {
      RowOfCount(pair, x, n - 1, e, z, total);
      CountConcat(RowOf(pair, x, n - 1), Cell(pair, x, n - 1), e);
    }
  }

  lemma {:induction false} AllOfCount(pair: (int, int) -> seq<(Router, Router)>, g: nat, n: nat, e: (Router, Router), z: int, total: nat)
    requires forall x :: 0 <= x < n ==> Count(RowOf(pair, x, g), e) == if x == z then total else 0
    ensures Count(AllOf(pair, g, n), e) == if 0 <= z < n then total else 0
  {
    if n > 0 {
      AllOfCount(pair, g, n - 1, e, z, total);
      CountConcat(AllOf(pair, g, n - 1), RowOf(pair, n - 1, g), e);
    }
  }

  // When links from x to y have their ends in x and y, the links between two routers
  // are those between their groups.
  lemma PairsOnly(pair: (int, int) -> seq<(Router, Router)>, g: nat, r: Router, q: Router)
    requires forall x, y :: (x, y) != (r.group, q.group) ==> Count(pair(x, y), (r, q)) == 0
    requires 0 <= r.group < g && 0 <= q.group < g
    ensures Count(AllOf(pair, g, g), (r, q)) == if r.group == q.group then 0 else Count(pair(r.group, q.group), (r, q))
  {
    var total := if r.group == q.group then 0 else Count(pair(r.group, q.group), (r, q));
    forall x | 0 <= x < g ensures Count(RowOf(pair, x, g), (r, q)) == if x == r.group then total else 0 {
      RowOfCount(pair, x, g, (r, q), q.group, if x == r.group then total else 0);
    }
    AllOfCount(pair, g, g, (r, q), r.group, total);
  }

  // The weights of all groups below n except x.
  function SumOthers(weight: int -> nat, x: int, n: nat): nat {
    if n == 0 then 0 else SumOthers(weight, x, n - 1) + if n - 1 != x then weight(n - 1) else 0
  }

  lemma {:induction false} RowOfFrom(pair: (int, int) -> seq<(Router, Router)>, x: int, n: nat, r: Router, weight: int -> nat)
    requires forall y :: 0 <= y < n && y != x ==> From(Cell(pair, x, y), r) == weight(y)
    ensures From(RowOf(pair, x, n), r) == SumOthers(weight, x, n)
  {
    if n > 0 {
      RowOfFrom(pair, x, n - 1, r, weight);
      FromConcat(RowOf(pair, x, n - 1), Cell(pair, x, n - 1), r);
    }
  }

  lemma {:induction false} AllOfFrom(pair: (int, int) -> seq<(Router, Router)>, g: nat, n: nat, r: Router, total: nat)
    requires forall x :: 0 <= x < n ==> From(RowOf(pair, x, g), r) == if x == r.group then total else 0
    ensures From(AllOf(pair, g, n), r) == if 0 <= r.group < n then total else 0
  {
    if n > 0 {
      AllOfFrom(pair, g, n - 1, r, total);
      FromConcat(AllOf(pair, g, n - 1), RowOf(pair, n - 1, g), r);
    }
  }

  lemma {:induction false} SumOthersZero(weight: int -> nat, x: int, n: nat)
    requires forall y :: weight(y) == 0
    ensures SumOthers(weight, x, n) == 0
  {
    if n > 0 {
      SumOthersZero(weight, x, n - 1);
    }
  }

  // The links that start at r: those from its group to all the others.
  lemma FromPairs(pair: (int, int) -> seq<(Router, Router)>, g: nat, r: Router, weight: int -> nat)
    requires forall x, y :: From(pair(x, y), r) == if x == r.group then weight(y) else 0
    requires 0 <= r.group < g
    ensures From(AllOf(pair, g, g), r) == SumOthers(weight, r.group, g)
  {
    var zero: int -> nat := _ => 0;
    forall x | 0 <= x < g ensures From(RowOf(pair, x, g), r) == if x == r.group then SumOthers(weight, r.group, g) else 0 {
      RowOfFrom(pair, x, g, r, if x == r.group then weight else zero);
      SumOthersZero(zero, x, g);
    }
    AllOfFrom(pair, g, g, r, SumOthers(weight, r.group, g));
  }

  lemma {:induction false} SameRow(pair: (int, int) -> seq<(Router, Router)>, x: int, n: nat, e: (Router, Router), f: (Router, Router))
    requires forall y :: 0 <= y < n ==> Count(Cell(pair, x, y), e) == Count(Cell(pair, x, y), f)
    ensures Count(RowOf(pair, x, n), e) == Count(RowOf(pair, x, n), f)
  {
    if n > 0 {
      SameRow(pair, x, n - 1, e, f);
      CountConcat(RowOf(pair, x, n - 1), Cell(pair, x, n - 1), e);
      CountConcat(RowOf(pair, x, n - 1), Cell(pair, x, n - 1), f);
    }
  }

  lemma {:induction false} SameCounts(pair: (int, int) -> seq<(Router, Router)>, g: nat, n: nat, e: (Router, Router), f: (Router, Router))
    requires forall x :: 0 <= x < n ==> Count(RowOf(pair, x, g), e) == Count(RowOf(pair, x, g), f)
    ensures Count(AllOf(pair, g, n), e) == Count(AllOf(pair, g, n), f)
  {
    if n > 0 {
      SameCounts(pair, g, n - 1, e, f);
      CountConcat(AllOf(pair, g, n - 1), RowOf(pair, n - 1, g), e);
      CountConcat(AllOf(pair, g, n - 1), RowOf(pair, n - 1, g), f);
    }
  }
}
