/** The inter-group links of scripts/simple_con.c: g groups of r routers, numbered
    through; group d is served by router d mod r of every other group. */
module SimpleConnections {
  import opened Arith
  import opened Seqs

  // Link number `blue` of a router.
  function Link(r: int, router: int, blue: int): (int, int)
    requires r > 0
  {
    (router, (blue * r + router % r) * r + router / r % r)
  }

  function NumLinks(g: int, r: int, router: int): int
    requires r > 0
  {
    g / r + if router % r < g % r then 1 else 0
  }

  // The links of the first n numbers of a router, none to its own group.
  function RouterLinks(r: int, router: int, n: nat): seq<(int, int)>
    requires r > 0
  {
    if n == 0 then [] else
    RouterLinks(r, router, n - 1) + if (n - 1) * r + router % r != router / r then [Link(r, router, n - 1)] else []
  }

  function Links(g: nat, r: int, n: nat): (s: seq<(int, int)>)
    requires r > 0
  {
    if n == 0 then [] else
    Links(g, r, n - 1) + RouterLinks(r, n - 1, if NumLinks(g, r, n - 1) >= 0 then NumLinks(g, r, n - 1) else 0)
  }

  method WriteInter(g: nat, r: nat) returns (links: seq<(int, int)>)
    ensures r > 0 ==> links == Links(g, r, g * r)
    ensures r == 0 ==> links == []
  {
    links := [];
    var router := 0;
    for groups := 0 to g
      invariant router == groups * r
      invariant r > 0 ==> links == Links(g, r, router)
      invariant r == 0 ==> links == []
    {
      for rows := 0 to r
        invariant router == groups * r + rows
        invariant r > 0 ==> links == Links(g, r, router)
        invariant r == 0 ==> links == []
      {
        var more := WriteRouter(g, r, router);
        links := links + more;
        router := router + 1;
      }
      assert (groups + 1) * r == groups * r + r;
    }
  }

  method WriteRouter(g: nat, r: nat, router: nat) returns (links: seq<(int, int)>)
    requires r > 0
    ensures NumLinks(g, r, router) >= 0 && links == RouterLinks(r, router, NumLinks(g, r, router))
  {
    var myOff, numLink := router % r, g / r;
    NumLinksNat(g, r, router);
    if g % r != 0 {
      if router % r < g % r {
        numLink := numLink + 1;
      }
    }
    var myG := router / r;
    links := [];
    for blues := 0 to numLink
      invariant links == RouterLinks(r, router, blues)
    {
      var dest := blues * r + myOff;
      if dest != myG {
        links := links + [(router, dest * r + myG % r)];
      }
    }
  }

  /* ---- which links there are ---- */

  // From router u to router v: the number of u in its group says which group v is in,
  // and the other way round.
  predicate Wired(g: int, r: int, u: int, v: int)
    requires r > 0
  {
    0 <= u < g * r && 0 <= v < g * r && u / r != v / r && u % r == v / r % r && v % r == u / r % r
  }

  lemma LinkIs(r: int, u: int, blue: int, v: int)
    requires r > 0
    ensures Link(r, u, blue).1 == v <==> v % r == u / r % r && v / r % r == u % r && v / r / r == blue
    ensures Link(r, u, blue).1 == v ==> v / r == blue * r + u % r
  {
    var d := blue * r + u % r;
    DivModUnique(d * r + u / r % r, r, d, u / r % r);
    DivModUnique(d, r, blue, u % r);
  }

  lemma {:induction false} RouterLinksCount(r: int, router: int, n: nat, u: int, v: int)
    requires r > 0
    ensures Count(RouterLinks(r, router, n), (u, v))
         == if router == u && v % r == u / r % r && v / r % r == u % r && v / r != u / r && 0 <= v / r / r < n then 1 else 0
  {
    if n > 0 {
      RouterLinksCount(r, router, n - 1, u, v);
      LinkIs(r, router, n - 1, v);
      if (n - 1) * r + router % r != router / r {
        CountSnoc(RouterLinks(r, router, n - 1), Link(r, router, n - 1), (u, v));
      } else {
        assert RouterLinks(r, router, n - 1) + [] == RouterLinks(r, router, n - 1);
      }
    }
  }

  // Router k of a group has just the links it needs: group d with d mod r = k has
  // quotient below NumLinks exactly when it exists.
  lemma NumLinksExact(g: nat, r: int, router: int, d: int)
    requires r > 0 && d % r == router % r
    ensures d < g <==> d / r < NumLinks(g, r, router)
  {
    QuotientOrder(r, d / r, d % r, g / r, g % r);
  }

  lemma QuotientOrder(r: int, p: int, k: int, q: int, m: int)
    requires 0 <= k < r && 0 <= m < r
    ensures r * p + k < r * q + m <==> p < q + if k < m then 1 else 0
  {
    if p < q {
      MulMono(r, p + 1, q);
      assert r * (p + 1) == r * p + r;
    } else if p > q {
      MulMono(r, q + 1, p);
      assert r * (q + 1) == r * q + r;
    }
  }

  lemma NumLinksNat(g: nat, r: int, router: int)
    requires r > 0
    ensures NumLinks(g, r, router) >= 0
  {
    if g / r < 0 {
      MulMono(r, g / r, -1);
    }
  }

  lemma {:induction false} LinksCount(g: nat, r: int, n: nat, u: int, v: int)
    requires r > 0 && u >= 0
    ensures NumLinks(g, r, u) >= 0
    ensures Count(Links(g, r, n), (u, v)) == if u < n then Count(RouterLinks(r, u, NumLinks(g, r, u)), (u, v)) else 0
  {
    NumLinksNat(g, r, u);
    if n > 0 {
      NumLinksNat(g, r, n - 1);
      LinksCount(g, r, n - 1, u, v);
      var k: nat := NumLinks(g, r, n - 1);
      RouterLinksCount(r, n - 1, k, u, v);
      CountConcat(Links(g, r, n - 1), RouterLinks(r, n - 1, k), (u, v));
    }
  }

  lemma RouterInNetwork(g: nat, r: int, v: int)
    requires r > 0
    ensures 0 <= v < g * r <==> 0 <= v / r < g
  {
    QuotientOrder(r, v / r, v % r, g, 0);
    QuotientOrder(r, v / r, v % r, 0, 0);
  }

  // Every link of the network is written once, and nothing else is: no router that
  // does not exist and no link within a group.
  lemma LinksExact(g: nat, r: int, u: int, v: int)
    requires r > 0
    ensures Count(Links(g, r, g * r), (u, v)) == if Wired(g, r, u, v) then 1 else 0
  {
    if u < 0 {
      NegativeNever(g, r, g * r, u, v);
    } else {
      LinksCount(g, r, g * r, u, v);
      var k := NumLinks(g, r, u);
      RouterLinksCount(r, u, k, u, v);
      LinkInRange(g, r, u, v, v / r, k);
    }
  }

  // A router whose group has the right residue exists exactly when its link is one of
  // the k that are written.
  lemma LinkInRange(g: nat, r: int, u: int, v: int, y: int, k: int)
    requires r > 0 && y == v / r && k == NumLinks(g, r, u)
    ensures y % r == u % r ==> (0 <= y / r < k <==> 0 <= v < g * r)
  {
    RouterInNetwork(g, r, v);
    if y % r == u % r {
      NumLinksExact(g, r, u, y);
      QuotientOrder(r, y / r, y % r, 0, 0);
    }
  }

  lemma {:induction false} NegativeNever(g: nat, r: int, n: nat, u: int, v: int)
    requires r > 0 && u < 0
    ensures Count(Links(g, r, n), (u, v)) == 0
  {
    if n > 0 {
      NegativeNever(g, r, n - 1, u, v);
      NumLinksNat(g, r, n - 1);
      RouterLinksCount(r, n - 1, NumLinks(g, r, n - 1), u, v);
      CountConcat(Links(g, r, n - 1), RouterLinks(r, n - 1, NumLinks(g, r, n - 1)), (u, v));
    }
  }

  // The list is closed under reversal.
  lemma LinksSymmetric(g: nat, r: int, u: int, v: int)
    requires r > 0
    ensures Count(Links(g, r, g * r), (u, v)) == Count(Links(g, r, g * r), (v, u))
  {
    LinksExact(g, r, u, v);
    LinksExact(g, r, v, u);
  }

  // For two different groups there is one link from the first to the second: between
  // the two routers whose numbers name the other group.
  lemma OnePerPair(g: nat, r: int, x: int, y: int, k: int, l: int)
    requires r > 0 && 0 <= x < g && 0 <= y < g && x != y && 0 <= k < r && 0 <= l < r
    ensures Count(Links(g, r, g * r), (r * x + k, r * y + l)) == if k == y % r && l == x % r then 1 else 0
  {
    var u, v := r * x + k, r * y + l;
    DivModUnique(u, r, x, k);
    DivModUnique(v, r, y, l);
    RouterInNetwork(g, r, u);
    RouterInNetwork(g, r, v);
    LinksExact(g, r, u, v);
  }
}
