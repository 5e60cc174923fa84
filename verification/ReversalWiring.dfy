/** The arrangement of global links that the dragonfly generators share.

    A group has `a` routers with `h` global ports each.  Port p of group x belongs to
    router p / h and leads to the group p mod (g - 1) places after the next one; the
    link ends at the router with the mirrored number.  Under the right condition
    port p is answered by port a*h-1-p of the other group. */
module ReversalWiring {
  import opened Arith
  import opened Residues
  import opened Seqs

  // A router by its group and its number among the routers with global ports.
  datatype Router = Router(group: int, number: int)

  datatype Wiring = Wiring(a: int, h: int, g: int, ports: int) {
    ghost predicate Valid() {
      a >= 1 && h >= 1 && g >= 2 && ports == a * h && ports >= 1
    }

    predicate Has(r: Router) {
      0 <= r.group < g && 0 <= r.number < a
    }

    function Other(x: int, p: int): int
      requires g >= 2
    {
      (x + 1 + p % (g - 1)) % g
    }

    function Link(x: int, p: int): (Router, Router)
      requires g >= 2 && h >= 1
    {
      (Router(x, p / h), Router(Other(x, p), a - 1 - p / h))
    }

    // The links of the first n ports of group x, and of the first n groups.
    function GroupLinks(x: int, n: nat): seq<(Router, Router)>
      requires g >= 2 && h >= 1
    {
      if n == 0 then [] else GroupLinks(x, n - 1) + [Link(x, n - 1)]
    }

    function Links(n: nat): seq<(Router, Router)>
      requires g >= 2 && h >= 1 && ports >= 0
    {
      if n == 0 then [] else Links(n - 1) + GroupLinks(n - 1, ports)
    }

    function AllLinks(): seq<(Router, Router)>
      requires g >= 2 && h >= 1 && ports >= 0
    {
      Links(g)
    }

    // How far group y is after group x, and back.
    function Offset(x: int, y: int): int
    {
      if y > x then y - x - 1 else y - x - 1 + g
    }
  }

  /* ---- ports and groups ---- */

  lemma OtherIs(w: Wiring, x: int, p: int, y: int)
    requires w.Valid() && 0 <= x < w.g && 0 <= y < w.g && x != y
    ensures w.Other(x, p) == y <==> p % (w.g - 1) == w.Offset(x, y)
  {
    OtherRange(w, x, p);
    var k := p % (w.g - 1);
    if x + 1 + k < w.g {
      DivModUnique(x + 1 + k, w.g, 0, x + 1 + k);
    } else {
      DivModUnique(x + 1 + k, w.g, 1, x + 1 + k - w.g);
    }
  }

  lemma OtherRange(w: Wiring, x: int, p: int)
    requires w.Valid() && 0 <= x < w.g
    ensures 0 <= w.Other(x, p) < w.g && w.Other(x, p) != x
  {
    var k := p % (w.g - 1);
    assert 0 <= k < w.g - 1;
    if x + 1 + k < w.g {
      DivModUnique(x + 1 + k, w.g, 0, x + 1 + k);
    } else {
      DivModUnique(x + 1 + k, w.g, 1, x + 1 + k - w.g);
    }
  }

  lemma PortRange(w: Wiring, p: int)
    requires w.Valid() && 0 <= p < w.ports
    ensures 0 <= p / w.h < w.a
  {
    if p / w.h >= w.a {
      assert w.h * (p / w.h) >= w.h * w.a by {
        MulMono(w.h, w.a, p / w.h);
      }
    }
  }

  // Mirrored ports: the router number and the remainder are both mirrored, when
  // the number of other groups divides the number of ports.
  lemma Mirror(w: Wiring, p: int)
    requires w.Valid() && 0 <= p < w.ports
    ensures 0 <= w.ports - 1 - p < w.ports && (w.ports - 1 - p) / w.h == w.a - 1 - p / w.h
    ensures w.ports % (w.g - 1) == 0 ==> (w.ports - 1 - p) % (w.g - 1) == w.g - 2 - p % (w.g - 1)
  {
    var a, h, m, n := w.a, w.h, w.g - 1, w.ports;
    var q, r := p / h, p % h;
    assert n - 1 - p == h * (a - 1 - q) + (h - 1 - r) by {
      assert h * (a - 1 - q) == h * a - h - h * q;
    }
    DivModUnique(n - 1 - p, h, a - 1 - q, h - 1 - r);
    if n % m == 0 {
      var c, q', r' := n / m, p / m, p % m;
      assert n - 1 - p == m * (c - 1 - q') + (m - 1 - r') by {
        assert m * (c - 1 - q') == m * c - m - m * q';
      }
      DivModUnique(n - 1 - p, m, c - 1 - q', m - 1 - r');
    }
  }

  // The involution: the mirrored port of the other group carries the reversed link,
  // and its own mirror is the port we started from.
  lemma Involution(w: Wiring, x: int, p: int)
    requires w.Valid() && w.ports % (w.g - 1) == 0 && 0 <= x < w.g && 0 <= p < w.ports
    ensures var y, q := w.Other(x, p), w.ports - 1 - p;
            && 0 <= y < w.g && 0 <= q < w.ports
            && w.Link(y, q) == (w.Link(x, p).1, w.Link(x, p).0)
            && w.Other(y, q) == x
  {
    var y, q := w.Other(x, p), w.ports - 1 - p;
    OtherRange(w, x, p);
    Mirror(w, p);
    OtherIs(w, x, p, y);
    OtherIs(w, y, q, x);
  }

  /* ---- counting links ---- */

  // The ports p in lo..hi of router u that lead k groups further.
  function Hits(w: Wiring, u: int, k: int, lo: int, hi: int): nat
    requires w.g >= 2 && w.h >= 1
    decreases hi - lo
  {
    if hi <= lo then 0 else Hits(w, u, k, lo, hi - 1) + if (hi - 1) / w.h == u && (hi - 1) % (w.g - 1) == k then 1 else 0
  }

  lemma {:induction false} HitsFromBelow(w: Wiring, u: int, k: int, lo: int, hi: int)
    requires w.g >= 2 && w.h >= 1 && lo < hi
    ensures Hits(w, u, k, lo, hi) == Hits(w, u, k, lo + 1, hi) + if lo / w.h == u && lo % (w.g - 1) == k then 1 else 0
    decreases hi - lo
  {
    if lo + 1 < hi {
      HitsFromBelow(w, u, k, lo, hi - 1);
    }
  }

  lemma {:induction false} HitsMirror(w: Wiring, u: int, k: int, lo: int, hi: int)
    requires w.Valid() && w.ports % (w.g - 1) == 0 && 0 <= lo <= hi <= w.ports
    ensures Hits(w, u, k, lo, hi) == Hits(w, w.a - 1 - u, w.g - 2 - k, w.ports - hi, w.ports - lo)
    decreases hi - lo
  {
    if lo < hi {
      HitsMirror(w, u, k, lo, hi - 1);
      Mirror(w, hi - 1);
      HitsFromBelow(w, w.a - 1 - u, w.g - 2 - k, w.ports - hi, w.ports - lo);
    }
  }

  // The links between two routers: none unless they are mirror images in different
  // groups, and otherwise one for each port that leads there.
  ghost function Between(w: Wiring, r: Router, q: Router): nat
    requires w.Valid()
  {
    if r.group != q.group && q.number == w.a - 1 - r.number
    then Hits(w, r.number, w.Offset(r.group, q.group), 0, w.ports) else 0
  }

  lemma LinkIs(w: Wiring, z: int, p: int, r: Router, q: Router)
    requires w.Valid() && 0 <= z < w.g && w.Has(r) && w.Has(q)
    ensures w.Link(z, p) == (r, q) <==>
            z == r.group != q.group && p / w.h == r.number && q.number == w.a - 1 - r.number
            && p % (w.g - 1) == w.Offset(r.group, q.group)
  {
    OtherRange(w, z, p);
    if z != q.group {
      OtherIs(w, z, p, q.group);
    }
  }

  lemma {:induction false} GroupLinksCount(w: Wiring, z: int, n: nat, r: Router, q: Router)
    requires w.Valid() && n <= w.ports && 0 <= z < w.g && w.Has(r) && w.Has(q)
    ensures Count(w.GroupLinks(z, n), (r, q)) ==
            if z == r.group != q.group && q.number == w.a - 1 - r.number
            then Hits(w, r.number, w.Offset(r.group, q.group), 0, n) else 0
  {
    if n > 0 {
      GroupLinksCount(w, z, n - 1, r, q);
      CountSnoc(w.GroupLinks(z, n - 1), w.Link(z, n - 1), (r, q));
      LinkIs(w, z, n - 1, r, q);
    }
  }

  lemma {:induction false} LinksCount(w: Wiring, n: nat, r: Router, q: Router)
    requires w.Valid() && n <= w.g && w.Has(r) && w.Has(q)
    ensures Count(w.Links(n), (r, q)) == if r.group < n then Between(w, r, q) else 0
  {
    if n > 0 {
      LinksCount(w, n - 1, r, q);
      GroupLinksCount(w, n - 1, w.ports, r, q);
      CountConcat(w.Links(n - 1), w.GroupLinks(n - 1, w.ports), (r, q));
    }
  }

  /* ---- symmetry ---- */

  ghost predicate Symmetric(w: Wiring)
    requires w.Valid()
  {
    forall r, q :: w.Has(r) && w.Has(q) ==> Count(w.AllLinks(), (r, q)) == Count(w.AllLinks(), (q, r))
  }

  lemma OffsetBack(w: Wiring, x: int, y: int)
    requires w.Valid() && 0 <= x < w.g && 0 <= y < w.g && x != y
    ensures w.Offset(y, x) == w.g - 2 - w.Offset(x, y) && 0 <= w.Offset(x, y) <= w.g - 2
  {
  }

  lemma DividesGivesSymmetric(w: Wiring)
    requires w.Valid() && w.ports % (w.g - 1) == 0
    ensures Symmetric(w)
  {
    forall r, q | w.Has(r) && w.Has(q) ensures Count(w.AllLinks(), (r, q)) == Count(w.AllLinks(), (q, r)) {
      LinksCount(w, w.g, r, q);
      LinksCount(w, w.g, q, r);
      if r.group != q.group && q.number == w.a - 1 - r.number {
        OffsetBack(w, r.group, q.group);
        HitsMirror(w, r.number, w.Offset(r.group, q.group), 0, w.ports);
      }
    }
  }

  // Conversely, symmetric links force the port count to be a multiple of the number
  // of other groups: from group 0 to group 1 there is a link for every port that
  // leaves remainder 0, and back for every port that leaves the last remainder.

  // The ports below n of the routers lo..hi that leave remainder k.
  function Among(w: Wiring, lo: int, hi: int, k: int, n: nat): nat
    requires w.g >= 2 && w.h >= 1
  {
    if n == 0 then 0 else Among(w, lo, hi, k, n - 1) + if lo <= (n - 1) / w.h < hi && (n - 1) % (w.g - 1) == k then 1 else 0
  }

  lemma {:induction false} AmongSplit(w: Wiring, lo: int, mid: int, hi: int, k: int, n: nat)
    requires w.g >= 2 && w.h >= 1 && lo <= mid <= hi
    ensures Among(w, lo, hi, k, n) == Among(w, lo, mid, k, n) + Among(w, mid, hi, k, n)
  {
    if n > 0 {
      AmongSplit(w, lo, mid, hi, k, n - 1);
    }
  }

  lemma {:induction false} AmongOne(w: Wiring, u: int, k: int, n: nat)
    requires w.g >= 2 && w.h >= 1
    ensures Among(w, u, u + 1, k, n) == Hits(w, u, k, 0, n)
  {
    if n > 0 {
      AmongOne(w, u, k, n - 1);
    }
  }

  lemma {:induction false} AmongAll(w: Wiring, k: int, n: nat)
    requires w.Valid() && n <= w.ports
    ensures Among(w, 0, w.a, k, n) == Leaving(n, w.g - 1, k)
  {
    if n > 0 {
      AmongAll(w, k, n - 1);
      PortRange(w, n - 1);
    }
  }

  lemma SymmetricRouter(w: Wiring, u: int)
    requires w.Valid() && Symmetric(w) && 0 <= u < w.a
    ensures Among(w, u, u + 1, 0, w.ports) == Among(w, w.a - 1 - u, w.a - u, w.g - 2, w.ports)
  {
    var r, q := Router(0, u), Router(1, w.a - 1 - u);
    assert w.Has(r) && w.Has(q);
    LinksCount(w, w.g, r, q);
    LinksCount(w, w.g, q, r);
    AmongOne(w, u, 0, w.ports);
    AmongOne(w, w.a - 1 - u, w.g - 2, w.ports);
  }

  lemma {:induction false} SymmetricPrefix(w: Wiring, n: nat)
    requires w.Valid() && Symmetric(w) && n <= w.a
    ensures Among(w, 0, n, 0, w.ports) == Among(w, w.a - n, w.a, w.g - 2, w.ports)
  {
    if n == 0 {
      AmongSplit(w, 0, 0, 0, 0, w.ports);
      AmongSplit(w, w.a, w.a, w.a, w.g - 2, w.ports);
    } else {
      SymmetricPrefix(w, n - 1);
      SymmetricRouter(w, n - 1);
      AmongSplit(w, 0, n - 1, n, 0, w.ports);
      AmongSplit(w, w.a - n, w.a - n + 1, w.a, w.g - 2, w.ports);
    }
  }

  lemma SymmetricIffDivides(w: Wiring)
    requires w.Valid()
    ensures Symmetric(w) <==> w.ports % (w.g - 1) == 0
  {
    if w.ports % (w.g - 1) == 0 {
      DividesGivesSymmetric(w);
    }
    if Symmetric(w) {
      SymmetricPrefix(w, w.a);
      AmongAll(w, 0, w.ports);
      AmongAll(w, w.g - 2, w.ports);
      ResiduesExact(w.ports, w.g - 1, 0);
      ResiduesExact(w.ports, w.g - 1, w.g - 2);
    }
  }

  /* ---- degrees and positions ---- */

  // The ports below n of router u.
  function Own(h: int, u: int, n: nat): nat
    requires h >= 1
  {
    if n == 0 then 0 else Own(h, u, n - 1) + if (n - 1) / h == u then 1 else 0
  }

  lemma {:induction false} OwnExact(h: int, u: int, n: nat)
    requires h >= 1 && u >= 0
    ensures Own(h, u, n) == if n / h > u then h else if n / h == u then n % h else 0
  {
    if n == 0 {
      DivModUnique(0, h, 0, 0);
    } else {
      OwnExact(h, u, n - 1);
      DivStep(n - 1, h);
    }
  }

  // The links that start at r, and those among the first n.
  function From(links: seq<(Router, Router)>, r: Router): nat {
    FromTo(links, r, |links|)
  }

  function FromTo(links: seq<(Router, Router)>, r: Router, n: nat): nat
    requires n <= |links|
  {
    if n == 0 then 0 else FromTo(links, r, n - 1) + if links[n - 1].0 == r then 1 else 0
  }

  lemma {:induction false} FromToConcat(a: seq<(Router, Router)>, b: seq<(Router, Router)>, r: Router, n: nat)
    requires n <= |a| + |b|
    ensures FromTo(a + b, r, n) == if n <= |a| then FromTo(a, r, n) else From(a, r) + FromTo(b, r, n - |a|)
  {
    if n > 0 {
      FromToConcat(a, b, r, n - 1);
    }
  }

  lemma FromConcat(a: seq<(Router, Router)>, b: seq<(Router, Router)>, r: Router)
    ensures From(a + b, r) == From(a, r) + From(b, r)
  {
    FromToConcat(a, b, r, |a + b|);
  }

  lemma FromSnoc(links: seq<(Router, Router)>, e: (Router, Router), r: Router)
    ensures From(links + [e], r) == From(links, r) + if e.0 == r then 1 else 0
  {
    FromToConcat(links, [e], r, |links|);
  }

  lemma FromLast(links: seq<(Router, Router)>, r: Router)
    requires links != []
    ensures From(links, r) == From(links[..|links| - 1], r) + if links[|links| - 1].0 == r then 1 else 0
  {
    var n := |links| - 1;
    assert links == links[..n] + [links[n]];
    FromSnoc(links[..n], links[n], r);
  }

  lemma {:induction false} FromGroup(w: Wiring, z: int, n: nat, r: Router)
    requires w.Valid()
    ensures From(w.GroupLinks(z, n), r) == if z == r.group then Own(w.h, r.number, n) else 0
  {
    if n > 0 {
      FromGroup(w, z, n - 1, r);
      FromSnoc(w.GroupLinks(z, n - 1), w.Link(z, n - 1), r);
    }
  }

  lemma GroupDegree(w: Wiring, z: int, r: Router)
    requires w.Valid() && w.Has(r)
    ensures From(w.GroupLinks(z, w.ports), r) == if z == r.group then w.h else 0
  {
    FromGroup(w, z, w.ports, r);
    OwnAll(w.h, w.a, r.number, w.ports);
  }

  // Each of a routers owns h of their ports.
  lemma OwnAll(h: nat, a: nat, u: nat, ports: nat)
    requires h > 0 && u < a && ports == h * a
    ensures Own(h, u, ports) == h
  {
    OwnExact(h, u, ports);
    DivModUnique(ports, h, a, 0);
  }

  // Every router starts exactly h links.
  lemma {:induction false} OutDegree(w: Wiring, n: nat, r: Router)
    requires w.Valid() && w.Has(r)
    ensures From(w.Links(n), r) == if r.group < n then w.h else 0
  {
    if n > 0 {
      OutDegree(w, n - 1, r);
      FromConcat(w.Links(n - 1), w.GroupLinks(n - 1, w.ports), r);
      GroupDegree(w, n - 1, r);
    }
  }

  lemma {:induction false} GroupLinksAt(w: Wiring, z: int, n: nat, p: nat)
    requires w.Valid() && p < n
    ensures |w.GroupLinks(z, n)| == n && w.GroupLinks(z, n)[p] == w.Link(z, p)
  {
    if p < n - 1 {
      GroupLinksAt(w, z, n - 1, p);
    } else if n > 1 {
      GroupLinksAt(w, z, n - 1, 0);
    }
  }

  // Port p of group x is link number x * ports + p.
  lemma {:induction false} LinksAt(w: Wiring, n: nat, x: nat, p: nat)
    requires w.Valid() && x < n && p < w.ports
    ensures |w.Links(n)| == n * w.ports && 0 <= x * w.ports + p < n * w.ports
    ensures w.Links(n)[x * w.ports + p] == w.Link(x, p)
  {
    GroupLinksAt(w, n - 1, w.ports, p);
    MulMono(w.ports, x, n - 1);
    assert (n - 1) * w.ports + w.ports == n * w.ports;
    if n > 1 {
      LinksAt(w, n - 1, if x < n - 1 then x else 0, p);
    }
  }

  /* ---- pairs of groups ---- */

  function GroupPairs(w: Wiring, x: int, n: nat): seq<(int, int)>
    requires w.g >= 2
  {
    if n == 0 then [] else GroupPairs(w, x, n - 1) + [(x, w.Other(x, n - 1))]
  }

  function Pairs(w: Wiring, n: nat): seq<(int, int)>
    requires w.g >= 2 && w.ports >= 0
  {
    if n == 0 then [] else Pairs(w, n - 1) + GroupPairs(w, n - 1, w.ports)
  }

  lemma {:induction false} GroupPairsCount(w: Wiring, z: int, n: nat, x: int, y: int)
    requires w.Valid() && 0 <= z < w.g && 0 <= x < w.g && 0 <= y < w.g && x != y
    ensures Count(GroupPairs(w, z, n), (x, y)) == if z == x then Leaving(n, w.g - 1, w.Offset(x, y)) else 0
  {
    if n > 0 {
      GroupPairsCount(w, z, n - 1, x, y);
      CountSnoc(GroupPairs(w, z, n - 1), (z, w.Other(z, n - 1)), (x, y));
      if z == x {
        OtherIs(w, x, n - 1, y);
      }
    }
  }

  // The links from one group to another, exactly.
  lemma {:induction false} PairsCount(w: Wiring, n: nat, x: int, y: int)
    requires w.Valid() && n <= w.g && 0 <= x < w.g && 0 <= y < w.g && x != y
    ensures Count(Pairs(w, n), (x, y)) ==
            if x < n then w.ports / (w.g - 1) + (if w.ports % (w.g - 1) > w.Offset(x, y) then 1 else 0) else 0
  {
    if n > 0 {
      PairsCount(w, n - 1, x, y);
      GroupPairsCount(w, n - 1, w.ports, x, y);
      CountConcat(Pairs(w, n - 1), GroupPairs(w, n - 1, w.ports), (x, y));
      OffsetBack(w, x, y);
      ResiduesExact(w.ports, w.g - 1, w.Offset(x, y));
    }
  }

  lemma {:induction false} PairsAt(w: Wiring, n: nat, x: nat, p: nat)
    requires w.Valid() && x < n && p < w.ports
    ensures |Pairs(w, n)| == n * w.ports && 0 <= x * w.ports + p < n * w.ports
    ensures Pairs(w, n)[x * w.ports + p] == (x, w.Other(x, p))
  {
    GroupPairsAt(w, n - 1, w.ports, p);
    MulMono(w.ports, x, n - 1);
    assert (n - 1) * w.ports + w.ports == n * w.ports;
    if n > 1 {
      PairsAt(w, n - 1, if x < n - 1 then x else 0, p);
    }
  }

  lemma {:induction false} GroupPairsAt(w: Wiring, z: int, n: nat, p: nat)
    requires w.Valid() && p < n
    ensures |GroupPairs(w, z, n)| == n && GroupPairs(w, z, n)[p] == (z, w.Other(z, p))
  {
    if p < n - 1 {
      GroupPairsAt(w, z, n - 1, p);
    } else if n > 1 {
      GroupPairsAt(w, z, n - 1, 0);
    }
  }

  /* ---- the list of the other groups ---- */

  // [i for i in range(n) if i != me]
  function AllBut(me: int, n: nat): seq<int> {
    if n == 0 then [] else AllBut(me, n - 1) + if n - 1 != me then [n - 1] else []
  }

  // numpy.roll(s, -k)
  function RollLeft(s: seq<int>, k: nat): seq<int> {
    if s == [] then [] else s[k % |s|..] + s[..k % |s|]
  }

  // getOtherGroupIDsStartingAfterMe
  function OthersAfterMe(me: nat, n: nat): seq<int> {
    RollLeft(AllBut(me, n), me)
  }

  lemma {:induction false} AllButAt(me: nat, n: nat)
    ensures |AllBut(me, n)| == if me < n then n - 1 else n
    ensures forall k :: 0 <= k < |AllBut(me, n)| ==> AllBut(me, n)[k] == if k < me then k else k + 1
  {
    if n > 0 {
      AllButAt(me, n - 1);
    }
  }

  lemma OthersAt(me: nat, n: nat, k: nat)
    requires me < n && k < n - 1
    ensures |OthersAfterMe(me, n)| == n - 1 && OthersAfterMe(me, n)[k] == (me + 1 + k) % n
  {
    AllButAt(me, n);
    if me < n - 1 {
      DivModUnique(me, n - 1, 0, me);
    } else {
      DivModUnique(me, n - 1, 1, 0);
    }
    if me + 1 + k < n {
      DivModUnique(me + 1 + k, n, 0, me + 1 + k);
    } else {
      DivModUnique(me + 1 + k, n, 1, me + 1 + k - n);
    }
  }

  // The group that `other_groups[gl % len(other_groups)]` picks.
  lemma OthersPick(w: Wiring, me: nat, gl: nat)
    requires w.Valid() && me < w.g
    ensures var others := OthersAfterMe(me, w.g); |others| == w.g - 1 && others[gl % (w.g - 1)] == w.Other(me, gl)
  {
    OthersAt(me, w.g, gl % (w.g - 1));
  }
}
