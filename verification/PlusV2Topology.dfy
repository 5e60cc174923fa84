/** The generator scripts/dragonfly-plus/dragonfly-plus-topo-gen-v2.py: half of a group's
    routers are spines, and a spine's ports are global but for one to each leaf. */
module PlusV2Topology {
  import opened Arith
  import opened Identity
  import opened PlusNetwork
  import opened Residues
  import opened ReversalWiring
  import opened RouterMatrix
  import opened Seqs

  datatype Outcome = ZeroDivision | UnfairLinks | InadequateRadix | Refused | Failed(verdict: Verdict)
                   | Built(local: Links, glob: Links)

  // mainV3 and DragonflyPlusNetwork.__init__: radix / 2 spines per group.
  function Net(radix: nat, c: nat): Wiring
    requires c >= 1
  {
    var s := radix / 2;
    Wiring(s, radix - s, s * s / c + 1, s * (radix - s))
  }

  lemma NetValid(radix: nat, c: nat)
    requires c >= 1 && Net(radix, c).g >= 2
    ensures Net(radix, c).Valid() && radix >= 2
  {
    var s := radix / 2;
    if s == 0 {
      DivModUnique(0, c, 0, 0);
    }
    MulPositive(s, radix - s);
  }

  // For an even radix the groups are as many as make c links between any two.
  lemma EvenNet(s: nat, c: nat)
    requires c >= 1 && (s * s) % c == 0 && s * s / c >= 1
    ensures (s * s) % (s * s / c) == 0 && s * s / (s * s / c) == c
  {
    var n := s * s;
    assert n == c * (n / c) == (n / c) * c;
    DivModUnique(n, n / c, c, 0);
  }

  /* ---- connections of the groups ---- */

  // Where the first n connections of a group go.
  function Dests(w: Wiring, x: int, n: nat): (d: seq<int>)
    requires w.g >= 2
    ensures |d| == n
  {
    if n == 0 then [] else Dests(w, x, n - 1) + [w.Other(x, n - 1)]
  }

  lemma {:induction false} DestsAt(w: Wiring, x: int, n: nat, i: nat)
    requires w.g >= 2 && i < n
    ensures Dests(w, x, n)[i] == w.Other(x, i)
  {
    if i < n - 1 {
      DestsAt(w, x, n - 1, i);
    }
  }

  lemma {:induction false} DestsCount(w: Wiring, x: int, n: nat, y: int)
    requires w.Valid() && 0 <= x < w.g && 0 <= y < w.g && x != y
    ensures Count(Dests(w, x, n), y) == Leaving(n, w.g - 1, w.Offset(x, y))
  {
    if n > 0 {
      DestsCount(w, x, n - 1, y);
      CountSnoc(Dests(w, x, n - 1), w.Other(x, n - 1), y);
      OtherIs(w, x, n - 1, y);
    }
  }

  // generateGlobalGroupConnections for one group.
  method GroupConnections(me: nat, n: nat, ports: nat, ghost w: Wiring) returns (dests: seq<int>)
    requires w.Valid() && n == w.g && ports == w.ports && me < n
    ensures dests == Dests(w, me, ports)
  {
    dests := [];
    var others := OthersAfterMe(me, n);
    for gl := 0 to ports
      invariant dests == Dests(w, me, gl)
    {
      OthersPick(w, me, gl);
      var dest := others[gl % |others|];
      dests := dests + [dest];
    }
  }

  // assignGlobalConnectionsToRouters; Router.addConnection refuses a connection once
  // the spine's inter_radix is used up.
  method Assign(me: nat, s: nat, h: nat, dests: seq<int>, ghost w: Wiring) returns (links: Links, raised: bool)
    requires w.Valid() && me < w.g && w.a == s && w.h == h && dests == Dests(w, me, w.ports)
    ensures !raised && links == w.GroupLinks(me, w.ports)
  {
    links, raised := [], false;
    var used := seq(s, _ => 0);
    for i := 0 to |dests|
      invariant links == w.GroupLinks(me, i)
      invariant |used| == s && forall u :: 0 <= u < s ==> used[u] == Own(h, u, i)
    {
      PortRange(w, i);
      DestsAt(w, me, w.ports, i);
      var spine := i / h;
      OwnExact(h, spine, i);
      if used[spine] >= h {
        return links, true;
      }
      used := used[spine := used[spine] + 1];
      links := links + [(Router(me, spine), Router(dests[i], s - spine - 1))];
    }
  }

  // generateGlobalGroupConnections: all groups choose first, then all are assigned.
  method ConnectGlobal(s: nat, h: nat, n: nat, ports: nat, ghost w: Wiring) returns (links: Links, dests: seq<seq<int>>, raised: bool)
    requires w.Valid() && w.a == s && w.h == h && w.g == n && w.ports == ports
    ensures !raised && links == w.AllLinks()
    ensures |dests| == n && forall x :: 0 <= x < n ==> dests[x] == Dests(w, x, ports)
  {
    links, dests, raised := [], [], false;
    for me := 0 to n
      invariant |dests| == me && forall x :: 0 <= x < me ==> dests[x] == Dests(w, x, ports)
    {
      var more := GroupConnections(me, n, ports, w);
      dests := dests + [more];
    }
    for me := 0 to n
      invariant links == w.Links(me)
    {
      var more, failed := Assign(me, s, h, dests[me], w);
      if failed {
        return links, dests, true;
      }
      links := links + more;
    }
  }

  /* ---- the whole construction ---- */

  // What a caller can check beforehand.
  predicate Accepts(radix: nat, c: nat)
    requires c >= 1
  {
    var w := Net(radix, c);
    w.g >= 2 && w.ports % c == 0 && w.ports % (w.g - 1) == 0 && w.a <= SHARED
  }

  function ToGroup(dests: seq<seq<int>>): (nat, nat) -> nat {
    (x: nat, y: nat) => if x < |dests| then Count(dests[x], y) else 0
  }

  // The constructor with verifyTopology: it succeeds exactly when the wanted links divide
  // the global links of a group, the other groups do too, and there are at most 256
  // leaves.
  method Build(radix: nat, c: nat) returns (r: Outcome)
    requires c >= 1
    ensures r.Built? <==> Accepts(radix, c)
    ensures r.Built? ==> r.local == Local(radix / 2, Net(radix, c).g) && r.glob == Net(radix, c).AllLinks()
  {
    var s := radix / 2;
    var h, n := radix - s, s * s / c + 1;
    var ports := s * h;
    if n == 1 {
      // num_global_links_between_groups divides by num_groups - 1
      return ZeroDivision;
    }
    ghost var w := Net(radix, c);
    assert w.g >= 2 by { QuotientNat(s * s, c); }
    NetValid(radix, c);
    if ports % c != 0 {
      return UnfairLinks;
    }
    DivModUnique(ports, s, h, 0);
    if ports % s != 0 {
      return UnfairLinks;
    }
    if s > radix - ports / s {
      return InadequateRadix;
    }
    var local, refused := ConnectLocal(s, n);
    if refused {
      return Refused;
    }
    var glob, dests, raised := ConnectGlobal(s, h, n, ports, w);
    if raised {
      return Refused;
    }
    var p := Plus(s, h, n);
    WiringRegular(w, p);
    var sizes := seq(n, x requires 0 <= x < |dests| => |dests[x]|);
    if w.ports % (w.g - 1) == 0 {
      ListsUniform(w, dests);
    }
    SymmetricIffDivides(w);
    var v := VerifyTopology(p, local, glob, sizes, ToGroup(dests), false);
    r := if v.Fine? then Built(local, glob) else Failed(v);
  }

  lemma WiringRegular(w: Wiring, p: Plus)
    requires w.Valid() && p.s == w.a && p.h == w.h && p.g == w.g
    ensures Regular(p, w.AllLinks()) && (Mutual(p, w.AllLinks()) <==> Symmetric(w))
  {
    LinksHave(w, w.g);
    forall r | Has(p.s, p.g, r) ensures From(w.AllLinks(), r) == p.h {
      OutDegree(w, w.g, r);
    }
    assert forall r :: Has(p.s, p.g, r) <==> w.Has(r);
  }

  lemma ListsUniform(w: Wiring, dests: seq<seq<int>>)
    requires w.Valid() && w.ports % (w.g - 1) == 0
    requires |dests| == w.g && forall x :: 0 <= x < w.g ==> dests[x] == Dests(w, x, w.ports)
    ensures forall x, y :: 0 <= x < w.g && 0 <= y < w.g && x != y ==> ToGroup(dests)(x, y) == w.ports / (w.g - 1)
  {
    forall x, y | 0 <= x < w.g && 0 <= y < w.g && x != y ensures ToGroup(dests)(x, y) == w.ports / (w.g - 1) {
      DestsCount(w, x, w.ports, y);
      OffsetBack(w, x, y);
      ResiduesExact(w.ports, w.g - 1, w.Offset(x, y));
    }
  }

  // With an even radix 2s that is divisibility for up to 256 spines.
  lemma EvenAccepts(s: nat, c: nat)
    requires c >= 1
    ensures Accepts(2 * s, c) <==> 1 <= s <= SHARED && (s * s) % c == 0
  {
    QuotientNat(s * s, c);
    if s >= 1 && (s * s) % c == 0 {
      MulPositive(s, s);
      QuotientPositive(s * s, c);
      EvenNet(s, c);
    }
    if s == 0 {
      DivModUnique(0, c, 0, 0);
    }
  }

  // An accepted network is symmetric, every spine starts its global links, and any two
  // groups share equally many, which for an even radix are as many as were asked for.
  lemma AcceptedIsRegular(radix: nat, c: nat, r: Router, x: int, y: int)
    requires c >= 1 && Accepts(radix, c) && Net(radix, c).Has(r)
    requires 0 <= x < Net(radix, c).g && 0 <= y < Net(radix, c).g && x != y
    ensures var w := Net(radix, c);
            && w.Valid() && Symmetric(w) && From(w.AllLinks(), r) == w.h
            && Count(Pairs(w, w.g), (x, y)) == w.ports / (w.g - 1)
            && (radix % 2 == 0 ==> Count(Pairs(w, w.g), (x, y)) == c)
  {
    var w := Net(radix, c);
    NetValid(radix, c);
    SymmetricIffDivides(w);
    OutDegree(w, w.g, r);
    PairsCount(w, w.g, x, y);
    OffsetBack(w, x, y);
    if radix % 2 == 0 {
      EvenNet(radix / 2, c);
    }
  }

  // With radix 5 and two links wanted between groups, the network that is accepted has
  // three.
  lemma OddRadixExceeds()
    ensures Accepts(5, 2) && Net(5, 2).Valid() && Count(Pairs(Net(5, 2), 3), (0, 1)) == 3
  {
    var w := Net(5, 2);
    assert w == Wiring(2, 3, 3, 6);
    PairsCount(w, 3, 0, 1);
  }
}
