/** The randomised generator scripts/dragonfly-plus/dragonfly-plus-random-topo-gen.py.
    The order in which group pairs come out of their set, the
    shuffle of a group's connections and every sample of its spines are arguments, so
    what is proved holds for all of them. */
module RandomPlusTopology {
  import opened Arith
  import opened Identity
  import opened Seqs
  import opened PlusNetwork
  import opened ReversalWiring
  import opened RouterMatrix

  /* ---- pairs of groups ---- */

  predicate Joins(e: (int, int), x: int, y: int) {
    (e.0 == x && e.1 == y) || (e.0 == y && e.1 == x)
  }

  predicate Touches(e: (int, int), x: int) {
    e.0 == x || e.1 == x
  }

  // How many entries join x and y, and how many touch x.
  function Joining(es: seq<(int, int)>, x: int, y: int): nat {
    if es == [] then 0 else Joining(es[..|es| - 1], x, y) + if Joins(es[|es| - 1], x, y) then 1 else 0
  }

  function Touching(es: seq<(int, int)>, x: int): nat {
    if es == [] then 0 else Touching(es[..|es| - 1], x) + if Touches(es[|es| - 1], x) then 1 else 0
  }

  predicate Proper(es: seq<(int, int)>, g: nat) {
    forall i :: 0 <= i < |es| ==> 0 <= es[i].0 < g && 0 <= es[i].1 < g && es[i].0 != es[i].1
  }

  // The set of all two-element sets of groups, in any order.
  ghost predicate EachPairOnce(es: seq<(int, int)>, g: nat) {
    Proper(es, g) && forall x, y :: 0 <= x < g && 0 <= y < g && x != y ==> Joining(es, x, y) == 1
  }

  // The entries that join x to a group below n.
  function JoiningBelow(es: seq<(int, int)>, x: int, n: nat): nat {
    if n == 0 then 0 else JoiningBelow(es, x, n - 1) + Joining(es, x, n - 1)
  }

  lemma {:induction false} JoiningBelowLast(es: seq<(int, int)>, x: int, n: nat)
    requires es != [] && es[|es| - 1].0 != es[|es| - 1].1
    ensures var e := es[|es| - 1];
            JoiningBelow(es, x, n) == JoiningBelow(es[..|es| - 1], x, n)
              + if (e.0 == x && 0 <= e.1 < n) || (e.1 == x && 0 <= e.0 < n) then 1 else 0
  {
    if n > 0 {
      JoiningBelowLast(es, x, n - 1);
    }
  }

  lemma {:induction false} JoiningBelowNone(x: int, n: nat)
    ensures JoiningBelow([], x, n) == 0
  {
    if n > 0 {
      JoiningBelowNone(x, n - 1);
    }
  }

  lemma {:induction false} TouchingIsJoining(es: seq<(int, int)>, x: int, g: nat)
    requires Proper(es, g)
    ensures Touching(es, x) == JoiningBelow(es, x, g)
  {
    if es == [] {
      JoiningBelowNone(x, g);
    } else {
      TouchingIsJoining(es[..|es| - 1], x, g);
      JoiningBelowLast(es, x, g);
    }
  }

  lemma {:induction false} JoiningSelf(es: seq<(int, int)>, x: int, g: nat)
    requires Proper(es, g)
    ensures Joining(es, x, x) == 0
  {
    if es != [] {
      JoiningSelf(es[..|es| - 1], x, g);
    }
  }

  lemma {:induction false} PartnersBelow(es: seq<(int, int)>, x: int, g: nat, n: nat)
    requires EachPairOnce(es, g) && 0 <= x < g && n <= g
    ensures JoiningBelow(es, x, n) == if x < n then n - 1 else n
  {
    if n > 0 {
      PartnersBelow(es, x, g, n - 1);
      JoiningSelf(es, x, g);
    }
  }

  // Every group is in g - 1 pairs.
  lemma PairsPerGroup(es: seq<(int, int)>, x: int, g: nat)
    requires EachPairOnce(es, g) && 0 <= x < g
    ensures Touching(es, x) == g - 1
  {
    TouchingIsJoining(es, x, g);
    PartnersBelow(es, x, g, g);
  }

  /* ---- lists of connection numbers ---- */

  function Sat(L: seq<nat>, q: nat -> bool): nat {
    if L == [] then 0 else Sat(L[..|L| - 1], q) + if q(L[|L| - 1]) then 1 else 0
  }

  function SatBelow(n: nat, q: nat -> bool): nat {
    if n == 0 then 0 else SatBelow(n - 1, q) + if q(n - 1) then 1 else 0
  }

  lemma {:induction false} SatWithout(L: seq<nat>, q: nat -> bool, i: nat)
    requires i < |L|
    ensures Sat(Without(L, i), q) == Sat(L, q) - if q(L[i]) then 1 else 0
  {
    var n := |L| - 1;
    if i < n {
      SatWithout(L[..n], q, i);
      assert Without(L, i)[..n - 1] == Without(L[..n], i);
    } else {
      assert Without(L, i) == L[..n];
    }
  }

  // Without its largest number the list names those below.
  lemma WithoutLargest(L: seq<nat>, q: nat -> bool, n: nat, i: nat)
    requires Distinct(L) && (forall j :: 0 <= j < |L| ==> L[j] <= n)
    requires forall k: nat :: k <= n && q(k) ==> k in L
    requires i < |L| && L[i] == n
    ensures Distinct(Without(L, i)) && forall j :: 0 <= j < |L| - 1 ==> Without(L, i)[j] < n
    ensures forall k: nat :: k < n && q(k) ==> k in Without(L, i)
  {
    WithoutMembers(L, i);
    forall j | 0 <= j < |L| - 1 ensures Without(L, i)[j] < n {
      assert Without(L, i)[j] in L && Without(L, i)[j] != n;
    }
  }

  // A list that names every number with the property once counts them.
  lemma {:induction false} SatIsSatBelow(L: seq<nat>, q: nat -> bool, n: nat)
    requires Distinct(L) && (forall i :: 0 <= i < |L| ==> L[i] < n)
    requires forall k: nat :: k < n && q(k) ==> k in L
    ensures Sat(L, q) == SatBelow(n, q)
    decreases n
  {
    if n == 0 {
    } else if n - 1 in L {
      var i :| 0 <= i < |L| && L[i] == n - 1;
      SatWithout(L, q, i);
      WithoutLargest(L, q, n - 1, i);
      SatIsSatBelow(Without(L, i), q, n - 1);
    } else {
      SatIsSatBelow(L, q, n - 1);
    }
  }

  // L lists the connections of group x, each once.
  ghost predicate ListsGroup(L: seq<nat>, conns: seq<(int, int)>, x: int) {
    && Distinct(L) && (forall i :: 0 <= i < |L| ==> L[i] < |conns| && Touches(conns[L[i]], x))
    && forall k :: 0 <= k < |conns| && Touches(conns[k], x) ==> k in L
  }

  /* ---- spines by rounds ---- */

  // random.sample of all spines: each of the s spines exactly once.
  ghost predicate IsSample(p: seq<int>, s: nat) {
    |p| == s && Distinct(p) && forall i :: 0 <= i < s ==> 0 <= p[i] < s
  }

  lemma {:induction false} DistinctCount(p: seq<int>, u: int)
    requires Distinct(p)
    ensures Count(p, u) == if u in p then 1 else 0
  {
    if p != [] {
      DistinctCount(p[..|p| - 1], u);
      CountLast(p, u);
      assert p == p[..|p| - 1] + [p[|p| - 1]];
    }
  }

  // s different spines below s are all of them.
  lemma SampleHasAll(p: seq<int>, s: nat, u: int)
    requires IsSample(p, s) && 0 <= u < s
    ensures u in p
  {
    if u !in p {
      Pigeonhole(p + [u], s);
    }
  }

  /* ---- generating the connections ---- */

  // generateGlobalGroupConnections: c connections for every pair, each one entered in
  // the lists of both groups.
  method Connect(pairs: seq<(int, int)>, g: nat, c: nat) returns (conns: seq<(int, int)>, lists: seq<seq<nat>>)
    requires EachPairOnce(pairs, g)
    ensures Proper(conns, g) && |lists| == g
    ensures forall x :: 0 <= x < g ==> ListsGroup(lists[x], conns, x) && |lists[x]| == c * (g - 1)
    ensures forall x, y :: 0 <= x < g && 0 <= y < g && x != y ==> Joining(conns, x, y) == c
  {
    conns, lists := [], seq(g, _ => []);
    for i := 0 to |pairs|
      invariant Proper(conns, g) && |lists| == g
      invariant forall x :: 0 <= x < g ==> ListsGroup(lists[x], conns, x) && |lists[x]| == TouchingTimes(pairs, i, x, c)
      invariant forall x, y :: 0 <= x < g && 0 <= y < g && x != y ==> Joining(conns, x, y) == JoiningTimes(pairs, i, x, y, c)
    {
      conns, lists := ConnectPair(pairs[i], g, c, conns, lists);
    }
    forall x | 0 <= x < g ensures TouchingTimes(pairs, |pairs|, x, c) == c * (g - 1) {
      TimesIs(pairs, |pairs|, x, x, c);
      PairsPerGroup(pairs, x, g);
    }
    forall x, y | 0 <= x < g && 0 <= y < g && x != y ensures JoiningTimes(pairs, |pairs|, x, y, c) == c {
      TimesIs(pairs, |pairs|, x, y, c);
    }
  }

  // Among the first n entries, c for each one that touches x, or joins x and y.
  function TouchingTimes(es: seq<(int, int)>, n: nat, x: int, c: nat): nat
    requires n <= |es|
  {
    if n == 0 then 0 else TouchingTimes(es, n - 1, x, c) + if Touches(es[n - 1], x) then c else 0
  }

  function JoiningTimes(es: seq<(int, int)>, n: nat, x: int, y: int, c: nat): nat
    requires n <= |es|
  {
    if n == 0 then 0 else JoiningTimes(es, n - 1, x, y, c) + if Joins(es[n - 1], x, y) then c else 0
  }

  lemma {:induction false} TimesIs(es: seq<(int, int)>, n: nat, x: int, y: int, c: nat)
    requires n <= |es|
    ensures TouchingTimes(es, n, x, c) == c * Touching(es[..n], x) && JoiningTimes(es, n, x, y, c) == c * Joining(es[..n], x, y)
    ensures n == |es| ==> es[..n] == es
  {
    if n > 0 {
      TimesIs(es, n - 1, x, y, c);
      assert es[..n][..n - 1] == es[..n - 1];
      MulNext(Touching(es[..n - 1], x), c);
      MulNext(Joining(es[..n - 1], x, y), c);
    }
  }

  // The inner loop.
  method ConnectPair(e: (int, int), g: nat, c: nat, conns0: seq<(int, int)>, lists0: seq<seq<nat>>)
    returns (conns: seq<(int, int)>, lists: seq<seq<nat>>)
    requires 0 <= e.0 < g && 0 <= e.1 < g && e.0 != e.1
    requires Proper(conns0, g) && |lists0| == g && forall x :: 0 <= x < g ==> ListsGroup(lists0[x], conns0, x)
    ensures Proper(conns, g) && |lists| == g && forall x :: 0 <= x < g ==> ListsGroup(lists[x], conns, x)
    ensures forall x :: 0 <= x < g ==> |lists[x]| == |lists0[x]| + if Touches(e, x) then c else 0
    ensures forall x, y :: 0 <= x < g && 0 <= y < g && x != y ==> Joining(conns, x, y) == Joining(conns0, x, y) + if Joins(e, x, y) then c else 0
  {
    conns, lists := conns0, lists0;
    for n := 0 to c
      invariant Proper(conns, g) && |lists| == g && forall x :: 0 <= x < g ==> ListsGroup(lists[x], conns, x)
      invariant forall x :: 0 <= x < g ==> |lists[x]| == |lists0[x]| + if Touches(e, x) then n else 0
      invariant forall x, y :: 0 <= x < g && 0 <= y < g && x != y ==> Joining(conns, x, y) == Joining(conns0, x, y) + if Joins(e, x, y) then n else 0
    {
      ghost var was, had := conns, lists;
      var k := |conns|;
      conns := conns + [e];
      lists := lists[e.0 := lists[e.0] + [k]];
      lists := lists[e.1 := lists[e.1] + [k]];
      assert conns[..k] == was;
      forall x | 0 <= x < g ensures ListsGroup(lists[x], conns, x) {
        ListsMore(had[x], was, e, x);
      }
    }
  }

  lemma ListsMore(L: seq<nat>, conns: seq<(int, int)>, e: (int, int), x: int)
    requires ListsGroup(L, conns, x)
    ensures ListsGroup(if Touches(e, x) then L + [|conns|] else L, conns + [e], x)
  {
    var M := if Touches(e, x) then L + [|conns|] else L;
    forall k | 0 <= k <= |conns| && Touches((conns + [e])[k], x) ensures k in M {
      if k < |conns| {
        assert k in L;
      } else {
        assert M[|L|] == k;
      }
    }
  }

  /* ---- choosing the routers ---- */

  // Position j of the order has been given spine pick[j] of group x; the other
  // connections are as they were.
  ghost predicate Assigned(ends0: seq<seq<Router>>, ends: seq<seq<Router>>, x: int, order: seq<nat>, pick: seq<int>) {
    && |ends| == |ends0| && |pick| <= |order| && (forall j :: 0 <= j < |order| ==> order[j] < |ends|)
    && (forall j :: 0 <= j < |pick| ==> ends[order[j]] == ends0[order[j]] + [Router(x, pick[j])])
    && (forall k :: 0 <= k < |ends| && k !in order[..|pick|] ==> ends[k] == ends0[k])
  }

  lemma AssignedStep(ends0: seq<seq<Router>>, ends: seq<seq<Router>>, x: int, order: seq<nat>, pick: seq<int>, u: int)
    requires Assigned(ends0, ends, x, order, pick) && Distinct(order) && |pick| < |order|
    ensures var k := order[|pick|];
            ends[k] == ends0[k] && Assigned(ends0, ends[k := ends[k] + [Router(x, u)]], x, order, pick + [u])
  {
    var n, k := |pick|, order[|pick|];
    assert k !in order[..n];
    assert order[..n + 1] == order[..n] + [k];
  }

  // One round: every spine of the sample takes the next connection, and there is an
  // IndexError once there is none; setEndpoint refuses a third endpoint.
  method AssignRound(x: int, order: seq<nat>, sample: seq<int>, ends1: seq<seq<Router>>, used1: nat,
                     ghost ends0: seq<seq<Router>>, ghost pick1: seq<int>)
    returns (ends: seq<seq<Router>>, used: nat, raised: bool)
    requires Distinct(order) && Assigned(ends0, ends1, x, order, pick1) && used1 == |pick1| <= |order|
    requires forall j :: 0 <= j < |order| ==> |ends0[order[j]]| < 2
    ensures raised <==> used1 + |sample| > |order|
    ensures !raised ==> used == used1 + |sample| && Assigned(ends0, ends, x, order, pick1 + sample)
  {
    ends, used, raised := ends1, used1, false;
    for i := 0 to |sample|
      invariant used == used1 + i <= |order| && Assigned(ends0, ends, x, order, pick1 + sample[..i])
    {
      if used >= |order| {
        raised := true;
        return;
      }
      ghost var pick := pick1 + sample[..i];
      AssignedStep(ends0, ends, x, order, pick, sample[i]);
      assert pick + [sample[i]] == pick1 + sample[..i + 1];
      var k := order[used];
      if |ends[k]| == 2 {
        raised := true;
        return;
      }
      ends := ends[k := ends[k] + [Router(x, sample[i])]];
      used := used + 1;
    }
    assert sample[..|sample|] == sample;
  }

  // After n rounds.
  ghost predicate Rounds(s: nat, n: nat, pick: seq<int>) {
    && |pick| == s * n && (forall u :: 0 <= u < s ==> Count(pick, u) == n)
    && forall j :: 0 <= j < |pick| ==> 0 <= pick[j] < s
  }

  lemma RoundMore(s: nat, n: nat, pick: seq<int>, sample: seq<int>)
    requires Rounds(s, n, pick) && IsSample(sample, s)
    ensures Rounds(s, n + 1, pick + sample)
  {
    MulNext(n, s);
    forall u | 0 <= u < s ensures Count(pick + sample, u) == n + 1 {
      CountConcat(pick, sample, u);
      SampleHasAll(sample, s, u);
      DistinctCount(sample, u);
    }
  }

  // s * n < len < s * (n + 1), or len == s * n.
  lemma RoundsLeft(s: nat, n: nat, len: nat)
    requires s >= 1 && s * n <= len < s * n + s
    ensures len / s == n && len % s == len - s * n
  {
    DivModUnique(len, s, n, len - s * n);
  }

  // assignRoutersToGlobalConnections: each round brings every spine one connection, and
  // the last one must come out even.
  method AssignRouters(x: int, s: nat, order: seq<nat>, samples: nat -> seq<int>, ends0: seq<seq<Router>>)
    returns (ends: seq<seq<Router>>, raised: bool, ghost pick: seq<int>)
    requires s >= 1 && Distinct(order) && forall n: nat :: IsSample(samples(n), s)
    requires forall j :: 0 <= j < |order| ==> order[j] < |ends0| && |ends0[order[j]]| < 2
    ensures raised <==> |order| % s != 0
    ensures !raised ==> |pick| == |order| && Assigned(ends0, ends, x, order, pick) && Rounds(s, |order| / s, pick)
  {
    ends, raised, pick := ends0, false, [];
    var used, n := 0, 0;
    while !raised && used < |order|
      invariant !raised ==> used == s * n == |pick| <= |order| && Assigned(ends0, ends, x, order, pick) && Rounds(s, n, pick)
      invariant raised ==> s * n < |order| < s * n + s
      decreases !raised, |order| - used
    {
      var sample := samples(n);
      assert IsSample(sample, s);
      RoundMore(s, n, pick, sample);
      MulNext(n, s);
      ends, used, raised := AssignRound(x, order, sample, ends, used, ends0, pick);
      if !raised {
        pick := pick + sample;
        n := n + 1;
      }
    }
    RoundsLeft(s, n, |order|);
  }

  /* ---- writing the links ---- */

  // The endpoint of a complete connection in group x, and the other one.
  function Mine(e: seq<Router>, x: int): Router
    requires |e| == 2
  {
    if e[0].group == x then e[0] else e[1]
  }

  function Theirs(e: seq<Router>, x: int): Router
    requires |e| == 2
  {
    if e[0].group == x then e[1] else e[0]
  }

  // Endpoints of connection e, one in each of its groups, the lower group first.
  ghost predicate Complete(e: seq<Router>, conn: (int, int)) {
    |e| == 2 && e[0].group < e[1].group && Joins((e[0].group, e[1].group), conn.0, conn.1)
  }

  predicate Whole(order: seq<nat>, ends: seq<seq<Router>>) {
    forall j :: 0 <= j < |order| ==> order[j] < |ends| && |ends[order[j]]| == 2
  }

  function Baked(order: seq<nat>, ends: seq<seq<Router>>, x: int): seq<(Router, Router)>
    requires Whole(order, ends)
  {
    if order == [] then [] else
      var k := order[|order| - 1];
      Baked(order[..|order| - 1], ends, x) + [(Mine(ends[k], x), Theirs(ends[k], x))]
  }

  lemma {:induction false} BakedAt(order: seq<nat>, ends: seq<seq<Router>>, x: int)
    requires Whole(order, ends)
    ensures |Baked(order, ends, x)| == |order|
    ensures forall j :: 0 <= j < |order| ==> Baked(order, ends, x)[j] == (Mine(ends[order[j]], x), Theirs(ends[order[j]], x))
  {
    if order != [] {
      BakedAt(order[..|order| - 1], ends, x);
    }
  }

  // What the assignment of all groups leaves: both ends of every connection are
  // set, and spine u of group x is the end of exactly n connections of its group.
  ghost predicate Ready(s: nat, n: nat, g: nat, conns: seq<(int, int)>, lists: seq<seq<nat>>, ends: seq<seq<Router>>, picks: seq<seq<int>>) {
    && |lists| == |picks| == g && |ends| == |conns|
    && AllComplete(conns, ends)
    && (forall x :: 0 <= x < g ==> ListsGroup(lists[x], conns, x) && Whole(lists[x], ends) && Chosen(s, n, x, lists[x], ends, picks[x]))
  }

  ghost predicate AllComplete(conns: seq<(int, int)>, ends: seq<seq<Router>>)
    requires |ends| == |conns|
  {
    forall k :: 0 <= k < |conns| ==> Complete(ends[k], conns[k])
  }

  ghost predicate Chosen(s: nat, n: nat, x: int, order: seq<nat>, ends: seq<seq<Router>>, pick: seq<int>) {
    && |pick| == |order|
    && (forall j :: 0 <= j < |pick| ==> 0 <= pick[j] < s && order[j] < |ends| && Router(x, pick[j]) in ends[order[j]])
    && (forall u :: 0 <= u < s ==> Count(pick, u) == n)
  }

  lemma MineIs(e: seq<Router>, conn: (int, int), x: int, u: int)
    requires Complete(e, conn) && Router(x, u) in e
    ensures Mine(e, x) == Router(x, u)
  {
  }

  lemma {:induction false} CountPrefix(pick: seq<int>, j: nat)
    requires j < |pick|
    ensures Count(pick[..j], pick[j]) < Count(pick, pick[j])
  {
    assert pick == (pick[..j] + [pick[j]]) + pick[j + 1..];
    CountConcat(pick[..j] + [pick[j]], pick[j + 1..], pick[j]);
    CountSnoc(pick[..j], pick[j], pick[j]);
  }

  // bakeGlobalConnections with the inter_radix check of addConnection: neither the
  // check nor the "something went wrong" branch is ever taken.
  method Bake(x: int, s: nat, h: nat, order: seq<nat>, ends: seq<seq<Router>>, ghost n: nat, ghost conns: seq<(int, int)>, ghost pick: seq<int>)
    returns (links: seq<(Router, Router)>, raised: bool)
    requires ListsGroup(order, conns, x) && |ends| == |conns| && Chosen(s, n, x, order, ends, pick) && n <= h
    requires Whole(order, ends) && AllComplete(conns, ends)
    ensures !raised && links == Baked(order, ends, x)
  {
    links, raised := [], false;
    var used := seq(s, _ => 0);
    for j := 0 to |order|
      invariant links == Baked(order[..j], ends, x)
      invariant |used| == s && forall u :: 0 <= u < s ==> used[u] == Count(pick[..j], u)
    {
      var e := ends[order[j]];
      assert order[..j + 1][..j] == order[..j];
      MineIs(e, conns[order[j]], x, pick[j]);
      CountPrefix(pick, j);
      assert pick[..j + 1] == pick[..j] + [pick[j]];
      forall u ensures Count(pick[..j + 1], u) == Count(pick[..j], u) + if pick[j] == u then 1 else 0 {
        CountSnoc(pick[..j], pick[j], u);
      }
      var mine, theirs;
      if e[0].group == x {
        mine, theirs := e[0], e[1];
      } else if e[1].group == x {
        mine, theirs := e[1], e[0];
      } else {
        return links, true;
      }
      if used[mine.number] >= h {
        return links, true;
      }
      used := used[mine.number := used[mine.number] + 1];
      links := links + [(mine, theirs)];
    }
    assert order[..|order|] == order;
  }

  // The links of the first n groups.
  function BakedBelow(lists: seq<seq<nat>>, ends: seq<seq<Router>>, n: nat): seq<(Router, Router)>
    requires n <= |lists|
    requires forall x :: 0 <= x < n ==> Whole(lists[x], ends)
  {
    if n == 0 then [] else BakedBelow(lists, ends, n - 1) + Baked(lists[n - 1], ends, n - 1)
  }

  /* ---- the network that comes out ---- */

  predicate Linked(e: seq<Router>, r: Router, q: Router) {
    e == [r, q] || e == [q, r]
  }

  function LinkedBelow(ends: seq<seq<Router>>, n: nat, r: Router, q: Router): nat
    requires n <= |ends|
  {
    if n == 0 then 0 else LinkedBelow(ends, n - 1, r, q) + if Linked(ends[n - 1], r, q) then 1 else 0
  }

  lemma {:induction false} LinkedSame(ends: seq<seq<Router>>, n: nat, r: Router, q: Router)
    requires n <= |ends|
    ensures LinkedBelow(ends, n, r, q) == LinkedBelow(ends, n, q, r)
  {
    if n > 0 {
      LinkedSame(ends, n - 1, r, q);
    }
  }

  function LinkedIn(order: seq<nat>, ends: seq<seq<Router>>, r: Router, q: Router): nat
    requires Whole(order, ends)
  {
    if order == [] then 0 else
      LinkedIn(order[..|order| - 1], ends, r, q) + if Linked(ends[order[|order| - 1]], r, q) then 1 else 0
  }

  lemma {:induction false} LinkedInIsSat(order: seq<nat>, ends: seq<seq<Router>>, r: Router, q: Router, f: nat -> bool)
    requires Whole(order, ends) && forall k: nat :: k < |ends| ==> f(k) == Linked(ends[k], r, q)
    ensures LinkedIn(order, ends, r, q) == Sat(order, f)
  {
    if order != [] {
      LinkedInIsSat(order[..|order| - 1], ends, r, q, f);
    }
  }

  lemma {:induction false} LinkedBelowIsSat(ends: seq<seq<Router>>, n: nat, r: Router, q: Router, f: nat -> bool)
    requires n <= |ends| && forall k: nat :: k < |ends| ==> f(k) == Linked(ends[k], r, q)
    ensures LinkedBelow(ends, n, r, q) == SatBelow(n, f)
  {
    if n > 0 {
      LinkedBelowIsSat(ends, n - 1, r, q, f);
    }
  }

  // The links from r to q are the connections with these two ends.
  lemma {:induction false} BakedCount(order: seq<nat>, conns: seq<(int, int)>, ends: seq<seq<Router>>, x: int, r: Router, q: Router)
    requires Whole(order, ends) && |ends| == |conns|
    requires forall j :: 0 <= j < |order| ==> Complete(ends[order[j]], conns[order[j]]) && Touches(conns[order[j]], x)
    ensures Count(Baked(order, ends, x), (r, q)) == if x == r.group != q.group then LinkedIn(order, ends, r, q) else 0
  {
    if order != [] {
      BakedCount(order[..|order| - 1], conns, ends, x, r, q);
      CountLast(Baked(order, ends, x), (r, q));
      var b := Baked(order, ends, x);
      assert b[..|b| - 1] == Baked(order[..|order| - 1], ends, x);
    }
  }

  // A connection with an end in group x is in the list of group x.
  lemma LinkedIsListed(order: seq<nat>, conn: (int, int), conns: seq<(int, int)>, e: seq<Router>, x: int, k: nat, r: Router, q: Router)
    requires ListsGroup(order, conns, x) && k < |conns| && conns[k] == conn && Complete(e, conn) && Linked(e, r, q) && r.group == x
    ensures k in order
  {
    assert Touches(conns[k], x);
  }

  lemma GroupCount(order: seq<nat>, conns: seq<(int, int)>, ends: seq<seq<Router>>, x: int, r: Router, q: Router)
    requires Whole(order, ends) && |ends| == |conns| && ListsGroup(order, conns, x) && AllComplete(conns, ends)
    ensures Count(Baked(order, ends, x), (r, q)) == if x == r.group != q.group then LinkedBelow(ends, |ends|, r, q) else 0
  {
    BakedCount(order, conns, ends, x, r, q);
    if x == r.group != q.group {
      LinkedInIsBelow(order, conns, ends, r, q);
    }
  }

  lemma LinkedInIsBelow(order: seq<nat>, conns: seq<(int, int)>, ends: seq<seq<Router>>, r: Router, q: Router)
    requires Whole(order, ends) && |ends| == |conns| && ListsGroup(order, conns, r.group) && AllComplete(conns, ends)
    ensures LinkedIn(order, ends, r, q) == LinkedBelow(ends, |ends|, r, q)
  {
    var f: nat -> bool := (k: nat) => k < |ends| && Linked(ends[k], r, q);
    LinkedInIsSat(order, ends, r, q, f);
    LinkedBelowIsSat(ends, |ends|, r, q, f);
    forall k: nat | k < |ends| && f(k) ensures k in order {
      LinkedIsListed(order, conns[k], conns, ends[k], r.group, k, r, q);
    }
    SatIsSatBelow(order, f, |ends|);
  }

  lemma {:induction false} BelowCount(lists: seq<seq<nat>>, ends: seq<seq<Router>>, n: nat, e: (Router, Router), total: nat)
    requires n <= |lists| && forall x :: 0 <= x < n ==> Whole(lists[x], ends)
    requires forall x :: 0 <= x < n ==> Count(Baked(lists[x], ends, x), e) == if x == e.0.group != e.1.group then total else 0
    ensures Count(BakedBelow(lists, ends, n), e) == if 0 <= e.0.group < n && e.0.group != e.1.group then total else 0
  {
    if n > 0 {
      BelowCount(lists, ends, n - 1, e, total);
      CountConcat(BakedBelow(lists, ends, n - 1), Baked(lists[n - 1], ends, n - 1), e);
    }
  }

  lemma {:induction false} BakedFrom(order: seq<nat>, ends: seq<seq<Router>>, x: int, pick: seq<int>, r: Router)
    requires Whole(order, ends) && |pick| == |order| && forall j :: 0 <= j < |pick| ==> Mine(ends[order[j]], x) == Router(x, pick[j])
    ensures From(Baked(order, ends, x), r) == if x == r.group then Count(pick, r.number) else 0
  {
    if order != [] {
      var n := |order| - 1;
      BakedFrom(order[..n], ends, x, pick[..n], r);
      var b := Baked(order, ends, x);
      FromLast(b, r);
      CountLast(pick, r.number);
      assert b[..|b| - 1] == Baked(order[..n], ends, x);
    }
  }

  lemma GroupFrom(s: nat, n: nat, conns: seq<(int, int)>, order: seq<nat>, ends: seq<seq<Router>>, x: int, pick: seq<int>, r: Router)
    requires |ends| == |conns| && AllComplete(conns, ends) && Whole(order, ends) && Chosen(s, n, x, order, ends, pick)
    requires 0 <= r.number < s
    ensures From(Baked(order, ends, x), r) == if x == r.group then n else 0
  {
    forall j | 0 <= j < |pick| ensures Mine(ends[order[j]], x) == Router(x, pick[j]) {
      MineIs(ends[order[j]], conns[order[j]], x, pick[j]);
    }
    BakedFrom(order, ends, x, pick, r);
  }

  lemma {:induction false} BelowFrom(lists: seq<seq<nat>>, ends: seq<seq<Router>>, n: nat, r: Router, total: nat)
    requires n <= |lists| && forall x :: 0 <= x < n ==> Whole(lists[x], ends)
    requires forall x :: 0 <= x < n ==> From(Baked(lists[x], ends, x), r) == if x == r.group then total else 0
    ensures From(BakedBelow(lists, ends, n), r) == if 0 <= r.group < n then total else 0
  {
    if n > 0 {
      BelowFrom(lists, ends, n - 1, r, total);
      FromConcat(BakedBelow(lists, ends, n - 1), Baked(lists[n - 1], ends, n - 1), r);
    }
  }

  lemma NetworkCount(s: nat, n: nat, g: nat, conns: seq<(int, int)>, lists: seq<seq<nat>>, ends: seq<seq<Router>>, picks: seq<seq<int>>, r: Router, q: Router)
    requires Ready(s, n, g, conns, lists, ends, picks)
    requires 0 <= r.group < g
    ensures Count(BakedBelow(lists, ends, g), (r, q)) == if r.group != q.group then LinkedBelow(ends, |ends|, r, q) else 0
  {
    forall x | 0 <= x < g
      ensures Count(Baked(lists[x], ends, x), (r, q)) == if x == r.group != q.group then LinkedBelow(ends, |ends|, r, q) else 0
    {
      GroupCount(lists[x], conns, ends, x, r, q);
    }
    BelowCount(lists, ends, g, (r, q), LinkedBelow(ends, |ends|, r, q));
  }

  // Whatever the shuffles: the links are symmetric and every spine starts exactly n.
  lemma NetworkIsRegular(s: nat, n: nat, g: nat, conns: seq<(int, int)>, lists: seq<seq<nat>>, ends: seq<seq<Router>>, picks: seq<seq<int>>, r: Router, q: Router)
    requires Ready(s, n, g, conns, lists, ends, picks)
    requires 0 <= r.group < g && 0 <= q.group < g && 0 <= r.number < s
    ensures var links := BakedBelow(lists, ends, g);
            Count(links, (r, q)) == Count(links, (q, r)) && From(links, r) == n
  {
    NetworkCount(s, n, g, conns, lists, ends, picks, r, q);
    NetworkCount(s, n, g, conns, lists, ends, picks, q, r);
    LinkedSame(ends, |ends|, r, q);
    forall x | 0 <= x < g ensures From(Baked(lists[x], ends, x), r) == if x == r.group then n else 0 {
      GroupFrom(s, n, conns, lists[x], ends, x, picks[x], r);
    }
    BelowFrom(lists, ends, g, r, n);
  }

  lemma {:induction false} LinkTotal(q: nat, lists: seq<seq<nat>>, ends: seq<seq<Router>>, n: nat)
    requires n <= |lists| && forall x :: 0 <= x < n ==> Whole(lists[x], ends) && |lists[x]| == q
    ensures |BakedBelow(lists, ends, n)| == n * q
  {
    if n > 0 {
      LinkTotal(q, lists, ends, n - 1);
      BakedAt(lists[n - 1], ends, n - 1);
      assert (n - 1) * q + q == n * q;
    }
  }

  /* ---- all groups, one after the other ---- */

  function Lo(e: (int, int)): int { if e.0 < e.1 then e.0 else e.1 }

  function Hi(e: (int, int)): int { if e.0 < e.1 then e.1 else e.0 }

  // A connection has the ends of those of its groups that are below x, in order.
  ghost predicate EndsBelow(e: seq<Router>, conn: (int, int), x: int) {
    && |e| == (if Lo(conn) < x then 1 else 0) + (if Hi(conn) < x then 1 else 0)
    && (Lo(conn) < x ==> e[0].group == Lo(conn)) && (Hi(conn) < x ==> e[1].group == Hi(conn))
  }

  ghost predicate AllEndsBelow(conns: seq<(int, int)>, ends: seq<seq<Router>>, x: int)
    requires |ends| == |conns|
  {
    forall k :: 0 <= k < |conns| ==> EndsBelow(ends[k], conns[k], x)
  }

  // random.shuffle: the same connections in another order.
  ghost predicate Shuffled(M: seq<nat>, L: seq<nat>) {
    |M| == |L| && Distinct(M) && forall k :: k in M <==> k in L
  }

  lemma ShuffledLists(M: seq<nat>, L: seq<nat>, conns: seq<(int, int)>, x: int)
    requires ListsGroup(L, conns, x) && Shuffled(M, L)
    ensures ListsGroup(M, conns, x)
  {
    forall i | 0 <= i < |M| ensures M[i] < |conns| && Touches(conns[M[i]], x) {
      assert M[i] in L;
    }
  }

  lemma EndsStep(conns: seq<(int, int)>, ends0: seq<seq<Router>>, ends: seq<seq<Router>>, x: int, order: seq<nat>, pick: seq<int>)
    requires |ends0| == |conns| && AllEndsBelow(conns, ends0, x) && ListsGroup(order, conns, x)
    requires |pick| == |order| && Assigned(ends0, ends, x, order, pick) && forall k :: 0 <= k < |conns| ==> conns[k].0 != conns[k].1
    ensures AllEndsBelow(conns, ends, x + 1)
  {
    assert order[..|pick|] == order;
    forall k | 0 <= k < |conns| ensures EndsBelow(ends[k], conns[k], x + 1) {
      assert EndsBelow(ends0[k], conns[k], x);
      if Touches(conns[k], x) {
        assert k in order;
        var j :| 0 <= j < |order| && order[j] == k;
      }
    }
  }

  // What has been chosen for a group stays chosen.
  lemma ChosenStays(s: nat, n: nat, y: int, done: seq<nat>, pick0: seq<int>, ends0: seq<seq<Router>>, ends: seq<seq<Router>>, x: int, order: seq<nat>, pick: seq<int>)
    requires Chosen(s, n, y, done, ends0, pick0) && Assigned(ends0, ends, x, order, pick)
    ensures Chosen(s, n, y, done, ends, pick0)
  {
    forall j | 0 <= j < |pick0| ensures Router(y, pick0[j]) in ends[done[j]] {
      var k := done[j];
      if k in order[..|pick|] {
        var i :| 0 <= i < |pick| && order[i] == k;
      }
    }
  }

  // assignRoutersToGlobalConnections of all groups, whose lists are of one length.
  method AssignAll(s: nat, g: nat, len: nat, conns: seq<(int, int)>, lists0: seq<seq<nat>>,
                   shuffle: (int, seq<nat>) -> seq<nat>, samples: (int, nat) -> seq<int>)
    returns (lists: seq<seq<nat>>, ends: seq<seq<Router>>, raised: bool, ghost picks: seq<seq<int>>)
    requires s >= 1 && g >= 1 && Proper(conns, g) && |lists0| == g
    requires forall x :: 0 <= x < g ==> ListsGroup(lists0[x], conns, x) && |lists0[x]| == len
    requires forall x: int, L: seq<nat> :: Distinct(L) ==> Shuffled(shuffle(x, L), L)
    requires forall x: int, n: nat :: IsSample(samples(x, n), s)
    ensures raised <==> len % s != 0
    ensures !raised ==> Ready(s, len / s, g, conns, lists, ends, picks)
    ensures !raised ==> forall x :: 0 <= x < g ==> |lists[x]| == len
  {
    lists, ends, raised, picks := lists0, seq(|conns|, _ => []), false, [];
    ghost var n := len / s;
    for x := 0 to g
      invariant |lists| == g && |ends| == |conns| && |picks| == x && AllEndsBelow(conns, ends, x)
      invariant forall y :: 0 <= y < g ==> ListsGroup(lists[y], conns, y) && |lists[y]| == len
      invariant forall y :: 0 <= y < x ==> Chosen(s, n, y, lists[y], ends, picks[y])
      invariant x > 0 ==> len % s == 0
    {
      var order := shuffle(x, lists[x]);
      ShuffledLists(order, lists[x], conns, x);
      lists := lists[x := order];
      forall j | 0 <= j < |order| ensures order[j] < |ends| && |ends[order[j]]| < 2 {
        assert EndsBelow(ends[order[j]], conns[order[j]], x);
      }
      ghost var was := ends;
      ghost var pick;
      ends, raised, pick := AssignRouters(x, s, order, (n: nat) => samples(x, n), ends);
      if raised {
        return;
      }
      EndsStep(conns, was, ends, x, order, pick);
      forall y | 0 <= y < x ensures Chosen(s, n, y, lists[y], ends, picks[y]) {
        ChosenStays(s, n, y, lists[y], picks[y], was, ends, x, order, pick);
      }
      picks := picks + [pick];
    }
    AllReady(s, n, g, conns, lists, ends, picks);
  }

  lemma AllReady(s: nat, n: nat, g: nat, conns: seq<(int, int)>, lists: seq<seq<nat>>, ends: seq<seq<Router>>, picks: seq<seq<int>>)
    requires Proper(conns, g) && |lists| == |picks| == g && |ends| == |conns| && AllEndsBelow(conns, ends, g)
    requires forall x :: 0 <= x < g ==> ListsGroup(lists[x], conns, x) && Chosen(s, n, x, lists[x], ends, picks[x])
    ensures Ready(s, n, g, conns, lists, ends, picks)
  {
    forall k | 0 <= k < |conns| ensures Complete(ends[k], conns[k]) {
      assert EndsBelow(ends[k], conns[k], g);
    }
    forall x | 0 <= x < g ensures Whole(lists[x], ends) {
      forall j | 0 <= j < |lists[x]| ensures lists[x][j] < |ends| && |ends[lists[x][j]]| == 2 {
        assert Complete(ends[lists[x][j]], conns[lists[x][j]]);
      }
    }
  }

  method BakeAll(s: nat, h: nat, g: nat, lists: seq<seq<nat>>, ends: seq<seq<Router>>,
                 ghost n: nat, ghost conns: seq<(int, int)>, ghost picks: seq<seq<int>>)
    returns (links: seq<(Router, Router)>, raised: bool)
    requires Ready(s, n, g, conns, lists, ends, picks) && n <= h
    ensures !raised && links == BakedBelow(lists, ends, g)
  {
    links, raised := [], false;
    for x := 0 to g
      invariant links == BakedBelow(lists, ends, x)
    {
      var more, failed := Bake(x, s, h, lists[x], ends, n, conns, picks[x]);
      if failed {
        return links, true;
      }
      links := links + more;
    }
  }

  /* ---- what verifyTopology asks of it ---- */

  // Both ends of a connection are spines of the network.
  lemma EndInNetwork(s: nat, n: nat, g: nat, conns: seq<(int, int)>, lists: seq<seq<nat>>, ends: seq<seq<Router>>, picks: seq<seq<int>>, k: nat, i: nat)
    requires Ready(s, n, g, conns, lists, ends, picks) && Proper(conns, g) && k < |conns| && i < 2
    ensures |ends[k]| == 2 && Has(s, g, ends[k][i])
  {
    assert Complete(ends[k], conns[k]);
    var x := ends[k][i].group;
    assert Touches(conns[k], x) && 0 <= x < g;
    assert ListsGroup(lists[x], conns, x) && Chosen(s, n, x, lists[x], ends, picks[x]);
    assert k in lists[x];
    var j :| 0 <= j < |lists[x]| && lists[x][j] == k;
    assert Router(x, picks[x][j]) in ends[k];
  }

  lemma {:induction false} BakedHave(a: int, g: int, order: seq<nat>, ends: seq<seq<Router>>, x: int)
    requires Whole(order, ends) && forall k :: 0 <= k < |ends| && |ends[k]| == 2 ==> Has(a, g, ends[k][0]) && Has(a, g, ends[k][1])
    ensures AllHave(a, g, Baked(order, ends, x))
  {
    if order != [] {
      BakedHave(a, g, order[..|order| - 1], ends, x);
    }
  }

  lemma {:induction false} BelowHave(a: int, g: int, lists: seq<seq<nat>>, ends: seq<seq<Router>>, n: nat)
    requires n <= |lists| && (forall x :: 0 <= x < n ==> Whole(lists[x], ends))
    requires forall k :: 0 <= k < |ends| && |ends[k]| == 2 ==> Has(a, g, ends[k][0]) && Has(a, g, ends[k][1])
    ensures AllHave(a, g, BakedBelow(lists, ends, n))
  {
    if n > 0 {
      BelowHave(a, g, lists, ends, n - 1);
      BakedHave(a, g, lists[n - 1], ends, n - 1);
    }
  }

  // The global links are between spines, symmetric and n from each.
  lemma NetworkLinks(p: Plus, n: nat, conns: seq<(int, int)>, lists: seq<seq<nat>>, ends: seq<seq<Router>>, picks: seq<seq<int>>)
    requires Ready(p.s, n, p.g, conns, lists, ends, picks) && Proper(conns, p.g)
    ensures var links := BakedBelow(lists, ends, p.g);
            && AllHave(p.s, p.g, links) && Mutual(p, links) && (n == p.h ==> Regular(p, links))
  {
    var links := BakedBelow(lists, ends, p.g);
    forall k | 0 <= k < |ends| ensures |ends[k]| == 2 && Has(p.s, p.g, ends[k][0]) && Has(p.s, p.g, ends[k][1]) {
      EndInNetwork(p.s, n, p.g, conns, lists, ends, picks, k, 0);
      EndInNetwork(p.s, n, p.g, conns, lists, ends, picks, k, 1);
    }
    BelowHave(p.s, p.g, lists, ends, p.g);
    forall r, q | Has(p.s, p.g, r) && Has(p.s, p.g, q) ensures Count(links, (r, q)) == Count(links, (q, r)) && From(links, r) == n {
      NetworkIsRegular(p.s, n, p.g, conns, lists, ends, picks, r, q);
    }
    forall r | Has(p.s, p.g, r) ensures From(links, r) == n {
      NetworkIsRegular(p.s, n, p.g, conns, lists, ends, picks, r, r);
    }
  }

  // set(g.groupConns)
  function Different(L: seq<nat>): set<nat> {
    set k | k in L
  }

  lemma {:induction false} DifferentCount(L: seq<nat>)
    ensures |Different(L)| <= |L|
    ensures Distinct(L) ==> |Different(L)| == |L|
  {
    if L == [] {
      assert Different(L) == {};
    } else {
      var n := |L| - 1;
      DifferentCount(L[..n]);
      assert L == L[..n] + [L[n]];
      assert Different(L) == Different(L[..n]) + {L[n]};
    }
  }

  function Leads(conns: seq<(int, int)>, y: int): nat -> bool {
    (k: nat) => k < |conns| && Touches(conns[k], y)
  }

  // getConnectionsToGroup
  function ToGroup(lists: seq<seq<nat>>, conns: seq<(int, int)>): (nat, nat) -> nat {
    (x: nat, y: nat) => if x < |lists| then Sat(lists[x], Leads(conns, y)) else 0
  }

  lemma {:induction false} SatSame(L: seq<nat>, q: nat -> bool, q': nat -> bool)
    requires forall i :: 0 <= i < |L| ==> q(L[i]) == q'(L[i])
    ensures Sat(L, q) == Sat(L, q')
  {
    if L != [] {
      SatSame(L[..|L| - 1], q, q');
    }
  }

  lemma {:induction false} SatBelowJoins(conns: seq<(int, int)>, q: nat -> bool, x: int, y: int, n: nat)
    requires n <= |conns| && forall k: nat :: k < |conns| ==> q(k) == Joins(conns[k], x, y)
    ensures SatBelow(n, q) == Joining(conns[..n], x, y)
  {
    if n > 0 {
      SatBelowJoins(conns, q, x, y, n - 1);
      assert conns[..n][..n - 1] == conns[..n - 1];
    }
  }

  // A group's list names the connections with another group.
  lemma ToGroupIs(L: seq<nat>, conns: seq<(int, int)>, g: nat, x: int, y: int)
    requires ListsGroup(L, conns, x) && Proper(conns, g) && x != y
    ensures Sat(L, Leads(conns, y)) == Joining(conns, x, y)
  {
    var q: nat -> bool := (k: nat) => k < |conns| && Joins(conns[k], x, y);
    forall i | 0 <= i < |L| ensures Leads(conns, y)(L[i]) == q(L[i]) {
      assert Touches(conns[L[i]], x);
    }
    SatSame(L, Leads(conns, y), q);
    forall k: nat | k < |conns| && q(k) ensures k in L {
      assert Touches(conns[k], x);
    }
    SatIsSatBelow(L, q, |conns|);
    SatBelowJoins(conns, q, x, y, |conns|);
    assert conns[..|conns|] == conns;
  }

  /* ---- the whole construction ---- */

  datatype Outcome = ZeroDivision | UnfairLinks | InadequateRadix | Refused | Unassigned | Failed(verdict: Verdict)
                   | Built(local: Links, glob: Links)

  function NumGroups(radix: nat, c: nat): nat
    requires c >= 1
  {
    QuotientNat((radix / 2) * (radix / 2), c);
    (radix / 2) * (radix / 2) / c + 1
  }

  // What a caller can check beforehand.
  predicate Accepts(radix: nat, c: nat)
    requires c >= 1
  {
    var s := radix / 2; radix % 2 == 0 && 1 <= s <= SHARED && (s * s) % c == 0
  }

  // The network that comes out: every two groups have c connections, and the links are
  // these from either end.
  ghost predicate IsNetwork(s: nat, c: nat, g: nat, glob: Links) {
    exists conns, lists, ends, picks :: IsNetworkOf(s, c, g, glob, conns, lists, ends, picks)
  }

  ghost predicate IsNetworkOf(s: nat, c: nat, g: nat, glob: Links, conns: seq<(int, int)>, lists: seq<seq<nat>>,
                              ends: seq<seq<Router>>, picks: seq<seq<int>>)
  {
    && Proper(conns, g) && Ready(s, s, g, conns, lists, ends, picks) && glob == BakedBelow(lists, ends, g)
    && forall x, y :: 0 <= x < g && 0 <= y < g && x != y ==> Joining(conns, x, y) == c
  }

  // How many connections a group gets: with an even radix all its global links, with an
  // odd one too few.
  ghost predicate Lengths(s: nat, h: nat, c: nat, g: nat, per: nat, len: nat)
    requires s >= 1
  {
    && len == per * (g - 1) && len <= s * s && s <= h
    && if h == s then per == c && len == s * s && len % s == 0 && len / s == s else len < s * h
  }

  lemma LengthsHold(s: nat, h: nat, c: nat, g: nat)
    requires s >= 1 && g >= 2 && c >= 1 && g - 1 == s * s / c && ((h == s && (s * s) % c == 0) || h == s + 1)
    ensures s * s / (g - 1) >= 0 && (s * s / (g - 1)) * (g - 1) >= 0
    ensures Lengths(s, h, c, g, s * s / (g - 1), (s * s / (g - 1)) * (g - 1))
  {
    var ports, n := s * s, g - 1;
    QuotientNat(ports, n);
    assert ports == n * (ports / n) + ports % n;
    MulMono(n, 0, ports / n);
    if h == s {
      assert ports == c * n;
      DivModUnique(ports, n, c, 0);
      DivModUnique(ports, s, s, 0);
    } else {
      assert s * h == ports + s;
    }
  }

  // generateGlobalGroupConnections
  method Wire(s: nat, h: nat, g: nat, per: nat, len: nat,
              pairs: seq<(int, int)>, shuffle: (int, seq<nat>) -> seq<nat>, samples: (int, nat) -> seq<int>)
    returns (raised: bool, conns: seq<(int, int)>, lists: seq<seq<nat>>, ends: seq<seq<Router>>, glob: Links, ghost picks: seq<seq<int>>)
    requires s >= 1 && g >= 2 && len == per * (g - 1) && len <= s * s && s <= h && EachPairOnce(pairs, g)
    requires forall x: int, L: seq<nat> :: Distinct(L) ==> Shuffled(shuffle(x, L), L)
    requires forall x: int, n: nat :: IsSample(samples(x, n), s)
    ensures raised <==> len % s != 0
    ensures !raised ==> Proper(conns, g) && Ready(s, len / s, g, conns, lists, ends, picks) && glob == BakedBelow(lists, ends, g)
    ensures !raised ==> forall x :: 0 <= x < g ==> |lists[x]| == len
    ensures !raised ==> forall x, y :: 0 <= x < g && 0 <= y < g && x != y ==> Joining(conns, x, y) == per
  {
    var lists0;
    conns, lists0 := Connect(pairs, g, per);
    lists, ends, raised, picks := AssignAll(s, g, len, conns, lists0, shuffle, samples);
    glob := [];
    if !raised {
      RoundsBelow(s, len);
      glob, raised := BakeAll(s, h, g, lists, ends, len / s, conns, picks);
    }
  }

  // generateGlobalGroupConnections and verifyTopology, after the local connections.
  method GenerateGlobal(s: nat, h: nat, ghost c: nat, g: nat, per: nat, len: nat, local: Links,
                        pairs: seq<(int, int)>, shuffle: (int, seq<nat>) -> seq<nat>, samples: (int, nat) -> seq<int>)
    returns (r: Outcome)
    requires s >= 1 && g >= 2 && Lengths(s, h, c, g, per, len) && local == Local(s, g) && EachPairOnce(pairs, g)
    requires forall x: int, L: seq<nat> :: Distinct(L) ==> Shuffled(shuffle(x, L), L)
    requires forall x: int, n: nat :: IsSample(samples(x, n), s)
    ensures r.Built? <==> h == s <= SHARED
    ensures r.Built? ==> r.local == local && IsNetwork(s, c, g, r.glob)
  {
    var raised, conns, lists, ends, glob, picks := Wire(s, h, g, per, len, pairs, shuffle, samples);
    if raised {
      return Unassigned;
    }
    if h == s {
      assert IsNetworkOf(s, c, g, glob, conns, lists, ends, picks);
    }
    var v := VerifyNetwork(Plus(s, h, g), len, len / s, per, local, glob, conns, lists, ends, picks);
    r := if v.Fine? then Built(local, glob) else Failed(v);
  }

  method VerifyNetwork(p: Plus, len: nat, ghost n: nat, ghost per: nat, local: Links, glob: Links,
                       conns: seq<(int, int)>, lists: seq<seq<nat>>, ghost ends: seq<seq<Router>>, ghost picks: seq<seq<int>>)
    returns (v: Verdict)
    requires p.s >= 1 && p.g >= 2 && local == Local(p.s, p.g)
    requires Proper(conns, p.g) && Ready(p.s, n, p.g, conns, lists, ends, picks) && glob == BakedBelow(lists, ends, p.g)
    requires forall x :: 0 <= x < p.g ==> |lists[x]| == len
    requires forall x, y :: 0 <= x < p.g && 0 <= y < p.g && x != y ==> Joining(conns, x, y) == per
    requires if p.h == p.s then n == p.s && len == p.s * p.s else len < p.s * p.h
    ensures v.Fine? <==> p.h == p.s <= SHARED
  {
    NetworkLinks(p, n, conns, lists, ends, picks);
    var sizes := seq(p.g, x requires 0 <= x < |lists| => |Different(lists[x])|);
    ListsCounted(lists, conns, p.g, per, len, sizes);
    LinkTotal(len, lists, ends, p.g);
    v := VerifyTopology(p, local, glob, sizes, ToGroup(lists, conns), true);
    assert sizes[0] == len;
  }

  lemma RoundsBelow(s: nat, len: nat)
    requires s >= 1 && len <= s * s
    ensures 0 <= len / s <= s
  {
    if len / s > s {
      MulMono(s, s + 1, len / s);
    }
    QuotientNat(len, s);
  }

  // Every list has len different connections, and per of them for each other group.
  lemma ListsCounted(lists: seq<seq<nat>>, conns: seq<(int, int)>, g: nat, per: nat, len: nat, sizes: seq<nat>)
    requires |lists| == |sizes| == g && Proper(conns, g)
    requires forall x :: 0 <= x < g ==> ListsGroup(lists[x], conns, x) && |lists[x]| == len && sizes[x] == |Different(lists[x])|
    requires forall x, y :: 0 <= x < g && 0 <= y < g && x != y ==> Joining(conns, x, y) == per
    ensures forall x :: 0 <= x < g ==> sizes[x] == len
    ensures forall x, y :: 0 <= x < g && 0 <= y < g && x != y ==> ToGroup(lists, conns)(x, y) == per
  {
    forall x | 0 <= x < g ensures sizes[x] == len {
      DifferentCount(lists[x]);
    }
    forall x, y | 0 <= x < g && 0 <= y < g && x != y ensures ToGroup(lists, conns)(x, y) == per {
      ToGroupIs(lists[x], conns, g, x, y);
    }
  }

  // DragonflyPlusNetwork with verifyTopology: it succeeds, for every order of the pairs,
  // every shuffle and every sample, exactly when the radix is even, the wanted number of
  // links divides the global links of a group, and there are at most 256 leaves.
  method Generate(radix: nat, c: nat, pairs: seq<(int, int)>, shuffle: (int, seq<nat>) -> seq<nat>, samples: (int, nat) -> seq<int>)
    returns (r: Outcome)
    requires c >= 1 && EachPairOnce(pairs, NumGroups(radix, c))
    requires forall x: int, L: seq<nat> :: Distinct(L) ==> Shuffled(shuffle(x, L), L)
    requires forall x: int, n: nat :: IsSample(samples(x, n), radix / 2)
    ensures r.Built? <==> Accepts(radix, c)
    ensures r.Built? ==> r.local == Local(radix / 2, NumGroups(radix, c)) && IsNetwork(radix / 2, c, NumGroups(radix, c), r.glob)
  {
    var s := radix / 2;
    var h, g := radix - s, s * s / c + 1;
    var ports := s * h;
    if g == 1 {
      // num_global_links_between_groups divides by num_groups - 1
      if s >= 1 && (s * s) % c == 0 {
        MulPositive(s, s);
        QuotientPositive(s * s, c);
      }
      return ZeroDivision;
    }
    var per := s * s / (g - 1);
    if ports % c != 0 {
      return UnfairLinks;
    }
    if s == 0 {
      return ZeroDivision;
    }
    DivModUnique(ports, s, h, 0);
    if ports % s != 0 {
      return UnfairLinks;
    }
    if s > radix - ports / s {
      return InadequateRadix;
    }
    var local, refused := ConnectLocal(s, g);
    if refused {
      return Refused;
    }
    LengthsHold(s, h, c, g);
    r := GenerateGlobal(s, h, c, g, per, per * (g - 1), local, pairs, shuffle, samples);
  }
}
