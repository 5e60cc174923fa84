/** The network of scripts/dragonfly-dally/dragonfly-dally-link-fail-gen.py: loading
    links, the adjacency of what has not failed, and the connectivity test. */
module LinkFailures {
  import opened Arith
  import opened Seqs

  datatype Kind = Intra | Inter

  datatype Link = Link(src: int, dst: int, rail: int, kind: Kind, failed: bool, paired: bool)

  // The frozenset of the two routers and the type.
  datatype Key = Key(lo: int, hi: int, kind: Kind)

  function KeyOf(src: int, dst: int, kind: Kind): Key {
    if src <= dst then Key(src, dst, kind) else Key(dst, src, kind)
  }

  // Two calls have the same key exactly when they join the same two routers, whichever
  // way, by links of the same kind.
  lemma KeysMeet(a: int, b: int, k: Kind, c: int, d: int, l: Kind)
    ensures KeyOf(a, b, k) == KeyOf(c, d, l) <==> k == l && ((a == c && b == d) || (a == d && b == c))
  {
  }

  /* ---- loading ---- */

  // The links of one key after n calls: two calls make one link, and only a last
  // odd call leaves its link without the other direction.
  ghost predicate Paired(group: seq<nat>, links: seq<Link>, k: Key, n: nat) {
    && n > 0 && |group| == (n + 1) / 2 && Distinct(group)
    && (forall j :: 0 <= j < |group| ==> group[j] < |links| && KeyOf(links[group[j]].src, links[group[j]].dst, links[group[j]].kind) == k)
    && (forall j :: 0 <= j < |group| ==> (links[group[j]].paired <==> j < |group| - 1 || n % 2 == 0))
  }

  // The map names the links of each key, and each key has been called calls[k] times.
  ghost predicate Loaded(links: seq<Link>, linkMap: map<Key, seq<nat>>, calls: map<Key, nat>) {
    linkMap.Keys == calls.Keys && forall k :: k in linkMap ==> Paired(linkMap[k], links, k, calls[k])
  }

  function Calls(calls: map<Key, nat>, k: Key): nat {
    if k in calls then calls[k] else 0
  }

  function GroupOf(linkMap: map<Key, seq<nat>>, k: Key): seq<nat> {
    if k in linkMap then linkMap[k] else []
  }

  lemma GroupMore(group: seq<nat>, links: seq<Link>, k: Key, n: nat, l: Link)
    requires (if n == 0 then group == [] else Paired(group, links, k, n)) && n % 2 == 0
    requires !l.paired && KeyOf(l.src, l.dst, l.kind) == k
    ensures Paired(group + [|links|], links + [l], k, n + 1)
  {
  }

  // A new link for a key all of whose links are paired.
  lemma NewLink(links: seq<Link>, linkMap: map<Key, seq<nat>>, calls: map<Key, nat>, k: Key, l: Link)
    requires Loaded(links, linkMap, calls) && Calls(calls, k) % 2 == 0
    requires !l.paired && KeyOf(l.src, l.dst, l.kind) == k
    ensures Loaded(links + [l], linkMap[k := GroupOf(linkMap, k) + [|links|]], calls[k := Calls(calls, k) + 1])
  {
    GroupMore(GroupOf(linkMap, k), links, k, Calls(calls, k), l);
    var lm, cs := linkMap[k := GroupOf(linkMap, k) + [|links|]], calls[k := Calls(calls, k) + 1];
    forall x | x in lm ensures Paired(lm[x], links + [l], x, cs[x]) {
      if x != k {
        assert Paired(linkMap[x], links, x, calls[x]);
      }
    }
  }

  // One link of the key, without its other direction before, has it now; nothing else changed.
  ghost predicate MarkedAt(before: seq<Link>, after: seq<Link>, k: Key, i: nat) {
    && i < |before| && KeyOf(before[i].src, before[i].dst, before[i].kind) == k && !before[i].paired
    && after == before[i := before[i].(paired := true)]
  }

  ghost predicate MarkedPaired(before: seq<Link>, after: seq<Link>, k: Key) {
    exists i :: MarkedAt(before, after, k, i)
  }

  // The other direction of the last link of a key.
  lemma PairLink(links: seq<Link>, linkMap: map<Key, seq<nat>>, calls: map<Key, nat>, k: Key)
    requires Loaded(links, linkMap, calls) && k in linkMap && calls[k] % 2 == 1
    ensures |linkMap[k]| > 0 && linkMap[k][|linkMap[k]| - 1] < |links|
    ensures var i := linkMap[k][|linkMap[k]| - 1];
            var more := links[i := links[i].(paired := true)];
            Loaded(more, linkMap, calls[k := calls[k] + 1]) && MarkedPaired(links, more, k)
  {
    assert Paired(linkMap[k], links, k, calls[k]);
    var i, cs := linkMap[k][|linkMap[k]| - 1], calls[k := calls[k] + 1];
    var more := links[i := links[i].(paired := true)];
    assert MarkedAt(links, more, k, i);
    forall x | x in linkMap ensures Paired(linkMap[x], more, x, cs[x]) {
      assert Paired(linkMap[x], links, x, calls[x]);
    }
  }

  /* ---- adjacency ---- */

  // For each plane, the neighbours of each router that has any.
  type Adjacency = map<int, map<int, seq<int>>>

  predicate Joins(l: Link, plane: int, u: int, v: int) {
    l.rail == plane && !l.failed && ((l.src == u && l.dst == v) || (l.src == v && l.dst == u))
  }

  // Some link of the plane that has not failed joins u and v.
  predicate Joined(links: seq<Link>, plane: int, u: int, v: int) {
    exists i :: 0 <= i < |links| && Joins(links[i], plane, u, v)
  }

  function Neighbours(adj: Adjacency, plane: int, u: int): seq<int> {
    if plane in adj && u in adj[plane] then adj[plane][u] else []
  }

  ghost predicate NoEmptyList(adj: Adjacency) {
    forall p, u :: p in adj && u in adj[p] ==> adj[p][u] != []
  }

  // The map lists exactly the pairs that are joined.
  ghost predicate Describes(adj: Adjacency, links: seq<Link>) {
    NoEmptyList(adj) && forall p, u, v :: v in Neighbours(adj, p, u) <==> Joined(links, p, u, v)
  }

  // Spelled out: v is listed at u exactly when a link of the plane that has not failed has
  // these two ends.
  lemma DescribesExact(adj: Adjacency, links: seq<Link>, plane: int, u: int, v: int)
    requires Describes(adj, links)
    ensures v in Neighbours(adj, plane, u) <==>
              exists i :: 0 <= i < |links| && links[i].rail == plane && !links[i].failed
                       && ((links[i].src == u && links[i].dst == v) || (links[i].src == v && links[i].dst == u))
  {
    assert v in Neighbours(adj, plane, u) <==> Joined(links, plane, u, v);
    forall i | 0 <= i < |links|
      ensures Joins(links[i], plane, u, v) <==>
                links[i].rail == plane && !links[i].failed && ((links[i].src == u && links[i].dst == v) || (links[i].src == v && links[i].dst == u))
    {
    }
  }

  function Attach(adj: Adjacency, plane: int, u: int, v: int): (r: Adjacency)
    ensures forall p, w :: Neighbours(r, p, w) == Neighbours(adj, p, w) + if p == plane && w == u then [v] else []
    ensures NoEmptyList(adj) ==> NoEmptyList(r)
  {
    var inner := if plane in adj then adj[plane] else map[];
    adj[plane := inner[u := (if u in inner then inner[u] else []) + [v]]]
  }

  lemma JoinedMore(links: seq<Link>, n: nat, plane: int, u: int, v: int)
    requires n < |links|
    ensures Joined(links[..n + 1], plane, u, v) <==> Joined(links[..n], plane, u, v) || Joins(links[n], plane, u, v)
  {
    var more, fewer := links[..n + 1], links[..n];
    if i :| 0 <= i < |fewer| && Joins(fewer[i], plane, u, v) {
      assert Joins(more[i], plane, u, v);
    }
    if Joins(links[n], plane, u, v) {
      assert Joins(more[n], plane, u, v);
    }
    if i :| 0 <= i < |more| && Joins(more[i], plane, u, v) {
      assert i < n ==> Joins(fewer[i], plane, u, v);
    }
  }

  // What adj lists beyond start are the joined pairs.
  ghost predicate Extended(start: Adjacency, adj: Adjacency, links: seq<Link>) {
    && (NoEmptyList(start) ==> NoEmptyList(adj))
    && forall p, u, v :: v in Neighbours(adj, p, u) <==> v in Neighbours(start, p, u) || Joined(links, p, u, v)
  }

  function AttachLink(adj: Adjacency, l: Link): (r: Adjacency)
    ensures NoEmptyList(adj) ==> NoEmptyList(r)
    ensures forall p, u, v :: v in Neighbours(r, p, u) <==> v in Neighbours(adj, p, u) || Joins(l, p, u, v)
  {
    if l.failed then adj else Attach(Attach(adj, l.rail, l.src, l.dst), l.rail, l.dst, l.src)
  }

  lemma ExtendedMore(start: Adjacency, adj: Adjacency, links: seq<Link>, n: nat)
    requires n < |links| && Extended(start, adj, links[..n])
    ensures Extended(start, AttachLink(adj, links[n]), links[..n + 1])
  {
    var more := AttachLink(adj, links[n]);
    forall p, u, v ensures v in Neighbours(more, p, u) <==> v in Neighbours(start, p, u) || Joined(links[..n + 1], p, u, v) {
      JoinedMore(links, n, p, u, v);
      assert v in Neighbours(adj, p, u) <==> v in Neighbours(start, p, u) || Joined(links[..n], p, u, v);
    }
  }

  // The body of the loop over the links.
  method AttachOne(adj: Adjacency, l: Link) returns (r: Adjacency)
    ensures r == AttachLink(adj, l)
  {
    r := adj;
    if !l.failed {
      r := Attach(r, l.rail, l.src, l.dst);
      r := Attach(r, l.rail, l.dst, l.src);
    }
  }

  /* ---- reachability ---- */

  ghost predicate IsPath(links: seq<Link>, plane: int, path: seq<int>, u: int, v: int) {
    && |path| > 0 && path[0] == u && path[|path| - 1] == v
    && forall i :: 0 <= i < |path| - 1 ==> Joined(links, plane, path[i], path[i + 1])
  }

  ghost predicate Reachable(links: seq<Link>, plane: int, u: int, v: int) {
    exists path: seq<int> :: IsPath(links, plane, path, u, v)
  }

  lemma ReachSelf(links: seq<Link>, plane: int, u: int)
    ensures Reachable(links, plane, u, u)
  {
    assert IsPath(links, plane, [u], u, u);
  }

  lemma ReachFurther(links: seq<Link>, plane: int, u: int, v: int, w: int)
    requires Joined(links, plane, u, v) && Reachable(links, plane, v, w)
    ensures Reachable(links, plane, u, w)
  {
    var path: seq<int> :| IsPath(links, plane, path, v, w);
    var longer := [u] + path;
    forall i | 0 <= i < |longer| - 1 ensures Joined(links, plane, longer[i], longer[i + 1]) {
      if i > 0 {
        assert longer[i] == path[i - 1] && longer[i + 1] == path[i];
      }
    }
    assert IsPath(links, plane, longer, u, w);
  }

  // Every link of a plane joins two of its n routers; loading does not check it.
  ghost predicate WithinPlanes(links: seq<Link>, n: nat) {
    forall i :: 0 <= i < |links| ==> InPlane(links[i].src, links[i].rail, n) && InPlane(links[i].dst, links[i].rail, n)
  }

  predicate InPlane(u: int, plane: int, n: nat) {
    plane * n <= u < plane * n + n
  }

  /* ---- the search, which knows a router at its number modulo n only ---- */

  function Slot(u: int, n: nat): (i: nat)
    requires n > 0
    ensures i < n
  {
    u % n
  }

  // For each slot that has been visited, the router that the search was at.
  type Holders = map<nat, int>

  ghost predicate Marks(visited: seq<bool>, n: nat, at: Holders) {
    && n == |visited| > 0 && (forall i :: i in at ==> i < n && Slot(at[i], n) == i)
    && forall i :: 0 <= i < n ==> (visited[i] <==> i in at)
  }

  // What was visited stays, and what is new can be reached from u.
  ghost predicate Grown(links: seq<Link>, plane: int, before: Holders, after: Holders, u: int) {
    && (forall i :: i in before ==> i in after && after[i] == before[i])
    && (forall i :: i in after && i !in before ==> Reachable(links, plane, u, after[i]))
  }

  // Every router visited since `before`, apart from the one being expanded, has the
  // slots of all its neighbours visited.
  ghost predicate Closed(links: seq<Link>, plane: int, n: nat, before: Holders, after: Holders, but: set<int>)
    requires n > 0
  {
    forall i, v :: i in after && i !in before && i !in but && Joined(links, plane, after[i], v) ==> Slot(v, n) in after
  }

  // Visiting a router leaves fewer unvisited.
  lemma {:induction false} FewerUnseen(before: seq<bool>, after: seq<bool>, k: int, m: nat)
    requires m <= |before| == |after| && forall i :: 0 <= i < |before| && before[i] ==> after[i]
    requires 0 <= k < |before| && !before[k] && after[k]
    ensures CountTo(after, false, m) + (if k < m then 1 else 0) <= CountTo(before, false, m)
  {
    if m > 0 {
      FewerUnseen(before, after, k, m - 1);
    }
  }

  lemma GrownFewer(links: seq<Link>, plane: int, n: nat, before: seq<bool>, old': Holders, after: seq<bool>, now: Holders, u: int)
    requires Marks(before, n, old') && Marks(after, n, now) && Grown(links, plane, old', now, u)
    requires Slot(u, n) in now && Slot(u, n) !in old'
    ensures Count(after, false) < Count(before, false)
  {
    FewerUnseen(before, after, Slot(u, n), |before|);
  }

  // The search from u after k of its neighbours.
  ghost predicate Exploring(links: seq<Link>, plane: int, n: nat, before: Holders, now: Holders, u: int, around: seq<int>, k: nat)
    requires n > 0
  {
    && k <= |around| && Slot(u, n) in now && Slot(u, n) !in before && now[Slot(u, n)] == u
    && Grown(links, plane, before, now, u) && Closed(links, plane, n, before, now, {Slot(u, n)})
    && forall j :: 0 <= j < k ==> Slot(around[j], n) in now
  }

  lemma ExploreFirst(links: seq<Link>, plane: int, n: nat, before: Holders, u: int, around: seq<int>)
    requires n > 0 && Slot(u, n) !in before
    ensures Exploring(links, plane, n, before, before[Slot(u, n) := u], u, around, 0)
  {
    ReachSelf(links, plane, u);
  }

  lemma ExploreNext(links: seq<Link>, plane: int, n: nat, before: Holders, mid: Holders, after: Holders, u: int, around: seq<int>, k: nat)
    requires n > 0 && k < |around| && Exploring(links, plane, n, before, mid, u, around, k)
    requires Grown(links, plane, mid, after, around[k]) && Closed(links, plane, n, mid, after, {})
    requires Joined(links, plane, u, around[k]) && Slot(around[k], n) in after
    ensures Exploring(links, plane, n, before, after, u, around, k + 1)
  {
    forall i | i in after && i !in before ensures Reachable(links, plane, u, after[i]) {
      if i !in mid {
        ReachFurther(links, plane, u, around[k], after[i]);
      }
    }
  }

  lemma ExploreLast(links: seq<Link>, adj: Adjacency, plane: int, n: nat, before: Holders, now: Holders, u: int)
    requires n > 0 && Describes(adj, links)
    requires Exploring(links, plane, n, before, now, u, Neighbours(adj, plane, u), |Neighbours(adj, plane, u)|)
    ensures Closed(links, plane, n, before, now, {})
  {
    forall v | Joined(links, plane, u, v) ensures Slot(v, n) in now {
      assert v in Neighbours(adj, plane, u);
    }
  }

  lemma JoinedBack(links: seq<Link>, plane: int, u: int, v: int)
    requires Joined(links, plane, u, v)
    ensures Joined(links, plane, v, u)
  {
    var i :| 0 <= i < |links| && Joins(links[i], plane, u, v);
    assert Joins(links[i], plane, v, u);
  }

  lemma NextNeighbour(links: seq<Link>, adj: Adjacency, plane: int, u: int, k: nat)
    requires Describes(adj, links) && k < |Neighbours(adj, plane, u)|
    ensures var near := Neighbours(adj, plane, u)[k]; Joined(links, plane, u, near) && Neighbours(adj, plane, near) != []
  {
    var near := Neighbours(adj, plane, u)[k];
    assert near in Neighbours(adj, plane, u);
    JoinedBack(links, plane, u, near);
    assert u in Neighbours(adj, plane, near);
  }

  // What was visited stays visited, so no more is unvisited than before.
  lemma {:induction false} NoMoreUnseen(before: seq<bool>, after: seq<bool>, m: nat)
    requires m <= |before| == |after| && forall i :: 0 <= i < |before| && before[i] ==> after[i]
    ensures CountTo(after, false, m) <= CountTo(before, false, m)
  {
    if m > 0 {
      NoMoreUnseen(before, after, m - 1);
    }
  }

  lemma MarksGrow(before: seq<bool>, old': Holders, after: seq<bool>, now: Holders, n: nat)
    requires Marks(before, n, old') && Marks(after, n, now) && forall i :: i in old' ==> i in now
    ensures Count(after, false) <= Count(before, false)
  {
    NoMoreUnseen(before, after, |before|);
  }

  // dfs_recursive; a router without an entry raises, which ends the whole search.
  method Dfs(ghost links: seq<Link>, adj: Adjacency, gid: int, visited: array<bool>, plane: int, n: nat, ghost at: Holders)
    returns (ok: bool, ghost now: Holders)
    requires Describes(adj, links) && Marks(visited[..], n, at) && Slot(gid, n) !in at
    modifies visited
    ensures ok <==> Neighbours(adj, plane, gid) != []
    ensures Marks(visited[..], n, now) && Grown(links, plane, at, now, gid)
    ensures Slot(gid, n) in now && now[Slot(gid, n)] == gid
    ensures ok ==> Closed(links, plane, n, at, now, {})
    decreases Count(visited[..], false), 0
  {
    ghost var before := visited[..];
    visited[gid % n] := true;
    now := at[Slot(gid, n) := gid];
    ExploreFirst(links, plane, n, at, gid, Neighbours(adj, plane, gid));
    if plane !in adj || gid !in adj[plane] {
      return false, now;
    }
    GrownFewer(links, plane, n, before, at, visited[..], now, gid);
    ok, now := Around(links, adj, gid, visited, plane, n, at, now);
    ExploreLast(links, adj, plane, n, at, now, gid);
  }

  // Its loop over the neighbours of a router.
  method Around(ghost links: seq<Link>, adj: Adjacency, gid: int, visited: array<bool>, plane: int, n: nat, ghost at: Holders, ghost start: Holders)
    returns (ok: bool, ghost now: Holders)
    requires Describes(adj, links) && Marks(visited[..], n, start)
    requires Exploring(links, plane, n, at, start, gid, Neighbours(adj, plane, gid), 0)
    modifies visited
    ensures ok && Marks(visited[..], n, now)
    ensures Exploring(links, plane, n, at, now, gid, Neighbours(adj, plane, gid), |Neighbours(adj, plane, gid)|)
    decreases Count(visited[..], false), 1
  {
    ghost var before := visited[..];
    var around := Neighbours(adj, plane, gid);
    ok, now := true, start;
    for k := 0 to |around|
      invariant ok && Marks(visited[..], n, now) && forall i :: i in start ==> i in now
      invariant Exploring(links, plane, n, at, now, gid, around, k)
    {
      var near := around[k];
      NextNeighbour(links, adj, plane, gid, k);
      if !visited[near % n] {
        ghost var mid := now;
        MarksGrow(before, start, visited[..], mid, n);
        ok, now := Dfs(links, adj, near, visited, plane, n, mid);
        ExploreNext(links, plane, n, at, mid, now, gid, around, k);
      }
    }
  }

  /* ---- what the verdict means ---- */

  // The slots of a plane that the search came to: it started at u, each holder can be
  // reached from there, and the slots of its neighbours were visited too.
  ghost predicate Searched(links: seq<Link>, plane: int, n: nat, at: Holders, u: int) {
    && n > 0 && (forall i :: i in at ==> i < n && Slot(at[i], n) == i && Reachable(links, plane, u, at[i]))
    && Slot(u, n) in at && at[Slot(u, n)] == u && Closed(links, plane, n, map[], at, {})
  }

  ghost predicate AllSlots(n: nat, at: Holders) {
    forall i :: 0 <= i < n ==> i in at
  }

  // So a plane that passes has a router for each of its numbers that the first one
  // reaches, and its own routers if no link leaves the planes.
  lemma ConnectedReaches(links: seq<Link>, plane: int, n: nat, at: Holders, i: nat) returns (v: int)
    requires Searched(links, plane, n, at, plane * n) && AllSlots(n, at) && i < n
    ensures Slot(v, n) == i && Reachable(links, plane, plane * n, v)
  {
    v := at[i];
  }

  // The search has met routers of the plane only, and so are their neighbours.
  ghost predicate Inside(links: seq<Link>, plane: int, n: nat, at: Holders) {
    && (forall i :: i in at ==> InPlane(at[i], plane, n))
    && (forall i, v :: i in at && Joined(links, plane, at[i], v) ==> InPlane(v, plane, n))
  }

  // All routers of the plane can be reached from the first one.
  ghost predicate Connected(links: seq<Link>, plane: int, n: nat) {
    forall v :: InPlane(v, plane, n) ==> Reachable(links, plane, plane * n, v)
  }

  // If no link leaves the planes, every search is such.
  lemma WithinIsInside(links: seq<Link>, plane: int, n: nat, at: Holders)
    requires WithinPlanes(links, n) && Searched(links, plane, n, at, plane * n)
    ensures Inside(links, plane, n, at)
  {
    forall i | i in at ensures InPlane(at[i], plane, n) {
      var path: seq<int> :| IsPath(links, plane, path, plane * n, at[i]);
      PathInPlane(links, plane, n, path, plane * n, at[i]);
    }
  }

  // Then the search comes to every slot exactly when every router of the plane can be
  // reached from the first one.
  lemma ConnectedExact(links: seq<Link>, plane: int, n: nat, at: Holders)
    requires Inside(links, plane, n, at) && Searched(links, plane, n, at, plane * n)
    ensures AllSlots(n, at) <==> Connected(links, plane, n)
  {
    var base := plane * n;
    if Connected(links, plane, n) {
      forall i | 0 <= i < n ensures i in at {
        PlaneSlot(plane, n, base, base + i);
        assert InPlane(base + i, plane, n);
        var path: seq<int> :| IsPath(links, plane, path, base, base + i);
        PathVisited(links, plane, n, at, base, path, base, base + i);
      }
    }
    if AllSlots(n, at) {
      forall v | InPlane(v, plane, n) ensures Reachable(links, plane, base, v) {
        HolderInPlane(links, plane, n, at, base, v);
      }
    }
  }

  lemma PlaneSlot(plane: int, n: nat, base: int, u: int)
    requires base == plane * n && base <= u < base + n
    ensures Slot(u, n) == u - base
  {
    DivModUnique(u, n, plane, u - base);
  }

  lemma PathInPlane(links: seq<Link>, plane: int, n: nat, path: seq<int>, u: int, v: int)
    requires WithinPlanes(links, n) && InPlane(u, plane, n) && IsPath(links, plane, path, u, v)
    ensures InPlane(v, plane, n)
  {
    var last := |path| - 1;
    if last > 0 {
      assert Joined(links, plane, path[last - 1], path[last]);
    }
  }

  // The holder of a router's slot is that router.
  lemma HolderInPlane(links: seq<Link>, plane: int, n: nat, at: Holders, base: int, v: int)
    requires Inside(links, plane, n, at) && base == plane * n && Searched(links, plane, n, at, base)
    requires InPlane(v, plane, n) && Slot(v, n) in at
    ensures at[Slot(v, n)] == v
  {
    PlaneSlot(plane, n, base, v);
    PlaneSlot(plane, n, base, at[Slot(v, n)]);
  }

  // Everything on a path from the first router is visited.
  lemma {:induction false} PathVisited(links: seq<Link>, plane: int, n: nat, at: Holders, base: int, path: seq<int>, u: int, v: int)
    requires Inside(links, plane, n, at) && base == plane * n && Searched(links, plane, n, at, base)
    requires InPlane(u, plane, n) && Slot(u, n) in at && IsPath(links, plane, path, u, v)
    ensures Slot(v, n) in at
    decreases |path|
  {
    if |path| > 1 {
      var rest := path[1..];
      assert Joined(links, plane, path[0], path[1]);
      HolderInPlane(links, plane, n, at, base, u);
      forall i | 0 <= i < |rest| - 1 ensures Joined(links, plane, rest[i], rest[i + 1]) {
        assert Joined(links, plane, path[i + 1], path[i + 2]);
      }
      assert InPlane(path[1], plane, n);
      PathVisited(links, plane, n, at, base, rest, path[1], v);
    }
  }

  // Reaching another router takes a link at either end.
  lemma ReachNeedsLink(links: seq<Link>, plane: int, u: int, v: int)
    requires u != v && Reachable(links, plane, u, v)
    ensures exists w :: Joined(links, plane, u, w)
    ensures exists w :: Joined(links, plane, w, v)
  {
    var path: seq<int> :| IsPath(links, plane, path, u, v);
    assert Joined(links, plane, path[0], path[1]);
    assert Joined(links, plane, path[|path| - 2], path[|path| - 2 + 1]);
  }

  // A first router without a link reaches no other.
  lemma LonelyFirst(links: seq<Link>, plane: int, n: nat)
    requires n >= 2 && !exists v :: Joined(links, plane, plane * n, v)
    ensures InPlane(plane * n + 1, plane, n) && !Reachable(links, plane, plane * n, plane * n + 1)
  {
    var base := plane * n;
    if Reachable(links, plane, base, base + 1) {
      ReachNeedsLink(links, plane, base, base + 1);
    }
  }

  // One link of plane 0 from its first router to a router outside: the plane of two
  // routers passes, and the second one cannot be reached.
  lemma OutsideStandsIn(at: Holders)
    ensures var links := [Link(0, 3, 0, Intra, false, false)];
            && Joined(links, 0, 0, 3) && !Reachable(links, 0, 0, 1)
            && (Searched(links, 0, 2, at, 0) ==> AllSlots(2, at))
  {
    var links := [Link(0, 3, 0, Intra, false, false)];
    assert Joins(links[0], 0, 0, 3);
    assert Slot(3, 2) == 1 && Slot(0, 2) == 0;
    if Reachable(links, 0, 0, 1) {
      ReachNeedsLink(links, 0, 0, 1);
    }
  }

  // is_connected, for any links: true exactly when the first router of the plane has a
  // link and the search comes to every slot. If it meets routers of the plane only, or if
  // no link leaves the planes at all, that is when every router of the plane can be
  // reached from the first one.
  method IsConnected(ghost links: seq<Link>, adj: Adjacency, plane: int, n: nat) returns (r: bool, ghost at: Holders)
    requires Describes(adj, links)
    ensures n == 0 ==> !r
    ensures (exists v :: Joined(links, plane, plane * n, v)) && n > 0 ==>
              Searched(links, plane, n, at, plane * n) && (r <==> AllSlots(n, at))
    ensures !(exists v :: Joined(links, plane, plane * n, v)) ==> !r
    ensures n >= 2 && (WithinPlanes(links, n) || Inside(links, plane, n, at)) ==> (r <==> Connected(links, plane, n))
    ensures n == 1 ==> (r <==> exists v :: Joined(links, plane, plane, v))
  {
    at := map[];
    if n == 0 {
      return false, at;
    }
    var visited := new bool[n](_ => false);
    assert Marks(visited[..], n, at);
    var ok;
    ok, at := Dfs(links, adj, plane * n, visited, plane, n, map[]);
    r := ok && forall i :: 0 <= i < visited.Length ==> visited[i];
    HasLink(links, adj, plane, plane * n);
    if n >= 2 && (WithinPlanes(links, n) || Inside(links, plane, n, at)) {
      if ok {
        if WithinPlanes(links, n) {
          WithinIsInside(links, plane, n, at);
        }
        ConnectedExact(links, plane, n, at);
      } else {
        LonelyFirst(links, plane, n);
      }
    }
  }

  lemma HasLink(links: seq<Link>, adj: Adjacency, plane: int, u: int)
    requires Describes(adj, links)
    ensures Neighbours(adj, plane, u) != [] <==> exists v :: Joined(links, plane, u, v)
  {
    if Neighbours(adj, plane, u) != [] {
      var v := Neighbours(adj, plane, u)[0];
      assert v in Neighbours(adj, plane, u);
      assert Joined(links, plane, u, v);
    }
    if v :| Joined(links, plane, u, v) {
      assert v in Neighbours(adj, plane, u);
    }
  }

  class Network {
    var links: seq<Link>
    var linkMap: map<Key, seq<nat>>
    var adj: Adjacency
    // how often add_link was called for each key
    ghost var calls: map<Key, nat>

    ghost predicate Valid()
      reads this
    {
      Loaded(links, linkMap, calls)
    }

    constructor ()
      ensures Valid() && links == [] && adj == map[] && calls == map[]
    {
      links, linkMap, adj, calls := [], map[], map[], map[];
    }

    // The loop of add_link: the first link of the key without its other direction.
    method FindUnpaired(k: Key) returns (j: nat)
      requires Valid() && k in linkMap
      ensures j == if calls[k] % 2 == 1 then |linkMap[k]| - 1 else |linkMap[k]|
    {
      assert Paired(linkMap[k], links, k, calls[k]);
      j := 0;
      while j < |linkMap[k]| && links[linkMap[k][j]].paired
        invariant 0 <= j <= |linkMap[k]| && forall i :: 0 <= i < j ==> links[linkMap[k][i]].paired
      {
        j := j + 1;
      }
      assert links[linkMap[k][|linkMap[k]| - 1]].paired <==> calls[k] % 2 == 0;
    }

    // add_link: a key called an even number of times before gets a new link, any other
    // gets the other direction of its last one.
    method AddLink(src: int, dst: int, rail: int, kind: Kind)
      requires Valid()
      modifies this`links, this`linkMap, this`calls
      ensures Valid() && calls == old(calls)[KeyOf(src, dst, kind) := Calls(old(calls), KeyOf(src, dst, kind)) + 1]
      ensures Calls(old(calls), KeyOf(src, dst, kind)) % 2 == 0 ==> links == old(links) + [Link(src, dst, rail, kind, false, false)]
      ensures Calls(old(calls), KeyOf(src, dst, kind)) % 2 == 1 ==> MarkedPaired(old(links), links, KeyOf(src, dst, kind))
    {
      var k, l := KeyOf(src, dst, kind), Link(src, dst, rail, kind, false, false);
      if k !in linkMap {
        Append(k, [], l);
      } else {
        var j := FindUnpaired(k);
        if j < |linkMap[k]| {
          Pair(k, j);
        } else {
          Append(k, linkMap[k], l);
        }
      }
    }

    method Pair(k: Key, j: nat)
      requires Valid() && k in linkMap && calls[k] % 2 == 1 && j == |linkMap[k]| - 1
      modifies this`links, this`calls
      ensures Valid() && calls == old(calls)[k := old(calls)[k] + 1] && MarkedPaired(old(links), links, k)
    {
      PairLink(links, linkMap, calls, k);
      var i := linkMap[k][j];
      links := links[i := links[i].(paired := true)];
      calls := calls[k := calls[k] + 1];
    }

    method Append(k: Key, group: seq<nat>, l: Link)
      requires Valid() && group == GroupOf(linkMap, k) && Calls(calls, k) % 2 == 0 && !l.paired && KeyOf(l.src, l.dst, l.kind) == k
      modifies this`links, this`linkMap, this`calls
      ensures Valid() && calls == old(calls)[k := Calls(old(calls), k) + 1] && links == old(links) + [l]
    {
      NewLink(links, linkMap, calls, k, l);
      linkMap := linkMap[k := group + [|links|]];
      links := links + [l];
      calls := calls[k := Calls(calls, k) + 1];
    }

    // calc_adjacency_map, which adds to what is there.
    method CalcAdjacency()
      modifies this`adj
      ensures Extended(old(adj), adj, links)
      ensures old(adj) == map[] ==> Describes(adj, links)
    {
      var i := 0;
      assert forall p, u, v :: !Joined(links[..0], p, u, v);
      while i < |links|
        invariant 0 <= i <= |links| && Extended(old(adj), adj, links[..i])
      {
        ExtendedMore(old(adj), adj, links, i);
        adj := AttachOne(adj, links[i]);
        i := i + 1;
      }
      assert links[..i] == links;
    }
  }
}
