/** Failing terminal links in scripts/dragonfly-dally/dragonfly-dally-link-fail-gen.py so
    that every terminal keeps a link. */
module TerminalFailures {
  // The set of a router and a terminal, by the smaller number first.
  function KeyOf(router: int, terminal: int): (int, int) {
    if router <= terminal then (router, terminal) else (terminal, router)
  }

  // For each key, which of its links have failed.
  type Links = map<(int, int), seq<bool>>

  // The links among the first n that have not failed.
  function Good(flags: seq<bool>, n: nat): set<int>
    requires n <= |flags|
  {
    set i | 0 <= i < n && !flags[i]
  }

  function Intact(flags: seq<bool>): nat {
    |Good(flags, |flags|)|
  }

  lemma GoodMore(flags: seq<bool>, n: nat)
    requires n < |flags|
    ensures |Good(flags, n + 1)| == |Good(flags, n)| + if flags[n] then 0 else 1
  {
    assert Good(flags, n + 1) == Good(flags, n) + if flags[n] then {} else {n};
  }

  // The rolls among the first n that fail a link.
  function Above(roll: int -> real, percent: real, n: nat): set<int> {
    set i | 0 <= i < n && roll(i) > percent
  }

  function Fails(roll: int -> real, percent: real, n: nat): nat {
    |Above(roll, percent, n)|
  }

  lemma FailsMore(roll: int -> real, percent: real, n: nat)
    ensures Fails(roll, percent, 0) == 0
    ensures Fails(roll, percent, n + 1) == Fails(roll, percent, n) + if roll(n) > percent then 1 else 0
  {
    assert Above(roll, percent, 0) == {};
    assert Above(roll, percent, n + 1) == Above(roll, percent, n) + if roll(n) > percent then {n} else {};
  }

  lemma {:induction false} FailsGrow(roll: int -> real, percent: real, m: nat, n: nat)
    requires m <= n
    ensures Fails(roll, percent, m) <= Fails(roll, percent, n) <= Fails(roll, percent, m) + n - m
  {
    if m < n {
      FailsGrow(roll, percent, m, n - 1);
      FailsMore(roll, percent, n - 1);
    }
  }

  // So many of the good links have failed, the first ones first.
  ghost predicate FirstFailed(before: seq<bool>, after: seq<bool>, fails: nat) {
    |after| == |before| && forall j :: 0 <= j < |before| ==> (after[j] <==> before[j] || |Good(before, j)| < fails)
  }

  // The innermost loop: the first link that has not failed fails.
  method FailFirst(flags: seq<bool>) returns (after: seq<bool>, failed: nat)
    ensures FirstFailed(flags, after, 1)
    ensures failed == Intact(flags) - Intact(after)
  {
    var i := 0;
    while i < |flags| && flags[i]
      invariant 0 <= i <= |flags| && forall k :: 0 <= k < i ==> flags[k]
    {
      i := i + 1;
    }
    after, failed := flags, 0;
    if i < |flags| {
      after, failed := flags[i := true], 1;
      assert Good(after, |after|) == Good(flags, |flags|) - {i};
    }
    forall j | 0 <= j < |flags| ensures after[j] <==> flags[j] || |Good(flags, j)| < 1 {
      if i < j {
        assert i in Good(flags, j);
      } else {
        assert Good(flags, j) == {};
      }
    }
  }

  function IntactAt(links: Links, key: (int, int)): nat {
    if key in links then Intact(links[key]) else 0
  }

  // Once more after so many times.
  lemma FailedMore(before: seq<bool>, mid: seq<bool>, after: seq<bool>, fails: nat)
    requires FirstFailed(before, mid, fails) && FirstFailed(mid, after, 1)
    ensures FirstFailed(before, after, fails + 1)
  {
    forall j | 0 <= j < |before| ensures after[j] <==> before[j] || |Good(before, j)| < fails + 1 {
      GoodLeft(before, mid, fails, j);
    }
  }

  // The links of one key have, and no others.
  ghost predicate LostAt(before: Links, after: Links, key: (int, int), fails: nat) {
    && before.Keys == after.Keys && (forall k :: k in before && k != key ==> after[k] == before[k])
    && (key in before ==> FirstFailed(before[key], after[key], fails))
  }

  lemma LostOnce(before: Links, mid: Links, after: Links, key: (int, int), fails: nat)
    requires key in before && LostAt(before, mid, key, fails) && LostAt(mid, after, key, 1)
    ensures LostAt(before, after, key, fails + 1)
  {
    FailedMore(before[key], mid[key], after[key], fails);
  }

  function Left(intact: nat, fails: nat): nat {
    if intact >= fails then intact - fails else 0
  }

  lemma {:induction false} GoodLeft(before: seq<bool>, after: seq<bool>, fails: nat, n: nat)
    requires FirstFailed(before, after, fails) && n <= |before|
    ensures |Good(after, n)| == Left(|Good(before, n)|, fails)
  {
    if n > 0 {
      GoodLeft(before, after, fails, n - 1);
      GoodMore(before, n - 1);
      GoodMore(after, n - 1);
    } else {
      assert Good(before, 0) == {} && Good(after, 0) == {};
    }
  }

  // The number of a terminal at its router.
  function Slot(hosts: nat, key: (int, int)): int {
    key.1 - hosts * key.0
  }

  // All terminals of the routers below r, and the first n of router r.
  predicate Visited(hosts: nat, r: int, n: int, key: (int, int)) {
    0 <= Slot(hosts, key) && 0 <= key.0 && ((key.0 < r && Slot(hosts, key) < hosts) || (key.0 == r && Slot(hosts, key) < n))
  }

  // One roll for each rail but the last.
  function Tries(rails: nat): nat {
    if rails == 0 then 0 else rails - 1
  }

  function RollsOf(roll: (int, int, int) -> real, r: int, n: int): int -> real {
    i => roll(r, n, i)
  }

  // A visited key has lost one link for each roll above the percentage; others are as before.
  ghost predicate Lost(before: Links, after: Links, hosts: nat, r: int, n: int, tries: nat, percent: real, roll: (int, int, int) -> real) {
    && before.Keys == after.Keys
    && forall k :: k in before ==>
         if Visited(hosts, r, n, k) then FirstFailed(before[k], after[k], Fails(RollsOf(roll, k.0, Slot(hosts, k)), percent, tries))
         else after[k] == before[k]
  }

  function Terminal(hosts: nat, r: nat, n: nat): (int, int) {
    KeyOf(r, hosts * r + n)
  }

  lemma KeyAt(hosts: nat, r: nat, n: nat)
    requires n < hosts
    ensures Terminal(hosts, r, n) == (r, hosts * r + n) && Slot(hosts, Terminal(hosts, r, n)) == n
  {
    assert hosts * r >= r;
  }

  // No roll asks for a key that is missing.
  predicate Harmless(links: Links, hosts: nat, tries: nat, percent: real, roll: (int, int, int) -> real, r: nat, n: nat) {
    Terminal(hosts, r, n) in links || Fails(RollsOf(roll, r, n), percent, tries) == 0
  }

  // Of all terminals of the routers below r, and of the first n of router r.
  ghost predicate AllHarmless(links: Links, hosts: nat, tries: nat, percent: real, roll: (int, int, int) -> real, r: nat, n: nat) {
    forall x: nat, y: nat :: (x < r && y < hosts) || (x == r && y < n) ==> Harmless(links, hosts, tries, percent, roll, x, y)
  }

  class TermNetwork {
    var links: Links
    var numFailed: int

    constructor (links: Links)
      ensures this.links == links && numFailed == 0
    {
      this.links, numFailed := links, 0;
    }

    // The loop over the links of one terminal.
    method FailOne(key: (int, int))
      requires key in links
      modifies this
      ensures LostAt(old(links), links, key, 1)
      ensures numFailed == old(numFailed) + IntactAt(old(links), key) - IntactAt(links, key)
    {
      var after, failed := FailFirst(links[key]);
      links := links[key := after];
      numFailed := numFailed + failed;
    }

    // The loop over the rails of one terminal.  A key that is missing raises an error.
    method FailRails(key: (int, int), rails: nat, percent: real, roll: int -> real) returns (ok: bool)
      modifies this
      ensures ok <==> key in old(links) || Fails(roll, percent, Tries(rails)) == 0
      ensures LostAt(old(links), links, key, Fails(roll, percent, Tries(rails)))
      ensures numFailed == old(numFailed) + IntactAt(old(links), key) - IntactAt(links, key)
    {
      var i := 0;
      ghost var fails := 0;
      FailsMore(roll, percent, 0);
      while i < rails - 1
        invariant 0 <= i <= Tries(rails) && fails == Fails(roll, percent, i) && (key in old(links) || fails == 0)
        invariant LostAt(old(links), links, key, fails)
        invariant numFailed == old(numFailed) + IntactAt(old(links), key) - IntactAt(links, key)
      {
        FailsMore(roll, percent, i);
        if roll(i) > percent {
          if key !in links {
            FailsGrow(roll, percent, i + 1, Tries(rails));
            return false;
          }
          ghost var mid := links;
          FailOne(key);
          LostOnce(old(links), mid, links, key, fails);
          fails := fails + 1;
        }
        i := i + 1;
      }
      ok := true;
    }

    // fail_term_links_safe
    method FailTermLinksSafe(planes: int, routers: nat, hosts: nat, rails: nat, percent: real, roll: (int, int, int) -> real) returns (ok: bool)
      modifies this
      ensures planes != 1 ==> ok && links == old(links) && numFailed == old(numFailed)
      ensures ok <==> planes != 1 || AllHarmless(old(links), hosts, Tries(rails), percent, roll, routers, 0)
      ensures planes == 1 && ok ==> Lost(old(links), links, hosts, routers, 0, Tries(rails), percent, roll)
      ensures planes == 1 && ok ==> numFailed == old(numFailed) + IntactTo(old(links), hosts, routers, 0) - IntactTo(links, hosts, routers, 0)
      ensures (forall r, n, i :: 0 <= i < rails - 1 ==> roll(r, n, i) <= percent) ==> ok && links == old(links)
    {
      ok := true;
      if planes != 1 {
        return;
      }
      ghost var quiet := forall r, n, i :: 0 <= i < rails - 1 ==> roll(r, n, i) <= percent;
      if quiet {
        NoneAbove(old(links), links, hosts, routers, rails, percent, roll);
      }
      for r := 0 to routers
        invariant ok && Lost(old(links), links, hosts, r, 0, Tries(rails), percent, roll)
        invariant AllHarmless(old(links), hosts, Tries(rails), percent, roll, r, 0)
        invariant numFailed == old(numFailed) + IntactTo(old(links), hosts, r, 0) - IntactTo(links, hosts, r, 0)
      {
        for n := 0 to hosts
          invariant ok && Lost(old(links), links, hosts, r, n, Tries(rails), percent, roll)
          invariant AllHarmless(old(links), hosts, Tries(rails), percent, roll, r, n)
          invariant numFailed == old(numFailed) + IntactTo(old(links), hosts, r, n) - IntactTo(links, hosts, r, n)
        {
          KeyAt(hosts, r, n);
          ghost var mid := links;
          ok := FailRails(Terminal(hosts, r, n), rails, percent, RollsOf(roll, r, n));
          if !ok {
            assert !Harmless(old(links), hosts, Tries(rails), percent, roll, r, n);
            return;
          }
          LostMore(old(links), mid, links, hosts, r, n, Tries(rails), percent, roll);
          IntactMore(old(links), mid, links, hosts, r, n, Fails(RollsOf(roll, r, n), percent, Tries(rails)));
        }
        LostRouter(old(links), links, hosts, r, Tries(rails), percent, roll);
      }
      if quiet {
        NoneAbove(old(links), links, hosts, routers, rails, percent, roll);
      }
    }
  }

  // The good links of all terminals of the routers below r, and of the first n of router r.
  function IntactTo(links: Links, hosts: nat, r: nat, n: nat): int
    decreases r, n
  {
    if n > 0 then IntactTo(links, hosts, r, n - 1) + IntactAt(links, Terminal(hosts, r, n - 1))
    else if r > 0 then IntactTo(links, hosts, r - 1, hosts)
    else 0
  }

  // A terminal further on does not matter to them.
  lemma {:induction false} IntactBefore(mid: Links, after: Links, hosts: nat, r: nat, n: nat, x: nat, y: nat)
    requires mid.Keys == after.Keys && forall k :: k in mid && k != (x, hosts * x + y) ==> after[k] == mid[k]
    requires y < hosts && n <= hosts && (r < x || (r == x && n <= y))
    ensures IntactTo(after, hosts, r, n) == IntactTo(mid, hosts, r, n)
    decreases r, n
  {
    if n > 0 {
      IntactBefore(mid, after, hosts, r, n - 1, x, y);
      KeyAt(hosts, r, n - 1);
    } else if r > 0 {
      IntactBefore(mid, after, hosts, r - 1, hosts, x, y);
    }
  }

  lemma IntactMore(before: Links, mid: Links, after: Links, hosts: nat, r: nat, n: nat, fails: nat)
    requires n < hosts && LostAt(mid, after, Terminal(hosts, r, n), fails)
    requires IntactAt(before, Terminal(hosts, r, n)) == IntactAt(mid, Terminal(hosts, r, n))
    ensures IntactTo(before, hosts, r, n + 1) - IntactTo(after, hosts, r, n + 1)
         == IntactTo(before, hosts, r, n) - IntactTo(mid, hosts, r, n) + IntactAt(mid, Terminal(hosts, r, n)) - IntactAt(after, Terminal(hosts, r, n))
  {
    KeyAt(hosts, r, n);
    IntactBefore(mid, after, hosts, r, n, r, n);
  }

  // One more terminal, and one more router.
  lemma LostMore(before: Links, mid: Links, after: Links, hosts: nat, r: nat, n: nat, tries: nat, percent: real, roll: (int, int, int) -> real)
    requires n < hosts && Lost(before, mid, hosts, r, n, tries, percent, roll)
    requires LostAt(mid, after, Terminal(hosts, r, n), Fails(RollsOf(roll, r, n), percent, tries))
    ensures Lost(before, after, hosts, r, n + 1, tries, percent, roll)
  {
    KeyAt(hosts, r, n);
  }

  lemma LostRouter(before: Links, after: Links, hosts: nat, r: nat, tries: nat, percent: real, roll: (int, int, int) -> real)
    requires Lost(before, after, hosts, r, hosts, tries, percent, roll)
    ensures Lost(before, after, hosts, r + 1, 0, tries, percent, roll)
  {
  }

  // What the call does to terminal n of router r, spelled out: as many of its good links
  // fail as rolls are above the percentage, or all if there are fewer, and the first ones.
  lemma LostExact(before: Links, after: Links, hosts: nat, routers: nat, rails: nat, percent: real, roll: (int, int, int) -> real, r: nat, n: nat)
    requires Lost(before, after, hosts, routers, 0, Tries(rails), percent, roll)
    requires r < routers && n < hosts && (r, hosts * r + n) in before
    ensures (r, hosts * r + n) in after
    ensures var was, now, fails := before[(r, hosts * r + n)], after[(r, hosts * r + n)], |set i | 0 <= i < rails - 1 && roll(r, n, i) > percent|;
            && |now| == |was|
            && (forall j :: 0 <= j < |was| ==> (now[j] <==> was[j] || |set i | 0 <= i < j && !was[i]| < fails))
            && var good := |set j | 0 <= j < |was| && !was[j]|;
               |set j | 0 <= j < |now| && !now[j]| == good - if good < fails then good else fails
  {
    KeyAt(hosts, r, n);
    var was, now := before[(r, hosts * r + n)], after[(r, hosts * r + n)];
    var fails := |set i | 0 <= i < rails - 1 && roll(r, n, i) > percent|;
    assert Above(RollsOf(roll, r, n), percent, Tries(rails)) == set i | 0 <= i < rails - 1 && roll(r, n, i) > percent;
    assert Visited(hosts, routers, 0, (r, hosts * r + n));
    GoodLeft(was, now, fails, |was|);
    forall j | 0 <= j < |was| ensures now[j] <==> was[j] || |set i | 0 <= i < j && !was[i]| < fails {
      assert Good(was, j) == set i | 0 <= i < j && !was[i];
    }
  }

  // A call in which no roll is above the percentage needs no key and changes nothing, and
  // one that needs a key that is missing has such a roll.
  lemma NoneAbove(before: Links, after: Links, hosts: nat, routers: nat, rails: nat, percent: real, roll: (int, int, int) -> real)
    requires forall r, n, i :: 0 <= i < rails - 1 ==> roll(r, n, i) <= percent
    ensures AllHarmless(before, hosts, Tries(rails), percent, roll, routers, 0)
    ensures Lost(before, after, hosts, routers, 0, Tries(rails), percent, roll) ==> after == before
  {
    forall r: int, n: int ensures Fails(RollsOf(roll, r, n), percent, Tries(rails)) == 0 {
      assert forall i :: 0 <= i < Tries(rails) ==> RollsOf(roll, r, n)(i) == roll(r, n, i);
    }
    if Lost(before, after, hosts, routers, 0, Tries(rails), percent, roll) {
      forall k | k in before ensures after[k] == before[k] {
        assert Fails(RollsOf(roll, k.0, Slot(hosts, k)), percent, Tries(rails)) == 0;
      }
    }
  }

  lemma HarmlessExact(links: Links, hosts: nat, rails: nat, percent: real, roll: (int, int, int) -> real, r: nat, n: nat)
    requires n < hosts
    ensures Harmless(links, hosts, Tries(rails), percent, roll, r, n)
       <==> ((r, hosts * r + n) in links || forall i :: 0 <= i < rails - 1 ==> roll(r, n, i) <= percent)
  {
    KeyAt(hosts, r, n);
    var above := Above(RollsOf(roll, r, n), percent, Tries(rails));
    assert forall i :: 0 <= i < Tries(rails) ==> RollsOf(roll, r, n)(i) == roll(r, n, i);
    forall i | 0 <= i < rails - 1 ensures i in above <==> roll(r, n, i) > percent {
      assert RollsOf(roll, r, n)(i) == roll(r, n, i);
    }
  }

  // Whatever the rolls, a terminal with as many good links as rails keeps one.
  lemma OneIsLeft(rails: nat, before: seq<bool>, after: seq<bool>, percent: real, roll: int -> real)
    requires rails > 0 && Intact(before) >= rails
    requires FirstFailed(before, after, Fails(roll, percent, Tries(rails)))
    ensures exists i :: 0 <= i < |after| && !after[i]
  {
    FailsMore(roll, percent, 0);
    FailsGrow(roll, percent, 0, Tries(rails));
    GoodLeft(before, after, Fails(roll, percent, Tries(rails)), |before|);
    var i :| i in Good(after, |after|);
  }
}
