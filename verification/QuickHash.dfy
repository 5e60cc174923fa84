/** The chained hash table of codes/quickhash.h on top of the ring lists.

    The table is specified by the sequence of its live links in the order they
    were added; a bucket's chain is the part of that sequence that hashes to it. */
module QuickHash {
  import opened QuickList
  import opened Seqs

  // The elements of s that satisfy p, in order.
  ghost function Filter<T>(s: seq<T>, p: T -> bool): seq<T> {
    if s == [] then [] else
      Filter(s[..|s| - 1], p) + (if p(s[|s| - 1]) then [s[|s| - 1]] else [])
  }

  lemma {:induction false} FilterMembers<T>(s: seq<T>, p: T -> bool)
    ensures forall j :: 0 <= j < |Filter(s, p)| ==> Filter(s, p)[j] in s && p(Filter(s, p)[j])
    ensures forall j :: 0 <= j < |s| && p(s[j]) ==> s[j] in Filter(s, p)
  {
    if s != [] {
      FilterMembers(s[..|s| - 1], p);
      assert s == s[..|s| - 1] + [s[|s| - 1]];
    }
  }

  lemma {:induction false} FilterNone<T>(s: seq<T>, p: T -> bool)
    requires forall j :: 0 <= j < |s| ==> !p(s[j])
    ensures Filter(s, p) == []
  {
    if s != [] {
      FilterNone(s[..|s| - 1], p);
    }
  }

  lemma {:induction false} FilterDistinct<T>(s: seq<T>, p: T -> bool)
    requires Distinct(s)
    ensures Distinct(Filter(s, p))
  {
    if s != [] {
      FilterDistinct(s[..|s| - 1], p);
      FilterMembers(s[..|s| - 1], p);
    }
  }

  // Taking out an element takes it out of the filtered sequence, at the place
  // that counts the selected elements before it.
  lemma {:induction false} FilterWithout<T>(s: seq<T>, p: T -> bool, k: nat)
    requires k < |s|
    ensures !p(s[k]) ==> Filter(Without(s, k), p) == Filter(s, p)
    ensures p(s[k]) ==>
              var i := |Filter(s[..k], p)|;
              && i < |Filter(s, p)| && Filter(s, p)[i] == s[k]
              && Filter(Without(s, k), p) == Without(Filter(s, p), i)
  {
    var n := |s| - 1;
    if k == n {
      assert Without(s, k) == s[..n];
    } else {
      FilterWithout(s[..n], p, k);
      assert s[..n][..k] == s[..k];
      assert Without(s, k)[..n - 1] == Without(s[..n], k);
      if p(s[k]) {
        WithoutSnoc(Filter(s[..n], p), |Filter(s[..k], p)|, if p(s[n]) then [s[n]] else []);
      }
    }
  }

  lemma WithoutSnoc<T>(s: seq<T>, i: nat, more: seq<T>)
    requires i < |s|
    ensures (s + more)[i] == s[i] && Without(s + more, i) == Without(s, i) + more
  {
  }

  lemma {:induction false} FilterPrefix<T>(s: seq<T>, p: T -> bool, k: nat)
    requires k <= |s|
    ensures |Filter(s[..k], p)| <= |Filter(s, p)|
    ensures Filter(s, p)[..|Filter(s[..k], p)|] == Filter(s[..k], p)
  {
    if k < |s| {
      FilterPrefix(s[..|s| - 1], p, k);
      assert s[..|s| - 1][..k] == s[..k];
    } else {
      assert s[..k] == s;
    }
  }

  // What a client did: the additions and the removals, in order.
  datatype Op<K> = Added(link: Link) | Removed(key: K) | RemovedAt(index: nat)

  class HashTable<K(==, !new)> {
    const buckets: seq<Link>
    const tableSize: nat
    const compare: (K, Link) -> bool
    const hash: (K, int) -> int
    ghost const keyOf: Link -> K
    // the live links, oldest first
    ghost var contents: seq<Link>

    // The client's callbacks: compare decides equality with a link's key.
    ghost predicate Compares(link: Link) {
      forall k :: compare(k, link) <==> k == keyOf(link)
    }

    ghost predicate HashInRange() {
      forall k :: 0 <= hash(k, tableSize) < tableSize
    }

    ghost function InSlot(i: int): Link -> bool {
      (link: Link) => hash(keyOf(link), tableSize) == i
    }

    // The part of s in bucket i.
    ghost function InBucket(s: seq<Link>, i: int): (r: seq<Link>)
      ensures forall j :: 0 <= j < |r| ==> r[j] in s && InSlot(i)(r[j])
      ensures forall j :: 0 <= j < |s| && InSlot(i)(s[j]) ==> s[j] in r
    {
      FilterMembers(s, InSlot(i));
      Filter(s, InSlot(i))
    }

    // The ring of bucket i when the live links are s.
    ghost function Ring(s: seq<Link>, i: nat): (r: seq<Link>)
      requires i < |buckets|
      ensures |r| > 0 && r[0] == buckets[i] && r[1..] == InBucket(s, i)
      ensures forall j :: 0 <= j < |r| ==> r[j] in buckets || r[j] in s
    {
      [buckets[i]] + InBucket(s, i)
    }

    lemma RingsApart(s: seq<Link>, i: nat, j: nat)
      requires i < |buckets| && j < |buckets| && i != j
      requires Distinct(buckets) && Apart(buckets, s)
      ensures Apart(Ring(s, i), Ring(s, j))
    {
    }

    // What does not depend on the pointers.
    ghost predicate Settled(s: seq<Link>) {
      && |buckets| == tableSize && HashInRange()
      && Distinct(buckets) && Distinct(s) && Apart(buckets, s)
      && (forall link :: link in s ==> Compares(link))
    }

    ghost predicate AllRings(s: seq<Link>)
      reads buckets, s
    {
      forall i :: 0 <= i < |buckets| ==> IsRing(Ring(s, i))
    }

    ghost predicate Valid()
      reads this, buckets, contents
    {
      Settled(contents) && AllRings(contents)
    }

    // qhash_init: the heads are fresh and every chain is empty.
    constructor (compare: (K, Link) -> bool, hash: (K, int) -> int, tableSize: nat, ghost keyOf: Link -> K)
      requires forall k :: 0 <= hash(k, tableSize) < tableSize
      ensures Valid() && contents == [] && fresh(buckets)
      ensures this.tableSize == tableSize && this.compare == compare && this.hash == hash && this.keyOf == keyOf
    {
      var heads: seq<Link> := [];
      for i := 0 to tableSize
        invariant |heads| == i && fresh(heads) && Distinct(heads)
        invariant forall j :: 0 <= j < i ==> IsRing([heads[j]])
      {
        var head := new Link();
        heads := heads + [head];
      }
      this.buckets, this.tableSize, this.compare, this.hash, this.keyOf := heads, tableSize, compare, hash, keyOf;
      contents := [];
      new;
      assert forall i :: 0 <= i < tableSize ==> Ring([], i) == [heads[i]];
    }

    // Position k of s holds the earliest link with the key.
    ghost predicate IsFirst(s: seq<Link>, key: K, k: nat) {
      k < |s| && keyOf(s[k]) == key && forall j :: 0 <= j < k ==> keyOf(s[j]) != key
    }

    // The position of the earliest link with the key, |s| when there is none.
    ghost function FirstIndex(s: seq<Link>, key: K): (k: nat)
      ensures k <= |s|
      ensures k < |s| ==> IsFirst(s, key, k)
      ensures k == |s| ==> forall j :: 0 <= j < |s| ==> keyOf(s[j]) != key
    {
      if s == [] then 0 else
        var k := FirstIndex(s[..|s| - 1], key);
        if k < |s| - 1 || keyOf(s[|s| - 1]) == key then k else |s|
    }

    // The position of the earliest link of a bucket, |s| when it is empty.
    ghost function FirstInSlot(s: seq<Link>, index: int): (k: nat)
      ensures k <= |s|
      ensures k < |s| ==> InSlot(index)(s[k])
      ensures forall j :: 0 <= j < k ==> !InSlot(index)(s[j])
    {
      if s == [] then 0 else
        var k := FirstInSlot(s[..|s| - 1], index);
        if k < |s| - 1 || InSlot(index)(s[|s| - 1]) then k else |s|
    }

    ghost function Apply(s: seq<Link>, op: Op<K>): seq<Link> {
      match op
      case Added(link) => s + [link]
      case Removed(key) => var k := FirstIndex(s, key); if k < |s| then Without(s, k) else s
      case RemovedAt(index) => var k := FirstInSlot(s, index); if k < |s| then Without(s, k) else s
    }

    // The earliest link with a key is also the first one with it in its bucket.
    lemma FirstInBucket(s: seq<Link>, key: K, k: nat)
      requires IsFirst(s, key, k)
      ensures var b, i := hash(key, tableSize), |InBucket(s[..k], hash(key, tableSize))|;
              && IsFirst(InBucket(s, b), key, i) && InBucket(s, b)[i] == s[k]
              && InBucket(Without(s, k), b) == Without(InBucket(s, b), i)
    {
      var b := hash(key, tableSize);
      FilterWithout(s, InSlot(b), k);
      FilterPrefix(s, InSlot(b), k);
      var f, g := InBucket(s, b), InBucket(s[..k], b);
      assert f[..|g|] == g;
      forall j | 0 <= j < |g| ensures keyOf(f[j]) != key {
        assert f[j] == g[j] && g[j] in s[..k];
      }
    }

    lemma FirstUnique(s: seq<Link>, key: K, i: nat, j: nat)
      requires IsFirst(s, key, i) && IsFirst(s, key, j)
      ensures i == j
    {
    }

    // What an addition does: the link's bucket gets it at the end, the other rings
    // are the same and contain neither the head nor the last link of that bucket.
    lemma AfterAddition(s: seq<Link>, link: Link, b: nat)
      requires Distinct(buckets) && Distinct(s) && Apart(buckets, s) && b < |buckets| && InSlot(b)(link)
      requires link !in buckets && link !in s
      ensures Distinct(s + [link]) && Apart(buckets, s + [link])
      ensures Ring(s + [link], b) == Ring(s, b) + [link]
      ensures forall i {:trigger Ring(s, i)} :: 0 <= i < |buckets| && i != b ==>
                Ring(s + [link], i) == Ring(s, i) && Apart(Ring(s, i), Ring(s, b))
    {
      assert (s + [link])[..|s|] == s;
      forall i | 0 <= i < |buckets| && i != b ensures Apart(Ring(s, i), Ring(s, b)) {
        RingsApart(s, i, b);
      }
    }

    // qhash_add
    method Add(key: K, link: Link)
      requires Valid() && link !in contents && link !in buckets
      requires keyOf(link) == key && Compares(link)
      modifies this`contents, link, buckets, contents
      ensures Valid() && contents == Apply(old(contents), Added(link))
    {
      var index := hash(key, tableSize);
      ghost var was, ring := contents, Ring(contents, index);
      AfterAddition(was, link, index);
      assert buckets[index].prev == ring[|ring| - 1];
      AddTail(link, buckets[index], ring);
      contents := was + [link];
      forall i | 0 <= i < tableSize && i != index ensures IsRing(Ring(contents, i)) {
        RingKept(Ring(was, i));
      }
    }

    // The search loop of qhash_search and qhash_search_and_remove.
    method FindInBucket(key: K) returns (link: Link?, ghost c: nat)
      requires Valid()
      ensures link == null ==> FirstIndex(contents, key) == |contents|
      ensures link != null ==>
                var b := hash(key, tableSize);
                IsFirst(InBucket(contents, b), key, c) && link == InBucket(contents, b)[c]
    {
      var index := hash(key, tableSize);
      ghost var ring := Ring(contents, index);
      var head := buckets[index];
      link, c := head.next, 0;
      while link != head
        invariant 0 <= c < |ring| && link == Succ(ring, c)
        invariant forall j :: 0 < j <= c ==> keyOf(ring[j]) != key
        decreases |ring| - c
      {
        assert link == ring[c + 1] == InBucket(contents, index)[c];
        if compare(key, link) {
          return;
        }
        c, link := c + 1, link.next;
      }
      assert forall j :: 0 <= j < |ring| - 1 ==> InBucket(contents, index)[j] == ring[j + 1];
      NotInBucket(contents, key);
      link := null;
    }

    lemma NotInBucket(s: seq<Link>, key: K)
      requires forall j :: 0 <= j < |InBucket(s, hash(key, tableSize))| ==> keyOf(InBucket(s, hash(key, tableSize))[j]) != key
      ensures FirstIndex(s, key) == |s|
    {
      var k := FirstIndex(s, key);
      assert k < |s| ==> s[k] in InBucket(s, hash(key, tableSize));
    }

    // qhash_search: the earliest live link with the key; NULL iff there is none.
    method Search(key: K) returns (link: Link?)
      requires Valid()
      ensures var k := FirstIndex(contents, key); link == if k < |contents| then contents[k] else null
    {
      ghost var c;
      link, c := FindInBucket(key);
      if link != null {
        FirstPlace(contents, key, c);
      }
    }

    // The first match of the bucket is the earliest match of the table.
    lemma FirstPlace(s: seq<Link>, key: K, c: nat)
      requires 0 <= hash(key, tableSize) && IsFirst(InBucket(s, hash(key, tableSize)), key, c)
      ensures SamePlace(s, hash(key, tableSize), c, FirstIndex(s, key))
    {
      var f, k := InBucket(s, hash(key, tableSize)), FirstIndex(s, key);
      assert f[c] in s;
      FirstInBucket(s, key, k);
      FirstUnique(f, key, c, |InBucket(s[..k], hash(key, tableSize))|);
    }

    // Position c of bucket b is position k of s, also as a place to remove.
    ghost predicate SamePlace(s: seq<Link>, b: nat, c: nat, k: nat) {
      && k < |s| && c < |InBucket(s, b)| && s[k] == InBucket(s, b)[c]
      && InBucket(Without(s, k), b) == Without(InBucket(s, b), c)
    }

    // What is left when position k is removed: bucket b loses that link only.
    lemma AfterRemoval(s: seq<Link>, b: nat, c: nat, k: nat)
      requires Settled(s) && b < |buckets| && SamePlace(s, b, c, k)
      ensures Settled(Without(s, k))
      ensures forall j :: 0 <= j < |s| - 1 ==> Without(s, k)[j] in s
      ensures Ring(Without(s, k), b) == Without(Ring(s, b), c + 1)
    {
      WithoutMembers(s, k);
      RingWithout(buckets[b], InBucket(s, b), c);
    }

    // The other rings are the same and do not contain its neighbours.
    lemma OtherRing(s: seq<Link>, b: nat, c: nat, k: nat, i: nat)
      requires Distinct(buckets) && Distinct(s) && Apart(buckets, s) && b < |buckets| && SamePlace(s, b, c, k)
      requires i < |buckets| && i != b
      ensures Ring(Without(s, k), i) == Ring(s, i)
      ensures Ring(s, b)[c] !in Ring(s, i) && Succ(Ring(s, b), c + 1) !in Ring(s, i)
    {
      FilterWithout(s, InSlot(i), k);
      RingsApart(s, i, b);
    }

    lemma RingWithout(head: Link, chain: seq<Link>, c: nat)
      requires c < |chain|
      ensures [head] + Without(chain, c) == Without([head] + chain, c + 1)
    {
    }

    twostate lemma RingKept(r: seq<Link>)
      requires old(IsRing(r))
      requires forall j {:trigger r[j]} :: 0 <= j < |r| ==> r[j].next == old(r[j].next) && r[j].prev == old(r[j].prev)
      ensures IsRing(r)
    {
    }

    method Unlink(link: Link, ghost b: nat, ghost c: nat, ghost k: nat)
      requires Valid() && b < tableSize && SamePlace(contents, b, c, k) && link == contents[k]
      modifies this`contents, buckets, contents
      ensures Valid() && contents == Without(old(contents), k)
      ensures link.next == old(link.next) && link.prev == old(link.prev)
    {
      ghost var was, now := contents, Without(contents, k);
      AfterRemoval(was, b, c, k);
      Del(link, Ring(was, b), c + 1);
      assert AllRings(now) by {
        forall i | 0 <= i < |buckets| && i != b ensures IsRing(Ring(now, i)) {
          OtherRing(was, b, c, k, i);
          RingKept(Ring(was, i));
        }
      }
      contents := now;
    }

    // qhash_search_and_remove: exactly the link that a search returns is removed.
    method SearchAndRemove(key: K) returns (link: Link?)
      requires Valid()
      modifies this`contents, buckets, contents
      ensures Valid() && contents == Apply(old(contents), Removed(key))
      ensures var k := FirstIndex(old(contents), key); link == if k < |old(contents)| then old(contents)[k] else null
    {
      ghost var c;
      link, c := FindInBucket(key);
      if link != null {
        FirstPlace(contents, key, c);
        Unlink(link, hash(key, tableSize), c, FirstIndex(contents, key));
      }
    }

    // The first link of a bucket is the earliest one of the table that is in it.
    lemma BucketFront(s: seq<Link>, b: nat)
      ensures FirstInSlot(s, b) == |s| <==> InBucket(s, b) == []
      ensures FirstInSlot(s, b) < |s| ==> SamePlace(s, b, 0, FirstInSlot(s, b))
    {
      var k := FirstInSlot(s, b);
      if k < |s| {
        FilterWithout(s, InSlot(b), k);
        FilterNone(s[..k], InSlot(b));
      } else {
        FilterNone(s, InSlot(b));
      }
    }

    // qhash_search_at_index: the oldest live link of the bucket.
    method SearchAtIndex(index: nat) returns (link: Link?)
      requires Valid()
      ensures link == null <==> index >= tableSize || InBucket(contents, index) == []
      ensures link != null ==> link == InBucket(contents, index)[0]
    {
      link := null;
      if index < tableSize {
        ghost var ring := Ring(contents, index);
        if buckets[index].next != buckets[index] {
          link := buckets[index].next;
          assert link == ring[1];
        }
      }
    }

    // qhash_search_and_remove_at_index
    method RemoveAtIndex(index: nat) returns (link: Link?)
      requires Valid()
      modifies this`contents, buckets, contents
      ensures Valid() && contents == Apply(old(contents), RemovedAt(index))
      ensures var k := FirstInSlot(old(contents), index); link == if k < |old(contents)| then old(contents)[k] else null
    {
      link := SearchAtIndex(index);
      BucketFront(contents, index);
      if link != null {
        Unlink(link, index, 0, FirstInSlot(contents, index));
      }
    }

    // The links of s are split between the destroyed ones and the live ones.
    ghost predicate Split(s: seq<Link>, destroyed: seq<Link>, live: seq<Link>) {
      && Distinct(destroyed) && Apart(destroyed, live)
      && (forall j :: 0 <= j < |s| ==> s[j] in destroyed || s[j] in live)
      && (forall j :: 0 <= j < |destroyed| ==> destroyed[j] in s)
      && (forall j :: 0 <= j < |live| ==> live[j] in s)
    }

    lemma SplitStep(s: seq<Link>, destroyed: seq<Link>, live: seq<Link>, k: nat)
      requires Split(s, destroyed, live) && Distinct(live) && k < |live|
      ensures Split(s, destroyed + [live[k]], Without(live, k))
    {
      var l, d := Without(live, k), destroyed + [live[k]];
      forall j | 0 <= j < |s| ensures s[j] in d || s[j] in l {
        if s[j] in live && s[j] != live[k] {
          var i :| 0 <= i < |live| && live[i] == s[j];
          assert l[if i < k then i else i - 1] == s[j];
        }
      }
      assert forall j :: 0 <= j < |l| ==> l[j] == live[if j < k then j else j + 1];
      assert d[|destroyed|] == live[k];
    }

    ghost predicate Progress(all: seq<Link>, destroyed: seq<Link>, i: nat)
      reads this, buckets, contents
    {
      && Valid() && Split(all, destroyed, contents)
      && forall j :: 0 <= j < i ==> InBucket(contents, j) == []
    }

    lemma StillEmpty(s: seq<Link>, i: nat, k: nat)
      requires k < |s| && InSlot(i)(s[k])
      requires forall j :: 0 <= j < i ==> InBucket(s, j) == []
      ensures forall j :: 0 <= j < i ==> InBucket(Without(s, k), j) == []
    {
      forall j | 0 <= j < i ensures InBucket(Without(s, k), j) == InBucket(s, j) {
        FilterWithout(s, InSlot(j), k);
      }
    }

    // One step of the loop below: unlink the first entry of bucket i and destroy it.
    method DestroyFirst(entry: Link, ghost i: nat, ghost all: seq<Link>, ghost destroyed: seq<Link>)
      requires i < tableSize && Progress(all, destroyed, i)
      requires InBucket(contents, i) != [] && entry == InBucket(contents, i)[0]
      modifies this`contents, buckets, contents
      ensures Progress(all, destroyed + [entry], i)
      ensures InBucket(contents, i) == InBucket(old(contents), i)[1..]
      ensures |contents| < |old(contents)| && forall j :: 0 <= j < |contents| ==> contents[j] in old(contents)
    {
      ghost var was := contents;
      ghost var k := FirstInSlot(was, i);
      BucketFront(was, i);
      SplitStep(all, destroyed, was, k);
      StillEmpty(was, i, k);
      Unlink(entry, i, 0, k);
      Destruct(entry, i, all, destroyed + [entry]);
    }

    // The client's destructor: it leaves anything at all in the link.
    method Destruct(entry: Link, ghost i: nat, ghost all: seq<Link>, ghost destroyed: seq<Link>)
      requires Progress(all, destroyed, i) && entry !in contents && entry !in buckets
      modifies entry
      ensures Progress(all, destroyed, i)
    {
      entry.next, entry.prev := *, *;
    }

    // The inner loop: the successor is read before the entry is destroyed.
    method DestroyBucket(i: nat, destroyed: seq<Link>, ghost all: seq<Link>) returns (destroyed': seq<Link>)
      requires i < tableSize && Progress(all, destroyed, i)
      modifies this`contents, buckets, contents
      ensures Progress(all, destroyed', i + 1)
    {
      destroyed' := destroyed;
      var head := buckets[i];
      assert IsRing(Ring(contents, i));
      var entry := head.next;
      var scratch := entry.next;
      while entry != head
        invariant Progress(all, destroyed', i)
        invariant entry == Succ(Ring(contents, i), 0) && scratch == entry.next
        invariant forall j :: 0 <= j < |contents| ==> contents[j] in old(contents)
        decreases |contents|
      {
        assert scratch == Succ(Ring(contents, i), 1);
        DestroyFirst(entry, i, all, destroyed');
        destroyed' := destroyed' + [entry];
        entry := scratch;
        scratch := entry.next;
      }
    }

    // qhash_destroy_and_finalize.  The destructor may do what it likes with the
    // link it is given: its pointers are never read again.  Every link is handed
    // to it exactly once.
    method Destroy() returns (destroyed: seq<Link>)
      requires Valid()
      modifies this`contents, buckets, contents
      ensures Distinct(destroyed) && forall x :: x in destroyed <==> x in old(contents)
    {
      destroyed := [];
      for i := 0 to tableSize
        invariant Progress(old(contents), destroyed, i)
      {
        destroyed := DestroyBucket(i, destroyed, old(contents));
      }
      assert contents != [] ==> contents[0] in InBucket(contents, hash(keyOf(contents[0]), tableSize));
    }

    // The live links after a history of operations on an empty table.
    ghost function Replay(h: seq<Op<K>>): seq<Link> {
      if h == [] then [] else Apply(Replay(h[..|h| - 1]), h[|h| - 1])
    }

    // A link is added only while it is not in the table.
    ghost predicate Proper(h: seq<Op<K>>) {
      h == [] || (Proper(h[..|h| - 1]) && (h[|h| - 1].Added? ==> h[|h| - 1].link !in Replay(h[..|h| - 1])))
    }

    // When the link was last added; -1 if it never was.
    ghost function AddedAt(h: seq<Op<K>>, link: Link): int
      ensures -1 <= AddedAt(h, link) < |h|
    {
      if h == [] then -1
      else if h[|h| - 1] == Added(link) then |h| - 1
      else AddedAt(h[..|h| - 1], link)
    }

    // The links of s were added, and in the order in which they stand.
    ghost predicate InOrder(h: seq<Op<K>>, s: seq<Link>) {
      && (forall i :: 0 <= i < |s| ==> AddedAt(h, s[i]) >= 0)
      && (forall i, j :: 0 <= i < j < |s| ==> AddedAt(h, s[i]) < AddedAt(h, s[j]))
    }

    lemma InOrderWithout(h: seq<Op<K>>, s: seq<Link>, k: nat)
      requires InOrder(h, s) && k < |s|
      ensures InOrder(h, Without(s, k))
    {
    }

    lemma InOrderLater(h: seq<Op<K>>, s: seq<Link>)
      requires h != [] && InOrder(h[..|h| - 1], s) && forall i :: 0 <= i < |s| ==> h[|h| - 1] != Added(s[i])
      ensures InOrder(h, s)
    {
      assert forall i :: 0 <= i < |s| ==> AddedAt(h, s[i]) == AddedAt(h[..|h| - 1], s[i]);
    }

    // After any history the live links stand in the order of their additions...
    lemma {:induction false} ReplayInOrder(h: seq<Op<K>>)
      requires Proper(h)
      ensures InOrder(h, Replay(h))
    {
      if h != [] {
        var g, s, op := h[..|h| - 1], Replay(h[..|h| - 1]), h[|h| - 1];
        ReplayInOrder(g);
        InOrderLater(h, s);
        match op {
          case Added(_) =>
          case Removed(key) =>
            if FirstIndex(s, key) < |s| { InOrderWithout(h, s, FirstIndex(s, key)); }
          case RemovedAt(index) =>
            if FirstInSlot(s, index) < |s| { InOrderWithout(h, s, FirstInSlot(s, index)); }
        }
      }
    }

    // ... so the link that a search returns was added before every other live
    // link with the same key.
    lemma SearchIsEarliest(h: seq<Op<K>>, key: K, k: nat, x: Link)
      requires Proper(h) && IsFirst(Replay(h), key, k)
      requires x in Replay(h) && keyOf(x) == key && x != Replay(h)[k]
      ensures 0 <= AddedAt(h, Replay(h)[k]) < AddedAt(h, x)
    {
      ReplayInOrder(h);
      var j :| 0 <= j < |Replay(h)| && Replay(h)[j] == x;
    }
  }
}
