/** The intrusive circular doubly linked list of codes/quicklist.h.

    A list is a ring of links that starts at its head.  The functions of the
    source take bare pointers, so the ring a call works on is a ghost argument:
    `r[0]` is the head and `r[1..]` are the entries in order. */
module QuickList {
  import opened Arith
  import opened Seqs

  class Link {
    var next: Link
    var prev: Link

    // INIT_QLIST_HEAD: a list with no entries.
    constructor ()
      ensures IsRing([this])
    {
      next, prev := this, this;
    }
  }

  ghost predicate IsRing(r: seq<Link>)
    reads r
  {
    && |r| > 0
    && Distinct(r)
    && (forall i {:trigger r[i].next} :: 0 <= i < |r| - 1 ==> r[i].next == r[i + 1])
    && r[|r| - 1].next == r[0]
    && (forall i {:trigger r[i].prev} :: 0 < i < |r| ==> r[i].prev == r[i - 1])
    && r[0].prev == r[|r| - 1]
  }

  function Succ(r: seq<Link>, k: nat): Link
    requires k < |r|
  {
    if k + 1 < |r| then r[k + 1] else r[0]
  }

  // __qlist_add
  method InsertBetween(newi: Link, prev: Link, next: Link, ghost r: seq<Link>, ghost k: nat)
    requires IsRing(r) && newi !in r
    requires k < |r| && prev == r[k] && next == Succ(r, k)
    modifies newi, prev, next
    ensures IsRing(InsertAfter(r, k, newi))
  {
    next.prev := newi;
    newi.next := next;
    newi.prev := prev;
    prev.next := newi;
  }

  // qlist_add: right after the head.
  method Add(newi: Link, head: Link, ghost r: seq<Link>)
    requires IsRing(r) && r[0] == head && newi !in r
    modifies newi, head, head.next
    ensures IsRing([head, newi] + r[1..])
  {
    InsertBetween(newi, head, head.next, r, 0);
    assert InsertAfter(r, 0, newi) == [head, newi] + r[1..];
  }

  // qlist_add_tail: right before the head.
  method AddTail(newi: Link, head: Link, ghost r: seq<Link>)
    requires IsRing(r) && r[0] == head && newi !in r
    modifies newi, head, head.prev
    ensures IsRing(r + [newi])
  {
    InsertBetween(newi, head.prev, head, r, |r| - 1);
    assert InsertAfter(r, |r| - 1, newi) == r + [newi];
  }

  // qlist_del: the neighbours are joined; the entry keeps its stale pointers.
  method Del(entry: Link, ghost r: seq<Link>, ghost k: nat)
    requires IsRing(r) && 0 < k < |r| && r[k] == entry
    modifies entry.prev, entry.next
    ensures IsRing(Without(r, k))
    ensures entry.next == old(entry.next) && entry.prev == old(entry.prev)
  {
    entry.next.prev := entry.prev;
    entry.prev.next := entry.next;
  }

  // qlist_del_init
  method DelInit(entry: Link, ghost r: seq<Link>, ghost k: nat)
    requires IsRing(r) && 0 < k < |r| && r[k] == entry
    modifies entry, entry.prev, entry.next
    ensures IsRing(Without(r, k)) && IsRing([entry])
  {
    Del(entry, r, k);
    entry.next := entry;
    entry.prev := entry;
  }

  method Empty(head: Link, ghost r: seq<Link>) returns (empty: bool)
    requires IsRing(r) && r[0] == head
    ensures empty <==> |r| == 1
  {
    empty := head.next == head;
  }

  // qlist_pop
  method Pop(head: Link, ghost r: seq<Link>) returns (item: Link?)
    requires IsRing(r) && r[0] == head
    modifies r
    ensures item == null <==> |r| == 1
    ensures item == null ==> IsRing(r)
    ensures item != null ==> item == r[1] && IsRing([head] + r[2..])
  {
    item := null;
    var empty := Empty(head, r);
    if !empty {
      item := head.next;
      Del(item, r, 1);
      assert Without(r, 1) == [head] + r[2..];
    }
  }

  // qlist_pop_back
  method PopBack(head: Link, ghost r: seq<Link>) returns (item: Link?)
    requires IsRing(r) && r[0] == head
    modifies r
    ensures item == null <==> |r| == 1
    ensures item == null ==> IsRing(r)
    ensures item != null ==> item == r[|r| - 1] && IsRing(r[..|r| - 1])
  {
    item := null;
    var empty := Empty(head, r);
    if !empty {
      item := head.prev;
      Del(item, r, |r| - 1);
      assert Without(r, |r| - 1) == r[..|r| - 1];
    }
  }

  // qlist_splice: all entries of the ring q, in order, before the entries of r.
  // The head of q keeps its stale pointers.
  method Splice(qlist: Link, head: Link, ghost q: seq<Link>, ghost r: seq<Link>)
    requires IsRing(q) && q[0] == qlist
    requires IsRing(r) && r[0] == head
    requires Apart(q, r)
    modifies q[1..], r
    ensures IsRing([head] + q[1..] + r[1..])
    ensures qlist.next == old(qlist.next) && qlist.prev == old(qlist.prev)
  {
    var first := qlist.next;
    if first != qlist {
      var last := qlist.prev;
      var at := head.next;
      first.prev := head;
      head.next := first;
      last.next := at;
      at.prev := last;
      assert first == q[1] && last == q[|q| - 1] && at == Succ(r, 0);
      ghost var s := [head] + q[1..] + r[1..];
      assert forall i :: 0 < i < |q| ==> s[i] == q[i];
      assert forall i :: |q| <= i < |s| ==> s[i] == r[i - |q| + 1];
    } else {
      assert [head] + q[1..] + r[1..] == r;
    }
  }

  // qlist_count
  method Count(list: Link, ghost r: seq<Link>) returns (count: nat)
    requires IsRing(r) && r[0] == list
    ensures count == |r| - 1
  {
    count := 0;
    var pos := list.next;
    while pos != list
      invariant 0 <= count < |r| && pos == Succ(r, count)
      decreases |r| - count
    {
      count := count + 1;
      pos := pos.next;
    }
  }

  // qlist_exists
  method Exists(list: Link, qlink: Link, ghost r: seq<Link>) returns (found: bool)
    requires IsRing(r) && r[0] == list
    ensures found <==> qlink in r[1..]
  {
    if list.next == list {
      return false;
    }
    ghost var k := 0;
    var pos := list.next;
    while pos != list
      invariant 0 <= k < |r| && pos == Succ(r, k)
      invariant qlink !in r[1..k + 1]
      decreases |r| - k
    {
      if pos == qlink {
        assert r[1..][k] == qlink;
        return true;
      }
      k := k + 1;
      pos := pos.next;
    }
    return false;
  }

  // qlist_find: the first entry that the comparison accepts.
  method Find(list: Link, compare: Link -> bool, ghost r: seq<Link>) returns (found: Link?)
    requires IsRing(r) && r[0] == list
    ensures found == null ==> forall x :: x in r[1..] ==> !compare(x)
    ensures found != null ==>
              exists k :: 0 < k < |r| && found == r[k] && compare(r[k]) && forall j :: 0 < j < k ==> !compare(r[j])
  {
    ghost var k := 0;
    var pos := list.next;
    while pos != list
      invariant 0 <= k < |r| && pos == Succ(r, k)
      invariant forall j :: 0 < j <= k ==> !compare(r[j])
      decreases |r| - k
    {
      if compare(pos) {
        assert pos == r[k + 1];
        return pos;
      }
      k := k + 1;
      pos := pos.next;
    }
    return null;
  }

  // qlist_add_at_index: for every integer index, of either sign and of any size,
  // the new entry ends up at position `index mod (n + 1)` of a list of n entries.
  method AddAtIndex(newi: Link, list: Link, index: int, ghost r: seq<Link>)
    requires IsRing(r) && r[0] == list && newi !in r
    modifies newi, r
    ensures IsRing(InsertAfter(r, index % |r|, newi))
    ensures InsertAfter(r, index % |r|, newi)[1..][index % |r|] == newi
  {
    var at, i := list, index;
    if index < 0 {
      while i != 0
        invariant index <= i <= 0 && at == r[(index - i) % |r|]
        modifies {}
        decreases -i
      {
        DivStep(index - i - 1, |r|);
        i := i + 1;
        at := at.prev;
      }
    } else {
      while i != 0
        invariant 0 <= i <= index && at == r[(index - i) % |r|]
        modifies {}
        decreases i
      {
        DivStep(index - i, |r|);
        i := i - 1;
        at := at.next;
      }
    }
    InsertBetween(newi, at, at.next, r, index % |r|);
  }

  // are_qlist_equal: same length and pairwise accepted by the comparison; the
  // two closing assertions of the source never fail.
  method AreEqual(left: Link, right: Link, cmp: (Link, Link) -> bool, ghost a: seq<Link>, ghost b: seq<Link>)
    returns (equal: bool)
    requires IsRing(a) && a[0] == left
    requires IsRing(b) && b[0] == right
    ensures equal <==> |a| == |b| && forall i :: 0 < i < |a| ==> cmp(a[i], b[i])
  {
    var numElems := Count(left, a);
    var numRight := Count(right, b);
    if numElems != numRight {
      return false;
    }
    var i := 0;
    var l, r := left.next, right.next;
    while l != left
      invariant 0 <= i < |a| && l == Succ(a, i) && r == Succ(b, i)
      invariant forall j :: 0 < j <= i ==> cmp(a[j], b[j])
      decreases |a| - i
    {
      if !cmp(l, r) {
        assert l == a[i + 1] && r == b[i + 1];
        return false;
      }
      l, r, i := l.next, r.next, i + 1;
    }
    assert i == numElems;
    assert r == right;
    return true;
  }
}
