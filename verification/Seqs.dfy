/** Sequences with one element more or less, and sequences without repetition. */
module Seqs {

  ghost predicate Distinct<T>(s: seq<T>) {
    forall i, j :: 0 <= i < j < |s| ==> s[i] != s[j]
  }

  ghost predicate Apart<T>(q: seq<T>, r: seq<T>) {
    forall i, j :: 0 <= i < |q| && 0 <= j < |r| ==> q[i] != r[j]
  }

  // s with x put after position k, and s without position k.
  function InsertAfter<T>(s: seq<T>, k: nat, x: T): seq<T>
    requires k < |s|
  {
    s[..k + 1] + [x] + s[k + 1..]
  }

  function Without<T>(s: seq<T>, k: nat): seq<T>
    requires k < |s|
  {
    s[..k] + s[k + 1..]
  }

  // How often x occurs in s, and among its first n elements.
  function Count<T(==)>(s: seq<T>, x: T): nat {
    CountTo(s, x, |s|)
  }

  function CountTo<T(==)>(s: seq<T>, x: T, n: nat): nat
    requires n <= |s|
  {
    if n == 0 then 0 else CountTo(s, x, n - 1) + if s[n - 1] == x then 1 else 0
  }

  lemma {:induction false} CountToConcat<T>(s: seq<T>, t: seq<T>, x: T, n: nat)
    requires n <= |s| + |t|
    ensures CountTo(s + t, x, n) == if n <= |s| then CountTo(s, x, n) else Count(s, x) + CountTo(t, x, n - |s|)
  {
    if n > 0 {
      CountToConcat(s, t, x, n - 1);
    }
  }

  lemma CountConcat<T>(s: seq<T>, t: seq<T>, x: T)
    ensures Count(s + t, x) == Count(s, x) + Count(t, x)
  {
    CountToConcat(s, t, x, |s + t|);
  }

  lemma CountSnoc<T>(s: seq<T>, e: T, x: T)
    ensures Count(s + [e], x) == Count(s, x) + if e == x then 1 else 0
  {
    CountToConcat(s, [e], x, |s|);
  }

  lemma CountLast<T>(s: seq<T>, x: T)
    requires s != []
    ensures Count(s, x) == Count(s[..|s| - 1], x) + if s[|s| - 1] == x then 1 else 0
  {
    var n := |s| - 1;
    assert s == s[..n] + [s[n]];
    CountSnoc(s[..n], s[n], x);
  }

  lemma {:induction false} CountPositive<T>(s: seq<T>, x: T)
    ensures Count(s, x) > 0 <==> x in s
    decreases |s|
  {
    if s != [] {
      CountPositive(s[..|s| - 1], x);
      CountLast(s, x);
      assert s == s[..|s| - 1] + [s[|s| - 1]];
    }
  }

  // Taking position k out of a sequence without repetition loses s[k] and nothing else.
  lemma WithoutMembers<T>(s: seq<T>, k: nat)
    requires Distinct(s) && k < |s|
    ensures Distinct(Without(s, k)) && s[k] !in Without(s, k)
    ensures forall j :: 0 <= j < |s| && j != k ==> s[j] in Without(s, k)
    ensures forall j :: 0 <= j < |s| - 1 ==> Without(s, k)[j] in s
  {
    forall j | 0 <= j < |s| && j != k ensures s[j] in Without(s, k) {
      assert Without(s, k)[if j < k then j else j - 1] == s[j];
    }
  }

  // Different numbers below n are at most n.
  lemma {:induction false} Pigeonhole(s: seq<int>, n: nat)
    requires Distinct(s) && forall i :: 0 <= i < |s| ==> 0 <= s[i] < n
    ensures |s| <= n
    decreases n
  {
    if s != [] {
      assert 0 <= s[0] < n;
      if k :| 0 <= k < |s| && s[k] == n - 1 {
        WithoutMembers(s, k);
        Pigeonhole(Without(s, k), n - 1);
      } else {
        Pigeonhole(s, n - 1);
      }
    }
  }

  lemma Rejoin<T>(s: seq<T>, i: nat, j: nat)
    requires i <= j <= |s|
    ensures s[..i] + s[i..j] == s[..j] && s[..i] + s[i..j] + s[j..] == s
  {
  }

  lemma CutConcat<T>(s: seq<T>, t: seq<T>, m: nat)
    requires |s| <= m <= |s| + |t|
    ensures (s + t)[..m] == s + t[..m - |s|]
  {
  }

  lemma Assoc<T>(a: seq<T>, b: seq<T>, c: seq<T>)
    ensures a + (b + c) == (a + b) + c
  {
  }

  lemma NoMore<T>(a: seq<T>)
    ensures a + [] == a == [] + a
  {
  }

  lemma ConsTail<T>(x: T, s: seq<T>)
    ensures ([x] + s)[0] == x && ([x] + s)[1..] == s
  {
  }

  lemma HeadTail<T>(s: seq<T>)
    requires s != []
    ensures [s[0]] + s[1..] == s
  {
  }
}
