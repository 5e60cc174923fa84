/** Lists of named definitions in which a later definition takes the place of an earlier
    one: components, pass-through sections and simulation settings of the config
    compiler.  Names compare exactly, or without regard to case. */
module NamedLists {
  import opened ConfigEqual
  import opened Options

  datatype Named<V> = Named(name: string, value: V)

  predicate Same(ci: bool, a: string, b: string) {
    if ci then SameName(a, b) else a == b
  }

  lemma SameIsEquivalence(ci: bool, a: string, b: string, c: string)
    ensures Same(ci, a, a)
    ensures Same(ci, a, b) ==> Same(ci, b, a)
    ensures Same(ci, a, b) && Same(ci, b, c) ==> Same(ci, a, c)
  {
  }

  // Lookup: the first definition of the name.
  function Find<V>(ci: bool, s: seq<Named<V>>, name: string): Option<V> {
    if s == [] then None
    else if Same(ci, s[0].name, name) then Some(s[0].value)
    else Find(ci, s[1..], name)
  }

  // The last definition of the name.
  function LastOf<V>(ci: bool, s: seq<Named<V>>, name: string): Option<V> {
    if s == [] then None
    else if Same(ci, s[|s| - 1].name, name) then Some(s[|s| - 1].value)
    else LastOf(ci, s[..|s| - 1], name)
  }

  predicate Unique<V>(ci: bool, s: seq<Named<V>>) {
    forall i, j :: 0 <= i < j < |s| ==> !Same(ci, s[i].name, s[j].name)
  }

  lemma {:induction false} FindConcat<V>(ci: bool, s: seq<Named<V>>, t: seq<Named<V>>, name: string)
    ensures Find(ci, s + t, name) == if Find(ci, s, name).Some? then Find(ci, s, name) else Find(ci, t, name)
  {
    if s == [] {
      assert s + t == t;
    } else {
      FindConcat(ci, s[1..], t, name);
      assert (s + t)[1..] == s[1..] + t;
    }
  }

  lemma {:induction false} FindNone<V>(ci: bool, s: seq<Named<V>>, name: string)
    ensures Find(ci, s, name).None? <==> forall i :: 0 <= i < |s| ==> !Same(ci, s[i].name, name)
  {
    if s != [] {
      FindNone(ci, s[1..], name);
      assert forall i :: 0 < i < |s| ==> s[i] == s[1..][i - 1];
    }
  }

  lemma {:induction false} LastOfConcat<V>(ci: bool, s: seq<Named<V>>, t: seq<Named<V>>, name: string)
    ensures LastOf(ci, s + t, name) == if LastOf(ci, t, name).Some? then LastOf(ci, t, name) else LastOf(ci, s, name)
    decreases |t|
  {
    if t == [] {
      assert s + t == s;
    } else {
      LastOfConcat(ci, s, t[..|t| - 1], name);
      assert (s + t)[..|s + t| - 1] == s + t[..|t| - 1];
    }
  }

  /* ---- erase, then push at the end ---- */

  // s without the definitions of a name.
  function Erase<V>(ci: bool, s: seq<Named<V>>, name: string): seq<Named<V>> {
    if s == [] then [] else
    Erase(ci, s[..|s| - 1], name) + if Same(ci, s[|s| - 1].name, name) then [] else [s[|s| - 1]]
  }

  function Put<V>(ci: bool, s: seq<Named<V>>, e: Named<V>): seq<Named<V>> {
    Erase(ci, s, e.name) + [e]
  }

  function PutAll<V>(ci: bool, s: seq<Named<V>>, es: seq<Named<V>>): seq<Named<V>> {
    if es == [] then s else Put(ci, PutAll(ci, s, es[..|es| - 1]), es[|es| - 1])
  }

  lemma {:induction false} EraseFind<V>(ci: bool, s: seq<Named<V>>, gone: string, name: string)
    ensures Find(ci, Erase(ci, s, gone), name) == if Same(ci, gone, name) then None else Find(ci, s, name)
  {
    if s != [] {
      var n := |s| - 1;
      var last := if Same(ci, s[n].name, gone) then [] else [s[n]];
      EraseFind(ci, s[..n], gone, name);
      FindConcat(ci, Erase(ci, s[..n], gone), last, name);
      FindConcat(ci, s[..n], [s[n]], name);
      assert s == s[..n] + [s[n]];
      SameLast(ci, s[n], gone, name);
    }
  }

  // What an erased or a kept definition adds to a lookup.
  lemma SameLast<V>(ci: bool, e: Named<V>, gone: string, name: string)
    ensures Find(ci, [e], name) == if Same(ci, e.name, name) then Some(e.value) else None
    ensures Same(ci, e.name, gone) ==> (Same(ci, e.name, name) <==> Same(ci, gone, name))
  {
    SameIsEquivalence(ci, e.name, gone, name);
    SameIsEquivalence(ci, gone, e.name, name);
  }

  // Each element left was there, and is of another name.
  lemma {:induction false} EraseKeeps<V>(ci: bool, s: seq<Named<V>>, gone: string)
    requires Unique(ci, s)
    ensures Unique(ci, Erase(ci, s, gone)) && |Erase(ci, s, gone)| <= |s|
    ensures forall i :: 0 <= i < |Erase(ci, s, gone)| ==> Erase(ci, s, gone)[i] in s && !Same(ci, Erase(ci, s, gone)[i].name, gone)
  {
    if s != [] {
      var n := |s| - 1;
      EraseKeeps(ci, s[..n], gone);
      var start := Erase(ci, s[..n], gone);
      forall i | 0 <= i < |start| ensures !Same(ci, start[i].name, s[n].name) {
        assert start[i] in s[..n];
        var k :| 0 <= k < n && s[k] == start[i];
      }
    }
  }

  lemma PutExact<V>(ci: bool, s: seq<Named<V>>, e: Named<V>, name: string)
    requires Unique(ci, s)
    ensures Unique(ci, Put(ci, s, e))
    ensures Find(ci, Put(ci, s, e), name) == if Same(ci, e.name, name) then Some(e.value) else Find(ci, s, name)
  {
    EraseKeeps(ci, s, e.name);
    EraseFind(ci, s, e.name, name);
    FindConcat(ci, Erase(ci, s, e.name), [e], name);
    assert Find(ci, [e][1..], name) == None;
  }

  // After any number of definitions every name is there once, with its last definition.
  lemma {:induction false} PutAllExact<V>(ci: bool, s: seq<Named<V>>, es: seq<Named<V>>, name: string)
    requires Unique(ci, s)
    ensures Unique(ci, PutAll(ci, s, es))
    ensures Find(ci, PutAll(ci, s, es), name) == if LastOf(ci, es, name).Some? then LastOf(ci, es, name) else Find(ci, s, name)
    decreases |es|
  {
    if es != [] {
      var n := |es| - 1;
      PutAllExact(ci, s, es[..n], name);
      PutExact(ci, PutAll(ci, s, es[..n]), es[n], name);
    }
  }

  lemma {:induction false} PutAllConcat<V>(ci: bool, s: seq<Named<V>>, a: seq<Named<V>>, b: seq<Named<V>>)
    ensures PutAll(ci, s, a + b) == PutAll(ci, PutAll(ci, s, a), b)
    decreases |b|
  {
    if b == [] {
      assert a + b == a;
    } else {
      PutAllConcat(ci, s, a, b[..|b| - 1]);
      assert (a + b)[..|a + b| - 1] == a + b[..|b| - 1];
    }
  }

  /* ---- overwrite in place, or append ---- */

  function Overwrite<V>(s: seq<Named<V>>, e: Named<V>): seq<Named<V>> {
    if s == [] then [e]
    else if s[0].name == e.name then [e] + s[1..]
    else [s[0]] + Overwrite(s[1..], e)
  }

  function OverwriteAll<V>(s: seq<Named<V>>, es: seq<Named<V>>): seq<Named<V>> {
    if es == [] then s else Overwrite(OverwriteAll(s, es[..|es| - 1]), es[|es| - 1])
  }

  lemma {:induction false} OverwriteFind<V>(s: seq<Named<V>>, e: Named<V>, name: string)
    ensures Find(false, Overwrite(s, e), name) == if e.name == name then Some(e.value) else Find(false, s, name)
  {
    if s != [] && s[0].name != e.name {
      OverwriteFind(s[1..], e, name);
      assert ([s[0]] + Overwrite(s[1..], e))[1..] == Overwrite(s[1..], e);
    } else if s != [] {
      assert ([e] + s[1..])[1..] == s[1..];
    }
  }

  lemma {:induction false} OverwriteUnique<V>(s: seq<Named<V>>, e: Named<V>)
    requires Unique(false, s)
    ensures Unique(false, Overwrite(s, e))
    ensures forall i :: 0 <= i < |Overwrite(s, e)| ==> Overwrite(s, e)[i].name == e.name || exists j :: 0 <= j < |s| && s[j].name == Overwrite(s, e)[i].name
  {
    if s != [] {
      if s[0].name == e.name {
        assert forall i :: 0 < i < |s| ==> Overwrite(s, e)[i] == s[i];
      } else {
        var rest := s[1..];
        assert Unique(false, rest);
        OverwriteUnique(rest, e);
        var more := Overwrite(rest, e);
        forall i | 0 <= i < |more| ensures more[i].name != s[0].name && (more[i].name == e.name || exists j :: 0 <= j < |s| && s[j].name == more[i].name) {
          if more[i].name != e.name {
            var j :| 0 <= j < |rest| && rest[j].name == more[i].name;
            assert s[j + 1] == rest[j];
          }
        }
      }
    }
  }

  lemma {:induction false} OverwriteAllExact<V>(s: seq<Named<V>>, es: seq<Named<V>>, name: string)
    requires Unique(false, s)
    ensures Unique(false, OverwriteAll(s, es))
    ensures Find(false, OverwriteAll(s, es), name) == if LastOf(false, es, name).Some? then LastOf(false, es, name) else Find(false, s, name)
    decreases |es|
  {
    if es != [] {
      var n := |es| - 1;
      OverwriteAllExact(s, es[..n], name);
      OverwriteUnique(OverwriteAll(s, es[..n]), es[n]);
      OverwriteFind(OverwriteAll(s, es[..n]), es[n], name);
    }
  }

  lemma {:induction false} OverwriteAllConcat<V>(s: seq<Named<V>>, a: seq<Named<V>>, b: seq<Named<V>>)
    ensures OverwriteAll(s, a + b) == OverwriteAll(OverwriteAll(s, a), b)
    decreases |b|
  {
    if b == [] {
      assert a + b == a;
    } else {
      OverwriteAllConcat(s, a, b[..|b| - 1]);
      assert (a + b)[..|a + b| - 1] == a + b[..|b| - 1];
    }
  }

  /* ---- where the elements come from ---- */

  lemma {:induction false} EraseFrom<V>(ci: bool, s: seq<Named<V>>, gone: string)
    ensures forall i :: 0 <= i < |Erase(ci, s, gone)| ==> Erase(ci, s, gone)[i] in s
  {
    if s != [] {
      EraseFrom(ci, s[..|s| - 1], gone);
    }
  }

  lemma {:induction false} PutAllFrom<V>(ci: bool, es: seq<Named<V>>)
    ensures forall i :: 0 <= i < |PutAll(ci, [], es)| ==> PutAll(ci, [], es)[i] in es
    decreases |es|
  {
    if es != [] {
      var n := |es| - 1;
      PutAllFrom(ci, es[..n]);
      EraseFrom(ci, PutAll(ci, [], es[..n]), es[n].name);
    }
  }

  lemma {:induction false} OverwriteFrom<V>(s: seq<Named<V>>, e: Named<V>)
    ensures forall i :: 0 <= i < |Overwrite(s, e)| ==> Overwrite(s, e)[i] == e || Overwrite(s, e)[i] in s
  {
    if s != [] {
      OverwriteFrom(s[1..], e);
    }
  }

  lemma {:induction false} OverwriteAllFrom<V>(es: seq<Named<V>>)
    ensures forall i :: 0 <= i < |OverwriteAll([], es)| ==> OverwriteAll([], es)[i] in es
    decreases |es|
  {
    if es != [] {
      var n := |es| - 1;
      OverwriteAllFrom(es[..n]);
      OverwriteFrom(OverwriteAll([], es[..n]), es[n]);
    }
  }

  lemma {:induction false} FindIndex<V>(ci: bool, s: seq<Named<V>>, name: string) returns (j: nat)
    requires Find(ci, s, name).Some?
    ensures j < |s| && Same(ci, s[j].name, name) && s[j].value == Find(ci, s, name).value
  {
    if Same(ci, s[0].name, name) {
      j := 0;
    } else {
      j := FindIndex(ci, s[1..], name);
      j := j + 1;
    }
  }
}
