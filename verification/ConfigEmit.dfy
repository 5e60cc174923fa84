/** Emission of a compiled configuration into the config store:
    src/modelconfig/config_emitter.cxx, and what the store's lookups then return. */
module ConfigEmit {
  import opened ConfigEqual
  import opened Options

  // compiled_key and compiled_section
  datatype IrKey = IrKey(name: string, values: seq<string>)
  datatype Ir = Ir(name: string, keys: seq<IrKey>, subsections: seq<Ir>)

  function EmittedKeys(keys: seq<IrKey>): (es: seq<Entry>)
    ensures |es| == |keys| && forall i :: 0 <= i < |keys| ==> es[i] == Key(keys[i].name, keys[i].values)
  {
    if keys == [] then [] else EmittedKeys(keys[..|keys| - 1]) + [Key(keys[|keys| - 1].name, keys[|keys| - 1].values)]
  }

  // The first n subsections.
  function EmittedSubs(s: Ir, n: nat): (es: seq<Entry>)
    requires n <= |s.subsections|
    ensures |es| == n && forall i :: 0 <= i < n ==> es[i].Sub?
    decreases s, n
  {
    if n == 0 then [] else
    var c := s.subsections[n - 1];
    EmittedSubs(s, n - 1) + [Sub(c.name, Emitted(c))]
  }

  function Emitted(s: Ir): Section
    decreases s, |s.subsections| + 1
  {
    Section(EmittedKeys(s.keys) + EmittedSubs(s, |s.subsections|))
  }

  // emit_keys: every key goes to the end of the section.
  method EmitKeys(section: seq<Entry>, keys: seq<IrKey>) returns (after: seq<Entry>)
    ensures after == section + EmittedKeys(keys)
  {
    after := section;
    for i := 0 to |keys|
      invariant after == section + EmittedKeys(keys[..i])
    {
      assert keys[..i + 1][..i] == keys[..i];
      after := after + [Key(keys[i].name, keys[i].values)];
    }
    assert keys[..|keys|] == keys;
  }

  // emit_section: a new section at the end of its parent, first its keys, then its
  // subsections.
  method EmitSection(parent: seq<Entry>, s: Ir) returns (after: seq<Entry>)
    ensures after == parent + [Sub(s.name, Emitted(s))]
    decreases s
  {
    var entries := EmitKeys([], s.keys);
    for i := 0 to |s.subsections|
      invariant entries == EmittedKeys(s.keys) + EmittedSubs(s, i)
    {
      entries := EmitSection(entries, s.subsections[i]);
    }
    after := parent + [Sub(s.name, Section(entries))];
  }

  lemma {:induction false} EmittedSubsAt(s: Ir, n: nat, i: nat)
    requires i < n <= |s.subsections|
    ensures EmittedSubs(s, n)[i] == Sub(s.subsections[i].name, Emitted(s.subsections[i]))
  {
    if i < n - 1 {
      EmittedSubsAt(s, n - 1, i);
    }
  }

  /* ---- lookups ---- */

  function KeyOf(keys: seq<IrKey>, name: string): Option<seq<string>> {
    if keys == [] then None
    else if keys[0].name == name then Some(keys[0].values)
    else KeyOf(keys[1..], name)
  }

  function SubOf(subs: seq<Ir>, name: string): Option<Section> {
    if subs == [] then None
    else if SameName(subs[0].name, name) then Some(Emitted(subs[0]))
    else SubOf(subs[1..], name)
  }

  lemma {:induction false} KeysFind(es: seq<Entry>, keys: seq<IrKey>, name: string)
    requires |es| == |keys| && forall i :: 0 <= i < |keys| ==> es[i] == Key(keys[i].name, keys[i].values)
    ensures FindKeyIn(es, name) == KeyOf(keys, name)
  {
    if keys != [] {
      KeysFind(es[1..], keys[1..], name);
    }
  }

  lemma {:induction false} SubsFind(es: seq<Entry>, subs: seq<Ir>, name: string)
    requires |es| == |subs| && forall i :: 0 <= i < |subs| ==> es[i] == Sub(subs[i].name, Emitted(subs[i]))
    ensures FindSubIn(es, name) == SubOf(subs, name)
  {
    if subs != [] {
      SubsFind(es[1..], subs[1..], name);
    }
  }

  // In the store a key reads as the first compiled key of its name, and a section opens
  // as the first compiled subsection of its name ignoring case.
  lemma LookupsAgree(s: Ir, name: string)
    ensures FindKey(Emitted(s), name) == KeyOf(s.keys, name)
    ensures FindSub(Emitted(s), name) == SubOf(s.subsections, name)
  {
    var ks, ss := EmittedKeys(s.keys), EmittedSubs(s, |s.subsections|);
    FindKeyConcat(ks, ss, name);
    FindSubConcat(ks, ss, name);
    KeysFind(ks, s.keys, name);
    forall i | 0 <= i < |s.subsections| ensures ss[i] == Sub(s.subsections[i].name, Emitted(s.subsections[i])) {
      EmittedSubsAt(s, |s.subsections|, i);
    }
    SubsFind(ss, s.subsections, name);
  }

  /* ---- nothing is lost ---- */

  // Different compiled sections give different stores.
  lemma {:induction false} EmissionIsFaithful(a: Ir, b: Ir)
    requires a.name == b.name && Emitted(a) == Emitted(b)
    ensures a == b
    decreases a
  {
    var ka, kb := EmittedKeys(a.keys), EmittedKeys(b.keys);
    var sa, sb := EmittedSubs(a, |a.subsections|), EmittedSubs(b, |b.subsections|);
    SplitUnique(ka, sa, kb, sb);
    forall i | 0 <= i < |a.keys| ensures a.keys[i] == b.keys[i] {
      assert ka[i] == kb[i];
    }
    assert a.keys == b.keys;
    forall i | 0 <= i < |a.subsections| ensures a.subsections[i] == b.subsections[i] {
      EmittedSubsAt(a, |a.subsections|, i);
      EmittedSubsAt(b, |b.subsections|, i);
      EmissionIsFaithful(a.subsections[i], b.subsections[i]);
    }
    assert a.subsections == b.subsections;
  }

  // Keys before sections: the concatenation says where they meet.
  lemma SplitUnique(ka: seq<Entry>, sa: seq<Entry>, kb: seq<Entry>, sb: seq<Entry>)
    requires (forall i :: 0 <= i < |ka| ==> ka[i].Key?) && forall i :: 0 <= i < |sa| ==> sa[i].Sub?
    requires (forall i :: 0 <= i < |kb| ==> kb[i].Key?) && forall i :: 0 <= i < |sb| ==> sb[i].Sub?
    requires ka + sa == kb + sb
    ensures ka == kb && sa == sb
  {
    var a, b := ka + sa, kb + sb;
    assert forall i :: 0 <= i < |a| ==> (a[i].Key? <==> i < |ka|);
    assert forall i :: 0 <= i < |b| ==> (b[i].Key? <==> i < |kb|);
    assert |ka| < |a| ==> !a[|ka|].Key?;
    assert |kb| < |b| ==> !b[|kb|].Key?;
    assert a[..|ka|] == ka && b[..|kb|] == kb && a[|ka|..] == sa && b[|kb|..] == sb;
  }

  /* ---- comparing what was emitted ---- */

  // In an emitted tree no key is hidden, because keys come before sections...
  lemma {:induction false} EmittedNoHiddenKey(s: Ir)
    ensures NoHiddenKey(Emitted(s))
    decreases s
  {
    var t, n := Emitted(s), |s.keys|;
    forall i | 0 <= i < |t.entries| ensures Readable(t, i) {
      var e := t.entries[i];
      LookupsAgree(s, e.name);
      if i < n {
        KeyThere(s.keys, i);
      } else {
        EmittedSubsAt(s, |s.subsections|, i - n);
        SubThere(s, i - n, 0);
      }
    }
  }

  lemma {:induction false} KeyThere(keys: seq<IrKey>, i: nat)
    requires i < |keys|
    ensures KeyOf(keys, keys[i].name).Some?
  {
    if i > 0 {
      KeyThere(keys[1..], i - 1);
    }
  }

  // The section that the name of subsection i opens, and that it has no hidden key either.
  lemma {:induction false} SubThere(s: Ir, i: nat, j: nat)
    requires j <= i < |s.subsections|
    ensures var r := SubOf(s.subsections[j..], s.subsections[i].name); r.Some? && NoHiddenKey(r.value)
    decreases s, 0, i - j
  {
    if SameName(s.subsections[j].name, s.subsections[i].name) {
      EmittedNoHiddenKey(s.subsections[j]);
    } else {
      assert s.subsections[j..][1..] == s.subsections[j + 1..];
      SubThere(s, i, j + 1);
    }
  }

  // ... so comparing never misses a tree that reads the same: an emitted tree equals
  // itself, and every tree that no lookup tells from it.
  lemma EmittedEqualsAlike(s: Ir, b: Section)
    requires Observed(Emitted(s), b)
    ensures CfEqual(Emitted(s), b)
  {
    EmittedNoHiddenKey(s);
    ObservedIsEqualIff(Emitted(s), b);
  }
}
