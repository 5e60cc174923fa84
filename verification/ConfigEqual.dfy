/** The config store of src/modelconfig/configstore.c and the tree comparison of
    src/modelconfig/configfile.c. */
module ConfigEqual {
  import opened Options

  // mcs_entry: a section holds keys and subsections in the order they were added.
  datatype Entry = Key(name: string, values: seq<string>) | Sub(name: string, section: Section)
  datatype Section = Section(entries: seq<Entry>)

  // Section names compare without regard to (ASCII) case, as strcasecmp does.
  function Lower(c: char): char {
    if 'A' <= c <= 'Z' then c - 'A' + 'a' else c
  }

  predicate SameName(a: string, b: string) {
    |a| == |b| && forall i :: 0 <= i < |a| ==> Lower(a[i]) == Lower(b[i])
  }

  // mcs_findsubsection: the first section whose name matches without regard to case.
  function FindSubIn(es: seq<Entry>, name: string): (r: Option<Section>)
    ensures r.Some? ==> exists i :: 0 <= i < |es| && es[i].Sub? && SameName(es[i].name, name) && es[i].section == r.value
    ensures r.None? ==> forall i :: 0 <= i < |es| && es[i].Sub? ==> !SameName(es[i].name, name)
  {
    if es == [] then None
    else if es[0].Sub? && SameName(es[0].name, name) then Some(es[0].section)
    else FindSubIn(es[1..], name)
  }

  function FindSub(s: Section, name: string): (r: Option<Section>)
    ensures r.Some? ==> exists i :: 0 <= i < |s.entries| && s.entries[i].Sub? && SameName(s.entries[i].name, name) && s.entries[i].section == r.value
    ensures r.None? ==> forall i :: 0 <= i < |s.entries| && s.entries[i].Sub? ==> !SameName(s.entries[i].name, name)
  {
    FindSubIn(s.entries, name)
  }

  // mcs_findkey: the first entry of either kind with exactly this name, if it is a key.
  function FindKeyIn(es: seq<Entry>, name: string): (r: Option<seq<string>>)
    ensures r.Some? ==> Key(name, r.value) in es
  {
    if es == [] then None
    else if es[0].name == name then (if es[0].Key? then Some(es[0].values) else None)
    else FindKeyIn(es[1..], name)
  }

  // The position of the first entry with this name, |es| if there is none.
  function FirstNamed(es: seq<Entry>, name: string): (i: nat)
    ensures i <= |es| && (i < |es| ==> es[i].name == name)
    ensures forall j :: 0 <= j < i ==> es[j].name != name
  {
    if es == [] || es[0].name == name then 0 else 1 + FirstNamed(es[1..], name)
  }

  // The lookup gives the values of that entry, and nothing if there is none or if it is
  // a section.
  lemma {:induction false} FindKeyExact(es: seq<Entry>, name: string)
    ensures var i := FirstNamed(es, name);
            FindKeyIn(es, name) == if i < |es| && es[i].Key? then Some(es[i].values) else None
  {
    if es != [] && es[0].name != name {
      FindKeyExact(es[1..], name);
    }
  }

  function FindKey(s: Section, name: string): (r: Option<seq<string>>)
    ensures r.Some? ==> Key(name, r.value) in s.entries
  {
    FindKeyIn(s.entries, name)
  }

  // cf_has_entry
  predicate HasEntry(s: Section, name: string) {
    FindSub(s, name).Some? || FindKey(s, name).Some?
  }

  // What the comparison computes.  A key that an earlier section of the same name
  // hides reads as no values at all.
  function ValuesOf(r: Option<seq<string>>): seq<string> {
    if r.Some? then r.value else []
  }

  predicate EntryFound(a: Section, b: Section, i: nat)
    requires i < |a.entries|
    decreases a, 0
  {
    var name := a.entries[i].name;
    if a.entries[i].Sub? then
      FindSub(b, name).Some? && FindSub(a, name).Some? && CfEqual(FindSub(a, name).value, FindSub(b, name).value)
    else
      FindKey(b, name).Some? && ValuesOf(FindKey(a, name)) == FindKey(b, name).value
  }

  predicate CfEqual(a: Section, b: Section)
    decreases a, 2
  {
    AllFound(a, b, |a.entries|) && BackFound(a, b, |b.entries|)
  }

  predicate AllFound(a: Section, b: Section, n: nat)
    requires n <= |a.entries|
    decreases a, 1
  {
    forall i :: 0 <= i < n ==> EntryFound(a, b, i)
  }

  predicate BackFound(a: Section, b: Section, n: nat)
    requires n <= |b.entries|
  {
    forall i :: 0 <= i < n ==> HasEntry(a, b.entries[i].name)
  }

  /* ---- the comparison as the source runs it ---- */

  // The lines of the report.
  datatype Divergence =
    | SectionOnlyInFirst(path: seq<string>)
    | KeyOnlyInFirst(path: seq<string>)
    | KeyHereSectionThere(path: seq<string>)
    | ValuesDiffer(path: seq<string>, first: seq<string>, second: seq<string>)
    | OnlyInSecond(path: seq<string>, isSection: bool)

  // The lines about entry i of the first tree, and about entry i of the second.
  function EntryLines(a: Section, b: Section, path: seq<string>, i: nat): seq<Divergence>
    requires i < |a.entries|
    decreases a, 0
  {
    var name := a.entries[i].name;
    var child := path + [name];
    if a.entries[i].Sub? then
      if FindSub(b, name).None? then [SectionOnlyInFirst(child)]
      else if FindSub(a, name).None? then []
      else Lines(FindSub(a, name).value, FindSub(b, name).value, child)
    else if FindKey(b, name).None? then [if FindSub(b, name).Some? then KeyHereSectionThere(child) else KeyOnlyInFirst(child)]
    else if ValuesOf(FindKey(a, name)) != FindKey(b, name).value then [ValuesDiffer(child, ValuesOf(FindKey(a, name)), FindKey(b, name).value)]
    else []
  }

  function BackLine(a: Section, b: Section, path: seq<string>, i: nat): seq<Divergence>
    requires i < |b.entries|
  {
    var e := b.entries[i];
    if HasEntry(a, e.name) then [] else [OnlyInSecond(path + [e.name], e.Sub?)]
  }

  // The report: the lines of the first n entries, and of all of them.
  function ForwardLines(a: Section, b: Section, path: seq<string>, n: nat): seq<Divergence>
    requires n <= |a.entries|
    decreases a, 1, n
  {
    if n == 0 then [] else ForwardLines(a, b, path, n - 1) + EntryLines(a, b, path, n - 1)
  }

  function BackLines(a: Section, b: Section, path: seq<string>, n: nat): seq<Divergence>
    requires n <= |b.entries|
  {
    if n == 0 then [] else BackLines(a, b, path, n - 1) + BackLine(a, b, path, n - 1)
  }

  function Lines(a: Section, b: Section, path: seq<string>): seq<Divergence>
    decreases a, 2
  {
    ForwardLines(a, b, path, |a.entries|) + BackLines(a, b, path, |b.entries|)
  }

  // cf_section_equal: with a report it goes through everything, without one it stops
  // at the first divergence.  Either way it decides CfEqual, and the report names a
  // divergence exactly when there is one.
  method SectionEqual(a: Section, b: Section, path: seq<string>, report: bool)
    returns (eq: bool, lines: seq<Divergence>)
    ensures eq <==> CfEqual(a, b)
    ensures report ==> lines == Lines(a, b, path) && (eq <==> lines == [])
    ensures !report ==> lines == []
    decreases a, 2
  {
    eq, lines := ForwardEqual(a, b, path, report);
    if eq || report {
      var same, more := BackEqual(a, b, path, report);
      eq, lines := eq && same, lines + more;
    }
  }

  // The forward pass.
  method ForwardEqual(a: Section, b: Section, path: seq<string>, report: bool) returns (eq: bool, lines: seq<Divergence>)
    ensures eq <==> AllFound(a, b, |a.entries|)
    ensures report ==> lines == ForwardLines(a, b, path, |a.entries|) && (eq <==> lines == [])
    ensures !report ==> lines == []
    decreases a, 1
  {
    eq, lines := true, [];
    for i := 0 to |a.entries|
      invariant eq <==> AllFound(a, b, i)
      invariant report ==> lines == ForwardLines(a, b, path, i) && (eq <==> lines == [])
      invariant !report ==> lines == []
    {
      var same, more := EntryEqual(a, b, path, i, report);
      assert ForwardLines(a, b, path, i + 1) == ForwardLines(a, b, path, i) + EntryLines(a, b, path, i);
      eq, lines := eq && same, lines + more;
      if !eq && !report {
        return;
      }
    }
  }

  // One turn of the forward pass.
  method EntryEqual(a: Section, b: Section, path: seq<string>, i: nat, report: bool)
    returns (eq: bool, lines: seq<Divergence>)
    requires i < |a.entries|
    ensures eq <==> EntryFound(a, b, i)
    ensures report ==> lines == EntryLines(a, b, path, i) && (eq <==> lines == [])
    ensures !report ==> lines == []
    decreases a, 0
  {
    var name := a.entries[i].name;
    var child := path + [name];
    eq, lines := true, [];
    if a.entries[i].Sub? {
      var c2 := FindSub(b, name);
      if c2.None? {
        return false, if report then [SectionOnlyInFirst(child)] else [];
      }
      var c1 := FindSub(a, name);
      eq, lines := SectionEqual(c1.value, c2.value, child, report);
    } else {
      var p2 := FindKey(b, name);
      var p1 := FindKey(a, name);
      if p2.None? {
        eq := false;
        if report {
          lines := [if FindSub(b, name).Some? then KeyHereSectionThere(child) else KeyOnlyInFirst(child)];
        }
      } else if ValuesOf(p1) != p2.value {
        eq := false;
        if report {
          lines := [ValuesDiffer(child, ValuesOf(p1), p2.value)];
        }
      }
    }
  }

  // The reverse pass.
  method BackEqual(a: Section, b: Section, path: seq<string>, report: bool) returns (eq: bool, lines: seq<Divergence>)
    ensures eq <==> BackFound(a, b, |b.entries|)
    ensures report ==> lines == BackLines(a, b, path, |b.entries|) && (eq <==> lines == [])
    ensures !report ==> lines == []
  {
    eq, lines := true, [];
    for i := 0 to |b.entries|
      invariant eq <==> BackFound(a, b, i)
      invariant report ==> lines == BackLines(a, b, path, i) && (eq <==> lines == [])
      invariant !report ==> lines == []
    {
      var name := b.entries[i].name;
      if !HasEntry(a, name) {
        eq := false;
        if !report {
          return;
        }
        lines := lines + [OnlyInSecond(path + [name], b.entries[i].Sub?)];
      }
    }
  }

  // What a line can say about two sections, told without the comparison: at the end of a
  // path along subsections of the first tree that are in both.
  ghost predicate Diverges(a: Section, b: Section, names: seq<string>, d: Divergence)
    decreases |names|
  {
    && names != []
    && if |names| == 1 then DivergesHere(a, b, names[0], d)
       else
         && HasSub(a, names[0]) && FindSub(a, names[0]).Some? && FindSub(b, names[0]).Some?
         && Diverges(FindSub(a, names[0]).value, FindSub(b, names[0]).value, names[1..], d)
  }

  ghost predicate DivergesHere(a: Section, b: Section, name: string, d: Divergence) {
    match d
    case SectionOnlyInFirst(_) => HasSub(a, name) && FindSub(b, name).None?
    case KeyOnlyInFirst(_) => HasValues(a, name) && FindKey(b, name).None? && FindSub(b, name).None?
    case KeyHereSectionThere(_) => HasValues(a, name) && FindKey(b, name).None? && FindSub(b, name).Some?
    case ValuesDiffer(_, first, second) =>
      HasValues(a, name) && FindKey(b, name) == Some(second) && ValuesOf(FindKey(a, name)) == first && first != second
    case OnlyInSecond(_, isSection) =>
      (if isSection then HasSub(b, name) else HasValues(b, name)) && !HasEntry(a, name)
  }

  ghost predicate HasSub(s: Section, name: string) {
    exists i :: 0 <= i < |s.entries| && s.entries[i].Sub? && s.entries[i].name == name
  }

  ghost predicate HasValues(s: Section, name: string) {
    exists i :: 0 <= i < |s.entries| && s.entries[i].Key? && s.entries[i].name == name
  }

  // The report has a line exactly for each divergence of the two trees, with its path and
  // its values.
  lemma {:induction false} ReportExact(a: Section, b: Section, path: seq<string>, d: Divergence)
    ensures d in Lines(a, b, path) <==> path <= d.path && Diverges(a, b, d.path[|path|..], d)
    decreases a, 1
  {
    forall i: nat | i < |a.entries|
      ensures LineAt(a, b, path, d, i) <==> path <= d.path && ByEntry(a, b, d.path[|path|..], d, i)
    {
      EntryExact(a, b, path, d, i);
    }
    ForwardHas(a, b, path, d, |a.entries|);
    BackHas(a, b, path, d, |b.entries|);
    if path <= d.path {
      DivergesBy(a, b, d.path[|path|..], d);
    }
  }

  ghost predicate LineAt(a: Section, b: Section, path: seq<string>, d: Divergence, i: nat)
    requires i < |a.entries|
  {
    d in EntryLines(a, b, path, i)
  }

  // Entry i of the first tree is what diverges.
  ghost predicate ByEntry(a: Section, b: Section, names: seq<string>, d: Divergence, i: nat)
    requires i < |a.entries|
  {
    var e := a.entries[i];
    && names != [] && names[0] == e.name
    && if |names| > 1 then
         && e.Sub? && FindSub(a, e.name).Some? && FindSub(b, e.name).Some?
         && Diverges(FindSub(a, e.name).value, FindSub(b, e.name).value, names[1..], d)
       else !d.OnlyInSecond? && (e.Sub? <==> d.SectionOnlyInFirst?) && DivergesHere(a, b, e.name, d)
  }

  ghost predicate ByBack(a: Section, b: Section, names: seq<string>, d: Divergence, i: nat)
    requires i < |b.entries|
  {
    |names| == 1 && names[0] == b.entries[i].name && !HasEntry(a, names[0]) && d.OnlyInSecond? && (d.isSection <==> b.entries[i].Sub?)
  }

  lemma DivergesBy(a: Section, b: Section, names: seq<string>, d: Divergence)
    ensures Diverges(a, b, names, d)
       <==> (exists i: nat :: i < |a.entries| && ByEntry(a, b, names, d, i)) || exists i: nat :: i < |b.entries| && ByBack(a, b, names, d, i)
  {
    if Diverges(a, b, names, d) {
      if d.OnlyInSecond? && |names| == 1 {
        var i: nat :| i < |b.entries| && b.entries[i].name == names[0] && (b.entries[i].Sub? <==> d.isSection);
        assert ByBack(a, b, names, d, i);
      } else {
        var i: nat :| i < |a.entries| && a.entries[i].name == names[0] && (a.entries[i].Sub? <==> (|names| > 1 || d.SectionOnlyInFirst?));
        assert ByEntry(a, b, names, d, i);
      }
    }
  }

  lemma EntryExact(a: Section, b: Section, path: seq<string>, d: Divergence, i: nat)
    requires i < |a.entries|
    ensures LineAt(a, b, path, d, i) <==> path <= d.path && ByEntry(a, b, d.path[|path|..], d, i)
    decreases a, 0
  {
    var name := a.entries[i].name;
    PathStep(path, name, d.path);
    if a.entries[i].Sub? && FindSub(b, name).Some? && FindSub(a, name).Some? {
      ReportExact(FindSub(a, name).value, FindSub(b, name).value, path + [name], d);
    }
  }

  lemma PathStep(path: seq<string>, name: string, p: seq<string>)
    ensures p == path + [name] <==> path <= p && p[|path|..] == [name]
    ensures path + [name] <= p <==> path <= p && |p| > |path| && p[|path|] == name
    ensures path + [name] <= p ==> p[|path|..] == [name] + p[|path| + 1..] && p[|path + [name]|..] == p[|path|..][1..]
  {
  }

  lemma {:induction false} ForwardHas(a: Section, b: Section, path: seq<string>, d: Divergence, n: nat)
    requires n <= |a.entries|
    ensures d in ForwardLines(a, b, path, n) <==> exists i: nat :: i < n && LineAt(a, b, path, d, i)
  {
    if n > 0 {
      ForwardHas(a, b, path, d, n - 1);
      InConcat(d, ForwardLines(a, b, path, n - 1), EntryLines(a, b, path, n - 1));
      assert LineAt(a, b, path, d, n - 1) <==> d in EntryLines(a, b, path, n - 1);
    }
  }

  lemma InConcat(d: Divergence, s: seq<Divergence>, t: seq<Divergence>)
    ensures d in s + t <==> d in s || d in t
  {
  }

  lemma {:induction false} BackHas(a: Section, b: Section, path: seq<string>, d: Divergence, n: nat)
    requires n <= |b.entries|
    ensures d in BackLines(a, b, path, n) <==> path <= d.path && exists i: nat :: i < n && ByBack(a, b, d.path[|path|..], d, i)
  {
    if n > 0 {
      BackHas(a, b, path, d, n - 1);
      PathStep(path, b.entries[n - 1].name, d.path);
      assert d in BackLine(a, b, path, n - 1) <==> path <= d.path && ByBack(a, b, d.path[|path|..], d, n - 1);
      assert d in BackLines(a, b, path, n) <==> d in BackLines(a, b, path, n - 1) || d in BackLine(a, b, path, n - 1);
    }
  }

  /* ---- what a reader of the tree can observe ---- */

  // Open one section after the other, from the root.
  function SectionAt(s: Section, path: seq<string>): Option<Section>
    decreases |path|
  {
    if path == [] then Some(s)
    else if FindSub(s, path[0]).None? then None
    else SectionAt(FindSub(s, path[0]).value, path[1..])
  }

  // Both trees answer a lookup of the key in the section at the path the same way.
  predicate SameAnswer(a: Section, b: Section, path: seq<string>, key: string) {
    var x, y := SectionAt(a, path), SectionAt(b, path);
    x.Some? == y.Some? && (x.Some? ==> FindKey(x.value, key) == FindKey(y.value, key))
  }

  ghost predicate Observed(a: Section, b: Section) {
    forall path, key :: SameAnswer(a, b, path, key)
  }

  lemma SectionAtChild(s: Section, name: string, path: seq<string>)
    ensures SectionAt(s, [name] + path) ==
            if FindSub(s, name).None? then None else SectionAt(FindSub(s, name).value, path)
  {
    assert ([name] + path)[1..] == path;
  }

  lemma ObservedChild(a: Section, b: Section, name: string)
    requires Observed(a, b)
    ensures FindSub(a, name).Some? == FindSub(b, name).Some?
    ensures FindSub(a, name).Some? ==> Observed(FindSub(a, name).value, FindSub(b, name).value)
  {
    assert SameAnswer(a, b, [name] + [], "");
    SectionAtChild(a, name, []);
    SectionAtChild(b, name, []);
    if FindSub(a, name).Some? {
      forall path, key ensures SameAnswer(FindSub(a, name).value, FindSub(b, name).value, path, key) {
        assert SameAnswer(a, b, [name] + path, key);
        SectionAtChild(a, name, path);
        SectionAtChild(b, name, path);
      }
    }
  }

  lemma ObservedKey(a: Section, b: Section, key: string)
    requires Observed(a, b)
    ensures FindKey(a, key) == FindKey(b, key)
  {
    assert SameAnswer(a, b, [], key);
  }

  lemma {:induction false} FindSubSame(es: seq<Entry>, m: string, n: string)
    requires SameName(m, n)
    ensures FindSubIn(es, m) == FindSubIn(es, n)
  {
    if es != [] {
      FindSubSame(es[1..], m, n);
    }
  }

  /* ---- when the comparison means observational equality ---- */

  // No name answers both as a key and as a section.
  predicate Separate(s: Section, i: nat)
    requires i < |s.entries|
    decreases s, 0
  {
    var e := s.entries[i];
    if e.Key? then FindKey(s, e.name).None? || FindSub(s, e.name).None?
    else FindSub(s, e.name).Some? && NoClash(FindSub(s, e.name).value)
  }

  predicate NoClash(s: Section)
    decreases s, 1
  {
    forall i :: 0 <= i < |s.entries| ==> Separate(s, i)
  }

  // No key is hidden by an earlier section of exactly its name.
  predicate Readable(s: Section, i: nat)
    requires i < |s.entries|
    decreases s, 0
  {
    var e := s.entries[i];
    if e.Key? then FindKey(s, e.name).Some? else FindSub(s, e.name).Some? && NoHiddenKey(FindSub(s, e.name).value)
  }

  predicate NoHiddenKey(s: Section)
    decreases s, 1
  {
    forall i :: 0 <= i < |s.entries| ==> Readable(s, i)
  }

  // A section that opens in the first tree opens in the second, and they are equal.
  lemma SubGoesOver(a: Section, b: Section, name: string)
    requires CfEqual(a, b) && FindSub(a, name).Some?
    ensures FindSub(b, name).Some? && CfEqual(FindSub(a, name).value, FindSub(b, name).value)
  {
    var i :| 0 <= i < |a.entries| && a.entries[i].Sub? && SameName(a.entries[i].name, name);
    assert EntryFound(a, b, i);
    FindSubSame(a.entries, a.entries[i].name, name);
    FindSubSame(b.entries, a.entries[i].name, name);
  }

  // A key that answers in the first tree answers the same in the second.
  lemma KeyGoesOver(a: Section, b: Section, name: string)
    requires CfEqual(a, b) && FindKey(a, name).Some?
    ensures FindKey(b, name) == FindKey(a, name)
  {
    var i :| 0 <= i < |a.entries| && a.entries[i] == Key(name, FindKey(a, name).value);
    assert EntryFound(a, b, i);
  }

  lemma NoClashHere(s: Section, name: string)
    requires NoClash(s)
    ensures FindKey(s, name).None? || FindSub(s, name).None?
    ensures FindSub(s, name).Some? ==> NoClash(FindSub(s, name).value)
  {
    if FindKey(s, name).Some? {
      var i :| 0 <= i < |s.entries| && s.entries[i] == Key(name, FindKey(s, name).value);
      assert Separate(s, i);
    }
    if FindSub(s, name).Some? {
      var i :| 0 <= i < |s.entries| && s.entries[i].Sub? && SameName(s.entries[i].name, name);
      assert Separate(s, i);
      FindSubSame(s.entries, s.entries[i].name, name);
    }
  }

  // A section or a key that answers in the second tree only would clash there.
  lemma SubComesBack(a: Section, b: Section, name: string)
    requires CfEqual(a, b) && NoClash(b) && FindSub(b, name).Some?
    ensures FindSub(a, name).Some?
  {
    var i :| 0 <= i < |b.entries| && b.entries[i].Sub? && SameName(b.entries[i].name, name);
    var m := b.entries[i].name;
    assert HasEntry(a, m);
    FindSubSame(a.entries, m, name);
    FindSubSame(b.entries, m, name);
    if FindSub(a, m).None? {
      KeyGoesOver(a, b, m);
      NoClashHere(b, m);
    }
  }

  lemma KeyComesBack(a: Section, b: Section, name: string)
    requires CfEqual(a, b) && NoClash(b) && FindKey(b, name).Some?
    ensures FindKey(a, name) == FindKey(b, name)
  {
    var i :| 0 <= i < |b.entries| && b.entries[i] == Key(name, FindKey(b, name).value);
    assert HasEntry(a, b.entries[i].name);
    if FindKey(a, name).Some? {
      KeyGoesOver(a, b, name);
    } else {
      SubGoesOver(a, b, name);
      NoClashHere(b, name);
    }
  }

  // One level: equal sections answer the same, provided the second has no clash.
  lemma EqualLevel(a: Section, b: Section, name: string)
    requires CfEqual(a, b) && NoClash(b)
    ensures FindKey(a, name) == FindKey(b, name)
    ensures FindSub(a, name).Some? == FindSub(b, name).Some?
    ensures FindSub(a, name).Some? ==> CfEqual(FindSub(a, name).value, FindSub(b, name).value) && NoClash(FindSub(b, name).value)
  {
    if FindSub(a, name).Some? { SubGoesOver(a, b, name); }
    if FindSub(b, name).Some? { SubComesBack(a, b, name); }
    if FindKey(a, name).Some? { KeyGoesOver(a, b, name); }
    if FindKey(b, name).Some? { KeyComesBack(a, b, name); }
    NoClashHere(b, name);
  }

  lemma {:induction false} EqualAnswers(a: Section, b: Section, path: seq<string>, key: string)
    requires CfEqual(a, b) && NoClash(b)
    ensures SameAnswer(a, b, path, key)
    decreases |path|
  {
    if path == [] {
      EqualLevel(a, b, key);
    } else {
      EqualLevel(a, b, path[0]);
      if FindSub(a, path[0]).Some? {
        EqualAnswers(FindSub(a, path[0]).value, FindSub(b, path[0]).value, path[1..], key);
      }
    }
  }

  // Trees that the comparison accepts cannot be told apart by a reader.
  lemma EqualIsObserved(a: Section, b: Section)
    requires CfEqual(a, b) && NoClash(b)
    ensures Observed(a, b)
  {
    forall path, key ensures SameAnswer(a, b, path, key) {
      EqualAnswers(a, b, path, key);
    }
  }

  // Trees that cannot be told apart are accepted exactly when the first has no
  // hidden key.
  lemma {:induction false} ObservedIsEqualIff(a: Section, b: Section)
    requires Observed(a, b)
    ensures CfEqual(a, b) <==> NoHiddenKey(a)
    decreases a
  {
    forall i | 0 <= i < |a.entries|
      ensures EntryFound(a, b, i) <==> Readable(a, i)
    {
      var name := a.entries[i].name;
      ObservedKey(a, b, name);
      ObservedChild(a, b, name);
      if a.entries[i].Sub? {
        ObservedIsEqualIff(FindSub(a, name).value, FindSub(b, name).value);
      }
    }
    forall i | 0 <= i < |b.entries| ensures HasEntry(a, b.entries[i].name) {
      EntryAnswers(b.entries, i);
      ObservedKey(a, b, b.entries[i].name);
      ObservedChild(a, b, b.entries[i].name);
    }
    assert BackFound(a, b, |b.entries|);
    if AllFound(a, b, |a.entries|) {
      forall i | 0 <= i < |a.entries| ensures Readable(a, i) {
        assert EntryFound(a, b, i);
      }
      assert NoHiddenKey(a);
    }
    if NoHiddenKey(a) {
      forall i | 0 <= i < |a.entries| ensures EntryFound(a, b, i) {
        assert Readable(a, i);
      }
      assert AllFound(a, b, |a.entries|);
    }
  }

  // The name of an entry always answers, as a key or as a section.
  lemma {:induction false} EntryAnswers(es: seq<Entry>, i: nat)
    requires i < |es|
    ensures FindSubIn(es, es[i].name).Some? || FindKeyIn(es, es[i].name).Some?
  {
    if es[0].name != es[i].name {
      EntryAnswers(es[1..], i - 1);
    } else {
      assert SameName(es[0].name, es[i].name);
    }
  }

  /* ---- the condition is exact ---- */

  // The keys of s that answer, except the dropped one.
  function KeysOf(es: seq<Entry>, s: Section, drop: Option<string>): (r: seq<Entry>)
    ensures forall i :: 0 <= i < |r| ==> r[i].Key? && FindKey(s, r[i].name).Some? && Some(r[i].name) != drop
  {
    if es == [] then [] else
      (if es[0].Key? && FindKey(s, es[0].name).Some? && Some(es[0].name) != drop
       then [Key(es[0].name, FindKey(s, es[0].name).value)] else []) + KeysOf(es[1..], s, drop)
  }

  // The sections of s, all rebuilt the same way except the ones named like `at`.
  function SubsOf(es: seq<Entry>, at: Option<(string, Section)>): (r: seq<Entry>)
    ensures forall i :: 0 <= i < |r| ==> r[i].Sub? && FindSubIn(es, r[i].name).Some?
    decreases es, 0
  {
    if es == [] then [] else
      (if es[0].Sub?
       then [Sub(es[0].name, if at.Some? && SameName(es[0].name, at.value.0) then at.value.1 else Rebuilt(es[0].section))]
       else []) + SubsOf(es[1..], at)
  }

  function Rebuilt(s: Section): Section
    decreases s, 1
  {
    Section(KeysOf(s.entries, s, None) + SubsOf(s.entries, None))
  }

  // s with its readable keys first, one key left out and one section replaced.
  function Variant(s: Section, drop: Option<string>, at: Option<(string, Section)>): Section {
    Section(KeysOf(s.entries, s, drop) + SubsOf(s.entries, at))
  }

  lemma {:induction false} FindKeyConcat(x: seq<Entry>, y: seq<Entry>, name: string)
    requires forall i :: 0 <= i < |x| ==> x[i].Key?
    requires forall i :: 0 <= i < |y| ==> y[i].Sub?
    ensures FindKeyIn(x + y, name) == FindKeyIn(x, name)
  {
    if x == [] {
      assert x + y == y;
    } else {
      assert (x + y)[1..] == x[1..] + y;
      FindKeyConcat(x[1..], y, name);
    }
  }

  lemma {:induction false} FindSubConcat(x: seq<Entry>, y: seq<Entry>, name: string)
    requires forall i :: 0 <= i < |x| ==> x[i].Key?
    ensures FindSubIn(x + y, name) == FindSubIn(y, name)
  {
    if x == [] {
      assert x + y == y;
    } else {
      assert (x + y)[1..] == x[1..] + y;
      FindSubConcat(x[1..], y, name);
    }
  }

  lemma {:induction false} FindInKeysOf(es: seq<Entry>, s: Section, drop: Option<string>, name: string)
    ensures FindKeyIn(KeysOf(es, s, drop), name) ==
            if Some(name) != drop && FindKey(s, name).Some? && (exists i :: 0 <= i < |es| && es[i].Key? && es[i].name == name)
            then FindKey(s, name) else None
  {
    if es != [] {
      FindInKeysOf(es[1..], s, drop, name);
      var rest := KeysOf(es[1..], s, drop);
      if KeysOf(es, s, drop) != rest {
        assert KeysOf(es, s, drop)[1..] == rest;
      }
    }
  }

  lemma SameNameLike(m: string, n: string, x: string)
    requires SameName(m, n)
    ensures SameName(m, x) <==> SameName(n, x)
  {
  }

  lemma FindSubCons(e: Entry, rest: seq<Entry>, name: string)
    ensures FindSubIn([e] + rest, name) ==
            if e.Sub? && SameName(e.name, name) then Some(e.section) else FindSubIn(rest, name)
  {
    assert ([e] + rest)[1..] == rest;
  }

  lemma {:induction false} FindInSubsOf(es: seq<Entry>, at: Option<(string, Section)>, name: string)
    ensures FindSubIn(SubsOf(es, at), name) ==
            if FindSubIn(es, name).None? then None
            else if at.Some? && SameName(name, at.value.0) then Some(at.value.1)
            else Some(Rebuilt(FindSubIn(es, name).value))
  {
    if es != [] {
      var e, rest := es[0], es[1..];
      FindInSubsOf(rest, at, name);
      assert es == [e] + rest;
      FindSubCons(e, rest, name);
      if e.Sub? {
        var f := SubsOf(es, at)[0];
        assert SubsOf(es, at) == [f] + SubsOf(rest, at);
        FindSubCons(f, SubsOf(rest, at), name);
        if SameName(e.name, name) && at.Some? {
          SameNameLike(e.name, name, at.value.0);
        }
      } else {
        assert SubsOf(es, at) == SubsOf(rest, at);
      }
    }
  }

  lemma VariantKey(s: Section, drop: Option<string>, at: Option<(string, Section)>, name: string)
    ensures FindKey(Variant(s, drop, at), name) == if Some(name) == drop then None else FindKey(s, name)
  {
    FindKeyConcat(KeysOf(s.entries, s, drop), SubsOf(s.entries, at), name);
    FindInKeysOf(s.entries, s, drop, name);
    if FindKey(s, name).Some? {
      var i :| 0 <= i < |s.entries| && s.entries[i] == Key(name, FindKey(s, name).value);
    }
  }

  lemma VariantSub(s: Section, drop: Option<string>, at: Option<(string, Section)>, name: string)
    ensures FindSub(Variant(s, drop, at), name) ==
            if FindSub(s, name).None? then None
            else if at.Some? && SameName(name, at.value.0) then Some(at.value.1)
            else Some(Rebuilt(FindSub(s, name).value))
  {
    FindSubConcat(KeysOf(s.entries, s, drop), SubsOf(s.entries, at), name);
    FindInSubsOf(s.entries, at, name);
  }

  // A variant is accepted when the dropped key's name still opens a section and the
  // replacement is accepted for the section it replaces.
  lemma {:induction false} VariantEqual(s: Section, drop: Option<string>, at: Option<(string, Section)>)
    requires drop.Some? ==> FindSub(s, drop.value).Some?
    requires at.Some? ==> FindSub(s, at.value.0).Some? && CfEqual(at.value.1, FindSub(s, at.value.0).value) && NoHiddenKey(at.value.1)
    ensures CfEqual(Variant(s, drop, at), s) && NoHiddenKey(Variant(s, drop, at))
    decreases s
  {
    var v := Variant(s, drop, at);
    forall i | 0 <= i < |v.entries| ensures EntryFound(v, s, i) && Readable(v, i) {
      var name := v.entries[i].name;
      VariantKey(s, drop, at, name);
      VariantSub(s, drop, at, name);
      if v.entries[i].Sub? {
        if at.Some? && SameName(name, at.value.0) {
          FindSubSame(s.entries, name, at.value.0);
        } else {
          VariantEqual(FindSub(s, name).value, None, None);
        }
      }
    }
    forall i | 0 <= i < |s.entries| ensures HasEntry(v, s.entries[i].name) {
      EntryAnswers(s.entries, i);
      VariantKey(s, drop, at, s.entries[i].name);
      VariantSub(s, drop, at, s.entries[i].name);
    }
  }

  // Every tree with a clash is accepted for some tree, itself without hidden keys,
  // that a reader can tell from it.
  lemma {:induction false} ClashWitness(b: Section) returns (a: Section)
    requires !NoClash(b)
    ensures NoHiddenKey(a) && CfEqual(a, b) && !Observed(a, b)
    decreases b
  {
    var i :| 0 <= i < |b.entries| && !Separate(b, i);
    var name := b.entries[i].name;
    if b.entries[i].Key? {
      a := Variant(b, Some(name), None);
      VariantEqual(b, Some(name), None);
      VariantKey(b, Some(name), None, name);
      if Observed(a, b) {
        ObservedKey(a, b, name);
      }
    } else {
      assert SameName(name, name);
      var w := ClashWitness(FindSub(b, name).value);
      a := Variant(b, None, Some((name, w)));
      VariantEqual(b, None, Some((name, w)));
      VariantSub(b, None, Some((name, w)), name);
      if Observed(a, b) {
        ObservedChild(a, b, name);
      }
    }
  }

  // The exact condition: comparing against b decides observational equality, for
  // every tree without hidden keys, if and only if b has no clash.
  lemma EqualDecidesObservedIff(b: Section)
    ensures NoClash(b) <==> forall a :: NoHiddenKey(a) ==> (CfEqual(a, b) <==> Observed(a, b))
  {
    if NoClash(b) {
      forall a | NoHiddenKey(a) ensures CfEqual(a, b) <==> Observed(a, b) {
        if CfEqual(a, b) {
          EqualIsObserved(a, b);
        }
        if Observed(a, b) {
          ObservedIsEqualIff(a, b);
        }
      }
    } else {
      var a := ClashWitness(b);
    }
  }

  // On trees with neither hidden keys nor clashes the comparison is an equivalence.
  lemma EqualIsEquivalence(a: Section, b: Section, c: Section)
    requires NoHiddenKey(a) && NoHiddenKey(b) && NoClash(a) && NoClash(b) && NoClash(c)
    ensures CfEqual(a, a)
    ensures CfEqual(a, b) ==> CfEqual(b, a)
    ensures CfEqual(a, b) && CfEqual(b, c) ==> CfEqual(a, c)
  {
    ObservedIsEqualIff(a, a);
    if CfEqual(a, b) {
      EqualIsObserved(a, b);
      forall path, key ensures SameAnswer(b, a, path, key) {
        assert SameAnswer(a, b, path, key);
      }
      ObservedIsEqualIff(b, a);
      if CfEqual(b, c) {
        EqualIsObserved(b, c);
        forall path, key ensures SameAnswer(a, c, path, key) {
          assert SameAnswer(a, b, path, key) && SameAnswer(b, c, path, key);
        }
        ObservedIsEqualIff(a, c);
      }
    }
  }

  // A section "a" before a key "a": the tree differs from itself.
  lemma HiddenKeyNotReflexive()
    ensures var t := Section([Sub("a", Section([])), Key("a", ["x"])]); !CfEqual(t, t) && Observed(t, t)
  {
    var t := Section([Sub("a", Section([])), Key("a", ["x"])]);
    assert !EntryFound(t, t, 1);
  }

  // A key that only the second tree has goes unnoticed beside a section of its name.
  lemma ClashUnnoticed()
    ensures var t := Section([Sub("a", Section([]))]);
            var u := Section([Key("a", ["x"]), Sub("a", Section([]))]);
            CfEqual(t, u) && !Observed(t, u)
  {
    var t := Section([Sub("a", Section([]))]);
    var u := Section([Key("a", ["x"]), Sub("a", Section([]))]);
    assert u.entries[1..] == t.entries;
    assert EntryFound(t, u, 0);
    if Observed(t, u) {
      ObservedKey(t, u, "a");
    }
  }
}
