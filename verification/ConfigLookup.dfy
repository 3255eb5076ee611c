/** Looking a path up in a tidy tree and finding it in the flat lists are the same thing. */
module ConfigLookup {
  import opened Bytes
  import opened ConfigValue
  import opened ConfigTree
  import opened ConfigFlatten

  // ----- where listed paths can be

  lemma {:induction false} SectionsBelow(section: Section, at: Path, p: Path)
    requires p in Sections(section, at)
    ensures at <= p
    decreases section, 1
  {
    if p != at {
      ChildSectionsBelow(section.sections, at, p);
    }
  }

  lemma {:induction false} ChildSectionsBelow(children: seq<Child>, at: Path, p: Path)
    requires p in ChildSections(children, at)
    ensures |at| < |p| && at <= p && FindSection(children, p[|at|]).Some?
    decreases children, 0
  {
    var c := children[0];
    if p in Sections(c.section, at + [c.name]) {
      SectionsBelow(c.section, at + [c.name], p);
      assert p[|at|] == (at + [c.name])[|at|];
    } else {
      ChildSectionsBelow(children[1..], at, p);
    }
  }

  lemma {:induction false} KeysBelow(section: Section, at: Path, e: (Path, Value))
    requires e in Keys(section, at)
    ensures |at| < |e.0| && at <= e.0
    decreases section, 1
  {
    if e in ScalarPaths(section.scalars, at) {
      ScalarsBelow(section.scalars, at, e);
    } else {
      ChildKeysBelow(section.sections, at, e);
    }
  }

  lemma {:induction false} ScalarsBelow(scalars: seq<Entry>, at: Path, e: (Path, Value))
    requires e in ScalarPaths(scalars, at)
    ensures |e.0| == |at| + 1 && at <= e.0 && FindScalar(scalars, e.0[|at|]).Some?
  {
    if e != (at + [scalars[0].name], scalars[0].value) {
      ScalarsBelow(scalars[1..], at, e);
    }
  }

  lemma {:induction false} ChildKeysBelow(children: seq<Child>, at: Path, e: (Path, Value))
    requires e in ChildKeys(children, at)
    ensures |at| + 1 < |e.0| && at <= e.0 && FindSection(children, e.0[|at|]).Some?
    decreases children, 0
  {
    var c := children[0];
    if e in Keys(c.section, at + [c.name]) {
      KeysBelow(c.section, at + [c.name], e);
      assert e.0[|at|] == (at + [c.name])[|at|];
    } else {
      ChildKeysBelow(children[1..], at, e);
    }
  }

  lemma PrefixAt(at: Path, name: string, p: Path)
    ensures at + [name] <= p ==> p[|at|] == name
  {
    if at + [name] <= p {
      assert p[|at|] == (at + [name])[|at|];
    }
  }

  // ----- listed exactly when it resolves

  lemma {:induction false} SectionListed(section: Section, at: Path, q: Path)
    requires Tidy(section)
    ensures at + q in Sections(section, at) <==> Resolve(section, q).Some?
    decreases section, 1
  {
    ChildSectionListed(section.sections, at, q);
    if q == [] {
      assert at + q == at;
    } else {
      assert at + q != at;
    }
  }

  lemma {:induction false} ChildSectionListed(children: seq<Child>, at: Path, q: Path)
    requires TidyChildren(children)
    ensures at + q in ChildSections(children, at)
       <==> q != [] && FindSection(children, q[0]).Some? && Resolve(FindSection(children, q[0]).value, q[1..]).Some?
    decreases children, 0
  {
    if children != [] {
      var c, rest, p := children[0], children[1..], at + q;
      ChildSectionListed(rest, at, q);
      PrefixAt(at, c.name, p);
      if q == [] {
        if p in ChildSections(children, at) {
          ChildSectionsBelow(children, at, p);
        }
      } else if q[0] == c.name {
        SectionListed(c.section, at + [c.name], q[1..]);
        assert at + [c.name] + q[1..] == p;
        if p in ChildSections(rest, at) {
          ChildSectionsBelow(rest, at, p);
        }
      } else if p in Sections(c.section, at + [c.name]) {
        SectionsBelow(c.section, at + [c.name], p);
      }
    }
  }

  lemma {:induction false} KeyListed(section: Section, at: Path, q: Path, v: Value)
    requires Tidy(section)
    ensures (at + q, v) in Keys(section, at) <==> ResolveKey(section, q) == Some(v)
    decreases section, 1
  {
    ScalarListed(section.scalars, at, q, v);
    ChildKeyListed(section.sections, at, q, v);
  }

  lemma {:induction false} ScalarListed(scalars: seq<Entry>, at: Path, q: Path, v: Value)
    requires DistinctScalars(scalars)
    ensures (at + q, v) in ScalarPaths(scalars, at) <==> |q| == 1 && FindScalar(scalars, q[0]) == Some(v)
    decreases |scalars|
  {
    if scalars != [] {
      ScalarListed(scalars[1..], at, q, v);
      var head := (at + [scalars[0].name], scalars[0].value);
      if (at + q, v) == head {
        assert |at + q| == |at + [scalars[0].name]|;
        assert (at + q)[|at|] == q[0];
      }
      if |q| == 1 && q[0] == scalars[0].name {
        assert q == [scalars[0].name];
      }
    }
  }

  lemma {:induction false} ChildKeyListed(children: seq<Child>, at: Path, q: Path, v: Value)
    requires TidyChildren(children)
    ensures (at + q, v) in ChildKeys(children, at)
       <==> && |q| > 1 && FindSection(children, q[0]).Some?
            && ResolveKey(FindSection(children, q[0]).value, q[1..]) == Some(v)
    decreases children, 0
  {
    if children != [] {
      var c, rest, e := children[0], children[1..], (at + q, v);
      ChildKeyListed(rest, at, q, v);
      PrefixAt(at, c.name, e.0);
      if |q| <= 1 {
        if e in ChildKeys(children, at) {
          ChildKeysBelow(children, at, e);
        }
      } else if q[0] == c.name {
        KeyListed(c.section, at + [c.name], q[1..], v);
        assert at + [c.name] + q[1..] == e.0;
        if e in ChildKeys(rest, at) {
          ChildKeysBelow(rest, at, e);
        }
      } else if e in Keys(c.section, at + [c.name]) {
        KeysBelow(c.section, at + [c.name], e);
      }
    }
  }

  // ----- no path is listed twice

  predicate Distinct<T(==)>(s: seq<T>) {
    forall i, j :: 0 <= i < j < |s| ==> s[i] != s[j]
  }

  lemma DistinctConcat<T>(a: seq<T>, b: seq<T>)
    requires Distinct(a) && Distinct(b) && forall x :: x in a ==> x !in b
    ensures Distinct(a + b)
  {
    var s := a + b;
    forall i, j | 0 <= i < j < |s| ensures s[i] != s[j] {
      if i < |a| <= j {
        assert s[i] in a && s[j] in b;
      }
    }
  }

  lemma {:induction false} SectionsDistinct(section: Section, at: Path)
    requires Tidy(section)
    ensures Distinct(Sections(section, at))
    decreases section, 1
  {
    ChildSectionsDistinct(section.sections, at);
    if at in ChildSections(section.sections, at) {
      ChildSectionsBelow(section.sections, at, at);
    }
    DistinctConcat([at], ChildSections(section.sections, at));
  }

  lemma {:induction false} ChildSectionsDistinct(children: seq<Child>, at: Path)
    requires TidyChildren(children)
    ensures Distinct(ChildSections(children, at))
    decreases children, 0
  {
    if children != [] {
      var c := children[0];
      SectionsDistinct(c.section, at + [c.name]);
      ChildSectionsDistinct(children[1..], at);
      var rest := children[1..];
      forall p | p in Sections(c.section, at + [c.name]) ensures p !in ChildSections(rest, at) {
        SectionsBelow(c.section, at + [c.name], p);
        PrefixAt(at, c.name, p);
        if p in ChildSections(rest, at) {
          ChildSectionsBelow(rest, at, p);
        }
      }
      DistinctConcat(Sections(c.section, at + [c.name]), ChildSections(children[1..], at));
    }
  }

  predicate DistinctPaths(s: seq<(Path, Value)>) {
    forall i, j :: 0 <= i < j < |s| ==> s[i].0 != s[j].0
  }

  lemma DistinctPathsConcat(a: seq<(Path, Value)>, b: seq<(Path, Value)>)
    requires DistinctPaths(a) && DistinctPaths(b)
    requires forall x, y :: x in a && y in b ==> x.0 != y.0
    ensures DistinctPaths(a + b)
  {
    var s := a + b;
    forall i, j | 0 <= i < j < |s| ensures s[i].0 != s[j].0 {
      if i < |a| <= j {
        assert s[i] in a && s[j] in b;
      }
    }
  }

  lemma {:induction false} KeysDistinct(section: Section, at: Path)
    requires Tidy(section)
    ensures DistinctPaths(Keys(section, at))
    decreases section, 1
  {
    ScalarsDistinct(section.scalars, at);
    ChildKeysDistinct(section.sections, at);
    forall x, y | x in ScalarPaths(section.scalars, at) && y in ChildKeys(section.sections, at) ensures x.0 != y.0 {
      ScalarsBelow(section.scalars, at, x);
      ChildKeysBelow(section.sections, at, y);
    }
    DistinctPathsConcat(ScalarPaths(section.scalars, at), ChildKeys(section.sections, at));
  }

  lemma {:induction false} ScalarsDistinct(scalars: seq<Entry>, at: Path)
    requires DistinctScalars(scalars)
    ensures DistinctPaths(ScalarPaths(scalars, at))
    decreases |scalars|
  {
    if scalars != [] {
      ScalarsDistinct(scalars[1..], at);
      var head := [(at + [scalars[0].name], scalars[0].value)];
      forall x, y | x in head && y in ScalarPaths(scalars[1..], at) ensures x.0 != y.0 {
        ScalarsBelow(scalars[1..], at, y);
        assert x.0[|at|] == scalars[0].name;
      }
      DistinctPathsConcat(head, ScalarPaths(scalars[1..], at));
    }
  }

  lemma {:induction false} ChildKeysDistinct(children: seq<Child>, at: Path)
    requires TidyChildren(children)
    ensures DistinctPaths(ChildKeys(children, at))
    decreases children, 0
  {
    if children != [] {
      var c := children[0];
      KeysDistinct(c.section, at + [c.name]);
      ChildKeysDistinct(children[1..], at);
      forall x, y | x in Keys(c.section, at + [c.name]) && y in ChildKeys(children[1..], at) ensures x.0 != y.0 {
        KeysBelow(c.section, at + [c.name], x);
        assert x.0[|at|] == (at + [c.name])[|at|] == c.name;
        ChildKeysBelow(children[1..], at, y);
      }
      DistinctPathsConcat(Keys(c.section, at + [c.name]), ChildKeys(children[1..], at));
    }
  }
}
