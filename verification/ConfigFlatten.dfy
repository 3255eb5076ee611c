/** The tree, the stack that builds it, and the flat lists all describe the same document. */
module ConfigFlatten {
  import opened Sequences
  import opened Bytes
  import opened ConfigValue
  import opened ConfigTree

  // ----- sibling names are distinct, all the way down

  predicate DistinctScalars(scalars: seq<Entry>) {
    scalars == [] || (FindScalar(scalars[1..], scalars[0].name).None? && DistinctScalars(scalars[1..]))
  }

  predicate Tidy(section: Section)
    decreases section, 1
  {
    DistinctScalars(section.scalars) && TidyChildren(section.sections)
  }

  predicate TidyChildren(children: seq<Child>)
    decreases children, 0
  {
    children == [] ||
    (Tidy(children[0].section) && FindSection(children[1..], children[0].name).None? && TidyChildren(children[1..]))
  }

  // ----- appending

  lemma {:induction false} FindSectionSnoc(children: seq<Child>, c: Child, name: string)
    ensures FindSection(children + [c], name) ==
            if FindSection(children, name).Some? then FindSection(children, name)
            else if c.name == name then Some(c.section) else None
    decreases |children|
  {
    if children == [] {
      assert children + [c] == [c] && [c][1..] == [];
    } else {
      assert (children + [c])[1..] == children[1..] + [c];
      FindSectionSnoc(children[1..], c, name);
    }
  }

  lemma {:induction false} FindScalarSnoc(scalars: seq<Entry>, e: Entry, name: string)
    ensures FindScalar(scalars + [e], name) ==
            if FindScalar(scalars, name).Some? then FindScalar(scalars, name)
            else if e.name == name then Some(e.value) else None
    decreases |scalars|
  {
    if scalars == [] {
      assert scalars + [e] == [e] && [e][1..] == [];
    } else {
      assert (scalars + [e])[1..] == scalars[1..] + [e];
      FindScalarSnoc(scalars[1..], e, name);
    }
  }

  lemma {:induction false} TidyChildrenSnoc(children: seq<Child>, c: Child)
    requires TidyChildren(children) && Tidy(c.section) && FindSection(children, c.name).None?
    ensures TidyChildren(children + [c])
    decreases |children|
  {
    if children == [] {
      assert children + [c] == [c] && [c][1..] == [];
    } else {
      assert (children + [c])[1..] == children[1..] + [c];
      FindSectionSnoc(children[1..], c, children[0].name);
      TidyChildrenSnoc(children[1..], c);
    }
  }

  lemma {:induction false} DistinctScalarsSnoc(scalars: seq<Entry>, e: Entry)
    requires DistinctScalars(scalars) && FindScalar(scalars, e.name).None?
    ensures DistinctScalars(scalars + [e])
    decreases |scalars|
  {
    if scalars == [] {
      assert scalars + [e] == [e] && [e][1..] == [];
    } else {
      assert (scalars + [e])[1..] == scalars[1..] + [e];
      FindScalarSnoc(scalars[1..], e, scalars[0].name);
      DistinctScalarsSnoc(scalars[1..], e);
    }
  }

  lemma {:induction false} ChildSectionsSnoc(children: seq<Child>, c: Child, at: Path)
    ensures ChildSections(children + [c], at) == ChildSections(children, at) + Sections(c.section, at + [c.name])
    decreases |children|
  {
    if children == [] {
      assert children + [c] == [c] && [c][1..] == [];
    } else {
      assert (children + [c])[1..] == children[1..] + [c];
      ChildSectionsSnoc(children[1..], c, at);
    }
  }

  lemma {:induction false} ChildKeysSnoc(children: seq<Child>, c: Child, at: Path)
    ensures ChildKeys(children + [c], at) == ChildKeys(children, at) + Keys(c.section, at + [c.name])
    decreases |children|
  {
    if children == [] {
      assert children + [c] == [c] && [c][1..] == [];
    } else {
      assert (children + [c])[1..] == children[1..] + [c];
      ChildKeysSnoc(children[1..], c, at);
    }
  }

  lemma {:induction false} ScalarPathsSnoc(scalars: seq<Entry>, e: Entry, at: Path)
    ensures ScalarPaths(scalars + [e], at) == ScalarPaths(scalars, at) + [(at + [e.name], e.value)]
    decreases |scalars|
  {
    if scalars == [] {
      assert scalars + [e] == [e] && [e][1..] == [];
    } else {
      assert (scalars + [e])[1..] == scalars[1..] + [e];
      ScalarPathsSnoc(scalars[1..], e, at);
    }
  }

  lemma SectionsSnoc(section: Section, c: Child, at: Path)
    ensures Sections(section.(sections := section.sections + [c]), at)
         == Sections(section, at) + Sections(c.section, at + [c.name])
  {
    ChildSectionsSnoc(section.sections, c, at);
  }

  lemma KeysSnoc(section: Section, c: Child, at: Path)
    ensures Keys(section.(sections := section.sections + [c]), at) == Keys(section, at) + Keys(c.section, at + [c.name])
  {
    ChildKeysSnoc(section.sections, c, at);
  }

  // ----- the stack read off in document order

  function Names(open: seq<Frame>): (r: Path)
    ensures |r| == |open|
  {
    if open == [] then [] else Names(open[..|open| - 1]) + [open[|open| - 1].name]
  }

  function StackSections(root: Section, open: seq<Frame>): seq<Path> {
    if open == [] then ChildSections(root.sections, [])
    else StackSections(root, open[..|open| - 1]) + Sections(open[|open| - 1].section, Names(open))
  }

  function StackKeys(root: Section, open: seq<Frame>): seq<(Path, Value)> {
    if open == [] then Keys(root, [])
    else StackKeys(root, open[..|open| - 1]) + Keys(open[|open| - 1].section, Names(open))
  }

  /** Depths count up from one, names are new among their siblings, and everything open is tidy. */
  predicate TidyStack(root: Section, open: seq<Frame>) {
    if open == [] then Tidy(root)
    else
      var n := |open| - 1;
      && TidyStack(root, open[..n])
      && Tidy(open[n].section) && open[n].depth == n + 1
      && FindSection(CurrentSection(Stack(root, open[..n])).sections, open[n].name).None?
  }

  lemma PoppedOpen(s: Stack)
    requires |s.open| >= 2
    ensures var n := |s.open| - 1;
            var g := s.open[n - 1];
            var child := Child(s.open[n].name, s.open[n].section);
            var g' := g.(section := g.section.(sections := g.section.sections + [child]));
            Popped(s) == s.(open := s.open[..n - 1] + [g'])
  {
    var n := |s.open| - 1;
    assert s.open[..n][..n - 1] == s.open[..n - 1];
  }

  lemma PoppedNames(s: Stack)
    requires s.open != []
    ensures Names(Popped(s).open) == Names(s.open[..|s.open| - 1])
    ensures Names(s.open) == Names(Popped(s).open) + [s.open[|s.open| - 1].name]
  {
    var n := |s.open| - 1;
    if n > 0 {
      PoppedOpen(s);
      var open' := Popped(s).open;
      assert open'[..|open'| - 1] == s.open[..n - 1] == s.open[..n][..n - 1];
    }
  }

  /** Attaching a section to the one around it changes nothing in document order. */
  lemma PoppingKeepsSections(s: Stack)
    requires s.open != []
    ensures StackSections(Popped(s).root, Popped(s).open) == StackSections(s.root, s.open)
  {
    var n := |s.open| - 1;
    var c := Child(s.open[n].name, s.open[n].section);
    PoppedNames(s);
    if n == 0 {
      ChildSectionsSnoc(s.root.sections, c, []);
    } else {
      PoppedOpen(s);
      var open' := Popped(s).open;
      assert open'[..|open'| - 1] == s.open[..n - 1] == s.open[..n][..n - 1];
      SectionsSnoc(s.open[n - 1].section, c, Names(open'));
      Regroup(StackSections(s.root, s.open[..n - 1]), Sections(s.open[n - 1].section, Names(open')),
              Sections(c.section, Names(s.open)));
    }
  }

  lemma PoppingKeepsKeys(s: Stack)
    requires s.open != []
    ensures StackKeys(Popped(s).root, Popped(s).open) == StackKeys(s.root, s.open)
  {
    var n := |s.open| - 1;
    var c := Child(s.open[n].name, s.open[n].section);
    PoppedNames(s);
    if n == 0 {
      ChildKeysSnoc(s.root.sections, c, []);
    } else {
      PoppedOpen(s);
      var open' := Popped(s).open;
      assert open'[..|open'| - 1] == s.open[..n - 1] == s.open[..n][..n - 1];
      KeysSnoc(s.open[n - 1].section, c, Names(open'));
      Regroup(StackKeys(s.root, s.open[..n - 1]), Keys(s.open[n - 1].section, Names(open')),
              Keys(c.section, Names(s.open)));
    }
  }

  lemma PoppingKeepsTidy(s: Stack)
    requires s.open != [] && TidyStack(s.root, s.open)
    ensures TidyStack(Popped(s).root, Popped(s).open)
  {
    var n := |s.open| - 1;
    var c := Child(s.open[n].name, s.open[n].section);
    if n == 0 {
      assert s.open[..0] == [];
      TidyChildrenSnoc(s.root.sections, c);
    } else {
      PoppedOpen(s);
      var g := s.open[n - 1];
      var base := s.open[..n - 1];
      assert s.open[..n][..n - 1] == base && s.open[..n][n - 1] == g;
      TidyChildrenSnoc(g.section.sections, c);
      var g' := g.(section := g.section.(sections := g.section.sections + [c]));
      var open' := base + [g'];
      assert open'[..|open'| - 1] == base;
    }
  }

  lemma {:induction false} FinishingKeepsOrder(s: Stack)
    requires TidyStack(s.root, s.open)
    ensures ChildSections(Finished(s).sections, []) == StackSections(s.root, s.open)
    ensures Keys(Finished(s), []) == StackKeys(s.root, s.open)
    ensures Tidy(Finished(s))
    decreases |s.open|
  {
    if s.open != [] {
      PoppingKeepsSections(s);
      PoppingKeepsKeys(s);
      PoppingKeepsTidy(s);
      FinishingKeepsOrder(Popped(s));
    }
  }

  lemma {:induction false} ClosingKeeps(s: Stack, depth: nat)
    requires TidyStack(s.root, s.open)
    ensures var c := ClosedTo(s, depth);
            && TidyStack(c.root, c.open)
            && StackSections(c.root, c.open) == StackSections(s.root, s.open)
            && StackKeys(c.root, c.open) == StackKeys(s.root, s.open)
            && |c.open| == (if |s.open| <= depth then |s.open| else depth)
            && Names(c.open) <= Names(s.open)
    decreases |s.open|
  {
    TidyDepth(s);
    if s.open != [] && CurrentDepth(s) > depth {
      PoppedNames(s);
      PoppingKeepsSections(s);
      PoppingKeepsKeys(s);
      PoppingKeepsTidy(s);
      ClosingKeeps(Popped(s), depth);
    }
  }

  lemma TidyDepth(s: Stack)
    requires TidyStack(s.root, s.open)
    ensures CurrentDepth(s) == |s.open|
  {
  }

  // ----- the open path leads to the innermost open section

  lemma {:induction false} ResolveSnoc(section: Section, path: Path, name: string)
    ensures Resolve(section, path + [name]) ==
            match Resolve(section, path)
            case None => None
            case Some(s) => FindSection(s.sections, name)
    decreases |path|
  {
    if path == [] {
      assert path + [name] == [name] && [name][1..] == [];
    } else {
      assert (path + [name])[1..] == path[1..] + [name];
      match FindSection(section.sections, path[0])
      case None =>
      case Some(child) => ResolveSnoc(child, path[1..], name);
    }
  }

  lemma {:induction false} ResolveKeySnoc(section: Section, path: Path, name: string)
    ensures ResolveKey(section, path + [name]) ==
            match Resolve(section, path)
            case None => None
            case Some(s) => FindScalar(s.scalars, name)
    decreases |path|
  {
    if path == [] {
      assert path + [name] == [name];
    } else {
      assert (path + [name])[1..] == path[1..] + [name];
      match FindSection(section.sections, path[0])
      case None =>
      case Some(child) => ResolveKeySnoc(child, path[1..], name);
    }
  }

  lemma {:induction false} OpenPathResolves(s: Stack)
    requires TidyStack(s.root, s.open)
    ensures Resolve(Finished(s), Names(s.open)) == Some(CurrentSection(s))
    decreases |s.open|
  {
    if s.open != [] {
      var n := |s.open| - 1;
      var f := s.open[n];
      PoppingKeepsTidy(s);
      PoppedNames(s);
      OpenPathResolves(Popped(s));
      ResolveSnoc(Finished(s), Names(s.open[..n]), f.name);
      var parent := CurrentSection(Stack(s.root, s.open[..n]));
      FindSectionSnoc(parent.sections, Child(f.name, f.section), f.name);
      assert CurrentSection(Popped(s)).sections == parent.sections + [Child(f.name, f.section)];
    }
  }
}
