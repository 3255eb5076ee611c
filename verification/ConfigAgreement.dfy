/** The invariant that keeps the tree, the flat lists and the line map in agreement, turn by turn. */
module ConfigAgreement {
  import opened Sequences
  import opened ConfigValue
  import opened ConfigSyntax
  import opened ConfigTree
  import opened ConfigFlatten
  import opened ConfigLookup
  import opened ConfigLayout
  import opened ConfigDocument

  function PathsOf(s: seq<DocumentSection>): (r: seq<Path>)
    ensures |r| == |s|
    ensures forall i :: 0 <= i < |s| ==> r[i] == s[i].path
  {
    seq(|s|, i requires 0 <= i < |s| => s[i].path)
  }

  function KeyPathsOf(s: seq<DocumentKey>): (r: seq<Path>)
    ensures |r| == |s|
    ensures forall i :: 0 <= i < |s| ==> r[i] == s[i].path
  {
    seq(|s|, i requires 0 <= i < |s| => s[i].path)
  }

  function Firsts(s: seq<(Path, Value)>): (r: seq<Path>)
    ensures |r| == |s|
    ensures forall i :: 0 <= i < |s| ==> r[i] == s[i].0
  {
    seq(|s|, i requires 0 <= i < |s| => s[i].0)
  }

  // ----- the tree and the flat lists

  /**
   * The sections and keys read off the stack in document order are exactly the flat lists, and the
   * innermost open section, at the current path, has no children yet.
   */
  predicate TreeAgrees(p: Parser) {
    && TidyStack(p.stack.root, p.stack.open)
    && Names(p.stack.open) == p.path
    && CurrentSection(p.stack).sections == []
    && PathsOf(p.sections) == StackSections(p.stack.root, p.stack.open)
    && KeyPathsOf(p.keys) == Firsts(StackKeys(p.stack.root, p.stack.open))
  }

  lemma {:induction false} EndDeeperKeeps(s: seq<DocumentSection>, open: seq<nat>, depth: nat, start: nat)
    requires InRange(open, |s|)
    ensures var r := EndDeeper(s, open, depth, start);
            forall i :: 0 <= i < |s| ==>
              r.0[i] == s[i].(range := r.0[i].range) && r.0[i].range.start == s[i].range.start
    decreases |open|
  {
    if open != [] && s[open[|open| - 1]].depth >= depth {
      EndDeeperKeeps(WithEnd(s, open[|open| - 1], start), open[..|open| - 1], depth, start);
    }
  }

  lemma OpeningAppends(s: Stack, name: string, depth: nat)
    requires TidyStack(s.root, s.open) && depth == |s.open| + 1
    requires FindSection(CurrentSection(s).sections, name).None?
    ensures var t := Opened(s, name, depth);
            && TidyStack(t.root, t.open)
            && Names(t.open) == Names(s.open) + [name]
            && StackSections(t.root, t.open) == StackSections(s.root, s.open) + [Names(t.open)]
            && StackKeys(t.root, t.open) == StackKeys(s.root, s.open)
            && CurrentSection(t).sections == []
  {
    var t := Opened(s, name, depth);
    assert t.open[..|t.open| - 1] == s.open;
  }

  lemma AddingAppends(s: Stack, e: Entry)
    requires TidyStack(s.root, s.open) && CurrentSection(s).sections == []
    requires FindScalar(CurrentSection(s).scalars, e.name).None?
    ensures var c := CurrentSection(s);
            var t := WithCurrent(s, c.(scalars := c.scalars + [e]));
            && TidyStack(t.root, t.open)
            && Names(t.open) == Names(s.open)
            && StackSections(t.root, t.open) == StackSections(s.root, s.open)
            && StackKeys(t.root, t.open) == StackKeys(s.root, s.open) + [(Names(s.open) + [e.name], e.value)]
            && CurrentSection(t).sections == []
  {
    var c := CurrentSection(s);
    var t := WithCurrent(s, c.(scalars := c.scalars + [e]));
    DistinctScalarsSnoc(c.scalars, e);
    KeysGrow(c, e, Names(s.open));
    if s.open != [] {
      var n := |s.open| - 1;
      assert t.open[..n] == s.open[..n];
      Regroup(StackKeys(s.root, s.open[..n]), Keys(c, Names(s.open)), [(Names(s.open) + [e.name], e.value)]);
    }
  }

  lemma KeysGrow(c: Section, e: Entry, at: Path)
    requires c.sections == []
    ensures Keys(c.(scalars := c.scalars + [e]), at) == Keys(c, at) + [(at + [e.name], e.value)]
  {
    ScalarPathsSnoc(c.scalars, e, at);
    var paths := ScalarPaths(c.scalars, at);
    assert paths + [] == paths;
    assert paths + [(at + [e.name], e.value)] + [] == paths + [(at + [e.name], e.value)];
  }

  lemma OpeningAgrees(p: Parser, name: string, depth: nat, line: SourceLine, limit: nat)
    requires TreeAgrees(p) && depth >= 1 && InRange(p.open, |p.sections|)
    ensures var r := OpenSection(p, name, depth, line, limit);
            r.Ok? ==> && TreeAgrees(r.value)
                      && depth - 1 <= |p.path| && r.value.path == p.path[..depth - 1] + [name]
                      && r.value.path !in PathsOf(p.sections)
  {
    var stack := ClosedTo(p.stack, depth - 1);
    ParentPath(p, depth);
    if OpenSection(p, name, depth, line, limit).Ok? {
      OpeningAppends(stack, name, depth);
      OpeningLists(p, name, depth, line, limit);
      NewSectionIsNew(stack, name);
    }
  }

  /** Closing down to the parent leaves the parent's path open, and the lists as they were. */
  lemma ParentPath(p: Parser, depth: nat)
    requires TreeAgrees(p) && depth >= 1
    ensures var s := ClosedTo(p.stack, depth - 1);
            && TidyStack(s.root, s.open)
            && StackSections(s.root, s.open) == StackSections(p.stack.root, p.stack.open)
            && StackKeys(s.root, s.open) == StackKeys(p.stack.root, p.stack.open)
            && (CurrentDepth(s) == depth - 1 ==>
                  depth - 1 <= |p.path| && Names(s.open) == p.path[..depth - 1] == Truncated(p.path, depth - 1))
  {
    ClosingKeeps(p.stack, depth - 1);
    TidyDepth(ClosedTo(p.stack, depth - 1));
  }

  lemma OpeningLists(p: Parser, name: string, depth: nat, line: SourceLine, limit: nat)
    requires depth >= 1 && InRange(p.open, |p.sections|)
    requires OpenSection(p, name, depth, line, limit).Ok?
    ensures var q := OpenSection(p, name, depth, line, limit).value;
            PathsOf(q.sections) == PathsOf(p.sections) + [q.path]
  {
    EndDeeperKeeps(p.sections, p.open, depth, line.start);
  }

  lemma NewSectionIsNew(s: Stack, name: string)
    requires TidyStack(s.root, s.open) && FindSection(CurrentSection(s).sections, name).None?
    ensures Names(s.open) + [name] !in StackSections(s.root, s.open)
  {
    var path := Names(s.open) + [name];
    FinishingKeepsOrder(s);
    OpenPathResolves(s);
    ResolveSnoc(Finished(s), Names(s.open), name);
    ChildSectionListed(Finished(s).sections, [], path);
    assert [] + path == path;
  }

  lemma NewKeyIsNew(s: Stack, key: string)
    requires TidyStack(s.root, s.open) && CurrentSection(s).sections == []
    requires FindScalar(CurrentSection(s).scalars, key).None?
    ensures Names(s.open) + [key] !in StackSections(s.root, s.open)
    ensures Names(s.open) + [key] !in Firsts(StackKeys(s.root, s.open))
  {
    var path := Names(s.open) + [key];
    NewSectionIsNew(s, key);
    FinishingKeepsOrder(s);
    OpenPathResolves(s);
    ResolveKeySnoc(Finished(s), Names(s.open), key);
    var entries := Keys(Finished(s), []);
    forall i | 0 <= i < |entries| ensures entries[i].0 != path {
      KeyListed(Finished(s), [], path, entries[i].1);
      assert [] + path == path;
      assert entries[i] in entries;
    }
  }

  lemma AddingAgrees(p: Parser, key: string, value: Value, line: SourceLine, end: nat)
    requires TreeAgrees(p)
    ensures var r := AddKey(p, key, value, line, end);
            r.Ok? ==> && TreeAgrees(r.value)
                      && p.path + [key] !in PathsOf(p.sections) && p.path + [key] !in KeyPathsOf(p.keys)
  {
    var r := AddKey(p, key, value, line, end);
    if r.Ok? {
      var q, path := r.value, p.path + [key];
      AddingAppends(p.stack, Entry(key, value));
      NewKeyIsNew(p.stack, key);
      assert KeyPathsOf(q.keys) == KeyPathsOf(p.keys) + [path];
      assert Firsts(StackKeys(p.stack.root, p.stack.open) + [(path, value)])
          == Firsts(StackKeys(p.stack.root, p.stack.open)) + [path];
    }
  }
}
