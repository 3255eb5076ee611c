/** The nested section tree and the stack that builds it (`prns-config/src/configobj.rs`). */
module ConfigTree {
  import opened Bytes
  import opened ConfigValue

  type Path = seq<string>

  datatype Section = Section(scalars: seq<Entry>, sections: seq<Child>)

  datatype Entry = Entry(name: string, value: Value)

  datatype Child = Child(name: string, section: Section)

  const EMPTY := Section([], [])

  // ----- lookups, first match wins

  function FindScalar(scalars: seq<Entry>, key: string): Option<Value> {
    if scalars == [] then None
    else if scalars[0].name == key then Some(scalars[0].value)
    else FindScalar(scalars[1..], key)
  }

  function FindSection(sections: seq<Child>, name: string): Option<Section> {
    if sections == [] then None
    else if sections[0].name == name then Some(sections[0].section)
    else FindSection(sections[1..], name)
  }

  /** The section a path leads to. */
  function Resolve(section: Section, path: Path): Option<Section>
    decreases |path|
  {
    if path == [] then Some(section)
    else
      match FindSection(section.sections, path[0])
      case None => None
      case Some(child) => Resolve(child, path[1..])
  }

  /** The value a key path leads to: all but the last name are sections. */
  function ResolveKey(section: Section, path: Path): Option<Value>
    decreases |path|
  {
    if path == [] then None
    else if |path| == 1 then FindScalar(section.scalars, path[0])
    else
      match FindSection(section.sections, path[0])
      case None => None
      case Some(child) => ResolveKey(child, path[1..])
  }

  // ----- the tree read off in document order

  /** The path of a section and those of all sections below, parents first, siblings in order. */
  function Sections(section: Section, at: Path): seq<Path>
    decreases section, 1
  {
    [at] + ChildSections(section.sections, at)
  }

  function ChildSections(children: seq<Child>, at: Path): seq<Path>
    decreases children, 0
  {
    if children == [] then []
    else Sections(children[0].section, at + [children[0].name]) + ChildSections(children[1..], at)
  }

  function ScalarPaths(scalars: seq<Entry>, at: Path): seq<(Path, Value)> {
    if scalars == [] then [] else [(at + [scalars[0].name], scalars[0].value)] + ScalarPaths(scalars[1..], at)
  }

  /** The paths and values of all keys, each section's own before its children's. */
  function Keys(section: Section, at: Path): seq<(Path, Value)>
    decreases section, 1
  {
    ScalarPaths(section.scalars, at) + ChildKeys(section.sections, at)
  }

  function ChildKeys(children: seq<Child>, at: Path): seq<(Path, Value)>
    decreases children, 0
  {
    if children == [] then []
    else Keys(children[0].section, at + [children[0].name]) + ChildKeys(children[1..], at)
  }

  // ----- the stack of open sections

  datatype Frame = Frame(name: string, depth: nat, section: Section)

  datatype Stack = Stack(root: Section, open: seq<Frame>)

  function CurrentDepth(s: Stack): nat {
    if s.open == [] then 0 else s.open[|s.open| - 1].depth
  }

  function CurrentSection(s: Stack): Section {
    if s.open == [] then s.root else s.open[|s.open| - 1].section
  }

  function WithCurrent(s: Stack, section: Section): Stack {
    if s.open == [] then s.(root := section)
    else s.(open := s.open[|s.open| - 1 := s.open[|s.open| - 1].(section := section)])
  }

  function Opened(s: Stack, name: string, depth: nat): Stack {
    s.(open := s.open + [Frame(name, depth, EMPTY)])
  }

  /** The innermost open section attached to the one around it. */
  function Popped(s: Stack): Stack
    requires s.open != []
  {
    var n := |s.open| - 1;
    var rest := s.(open := s.open[..n]);
    var parent := CurrentSection(rest);
    WithCurrent(rest, parent.(sections := parent.sections + [Child(s.open[n].name, s.open[n].section)]))
  }

  function ClosedTo(s: Stack, depth: nat): Stack
    decreases |s.open|
  {
    if s.open == [] || CurrentDepth(s) <= depth then s else ClosedTo(Popped(s), depth)
  }

  /** Every open section attached. */
  function Finished(s: Stack): Section
    decreases |s.open|
  {
    if s.open == [] then s.root else Finished(Popped(s))
  }

  class SectionStack {
    var root: Section
    var open: seq<Frame>

    ghost function Contents(): Stack
      reads this
    {
      Stack(root, open)
    }

    constructor ()
      ensures Contents() == Stack(EMPTY, [])
    {
      root, open := EMPTY, [];
    }

    method Open(name: string, depth: nat)
      modifies this
      ensures Contents() == Opened(old(Contents()), name, depth)
    {
      open := open + [Frame(name, depth, EMPTY)];
    }

    method SetCurrent(section: Section)
      modifies this
      ensures Contents() == WithCurrent(old(Contents()), section)
    {
      if open == [] {
        root := section;
      } else {
        open := open[|open| - 1 := open[|open| - 1].(section := section)];
      }
    }

    /** Attaches every section deeper than `targetDepth` to the one around it, innermost first. */
    method CloseTo(targetDepth: nat)
      modifies this
      ensures Contents() == ClosedTo(old(Contents()), targetDepth)
    {
      while open != [] && open[|open| - 1].depth > targetDepth
        invariant ClosedTo(Contents(), targetDepth) == ClosedTo(old(Contents()), targetDepth)
        decreases |open|
      {
        var frame := open[|open| - 1];
        open := open[..|open| - 1];
        var parent := if open == [] then root else open[|open| - 1].section;
        SetCurrent(parent.(sections := parent.sections + [Child(frame.name, frame.section)]));
      }
    }

    method Finish() returns (tree: Section)
      requires forall f :: f in open ==> f.depth > 0
      modifies this
      ensures tree == Finished(old(Contents()))
    {
      ghost var before := Contents();
      CloseTo(0);
      CloseAll(before);
      return root;
    }
  }

  lemma {:induction false} CloseAll(s: Stack)
    requires forall f :: f in s.open ==> f.depth > 0
    ensures ClosedTo(s, 0) == Stack(Finished(s), [])
    decreases |s.open|
  {
    if s.open != [] {
      PoppedDepths(s);
      CloseAll(Popped(s));
    }
  }

  lemma PoppedDepths(s: Stack)
    requires s.open != [] && forall f :: f in s.open ==> f.depth > 0
    ensures forall f :: f in Popped(s).open ==> f.depth > 0
    ensures |Popped(s).open| == |s.open| - 1
  {
    var p := Popped(s);
    forall f | f in p.open ensures f.depth > 0 {
      var i :| 0 <= i < |p.open| && p.open[i] == f;
      assert f.depth == s.open[i].depth;
    }
  }
}
