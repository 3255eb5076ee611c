/** Which texts parse: exactly those whose headers skip no depth and whose paths do not repeat. */
module ConfigAcceptance {
  import opened Sequences
  import opened Bytes
  import opened ConfigValue
  import opened ConfigSyntax
  import opened ConfigTree
  import opened ConfigFlatten
  import opened ConfigLookup
  import opened ConfigDocument
  import opened ConfigAgreement
  import opened ConfigParser

  // ----- the outline of a text

  /** The path a header opens, after the path that was current. */
  function PathOpened(path: Path, name: string, depth: nat): Path {
    Truncated(path, if depth > 0 then depth - 1 else 0) + [name]
  }

  function PathAfter(path: Path, item: Item): Path {
    if item.Header? then PathOpened(path, item.name, item.depth) else path
  }

  /** No header is more than one level deeper than the section it comes in. */
  predicate NoSkip(items: seq<(nat, Item)>, path: Path) {
    items != [] ==>
      && (items[0].1.Header? ==> items[0].1.depth <= |path| + 1)
      && NoSkip(items[1..], PathAfter(path, items[0].1))
  }

  /** The paths of the headers, in order. */
  function HeaderPaths(items: seq<(nat, Item)>, path: Path): seq<Path> {
    if items == [] then []
    else
      var next := PathAfter(path, items[0].1);
      (if items[0].1.Header? then [next] else []) + HeaderPaths(items[1..], next)
  }

  /** The paths of the keys, in order. */
  function PairPaths(items: seq<(nat, Item)>, path: Path): seq<Path> {
    if items == [] then []
    else
      (if items[0].1.Pair? then [path + [items[0].1.key]] else []) + PairPaths(items[1..], PathAfter(path, items[0].1))
  }

  // ----- one item after another

  /** Each item in turn: no skipped depth, and no path that is there already. */
  predicate Accepted(items: seq<(nat, Item)>, path: Path, sections: seq<Path>, keys: seq<Path>) {
    items != [] ==>
      var item := items[0].1;
      var next := PathAfter(path, item);
      match item
      case Nothing => Accepted(items[1..], next, sections, keys)
      case Header(_, depth) =>
        depth <= |path| + 1 && next !in sections && Accepted(items[1..], next, sections + [next], keys)
      case Pair(key, _, _) => path + [key] !in keys && Accepted(items[1..], next, sections, keys + [path + [key]])
  }

  lemma DistinctSnoc(s: seq<Path>, p: Path)
    requires Distinct(s)
    ensures Distinct(s + [p]) <==> p !in s
  {
    if p !in s {
      forall i, j | 0 <= i < j < |s + [p]| ensures (s + [p])[i] != (s + [p])[j] {
        if j == |s| {
          assert s[i] in s;
        }
      }
    } else {
      var i :| 0 <= i < |s| && s[i] == p;
      assert (s + [p])[i] == (s + [p])[|s|];
    }
  }

  lemma DistinctPrefix(s: seq<Path>, t: seq<Path>)
    requires Distinct(s + t)
    ensures Distinct(s)
  {
    forall i, j | 0 <= i < j < |s| ensures s[i] != s[j] {
      assert (s + t)[i] == s[i] && (s + t)[j] == s[j];
    }
  }

  /** With one more path, and then the rest. */
  lemma DistinctNext(s: seq<Path>, p: Path, rest: seq<Path>)
    requires Distinct(s)
    ensures Distinct(s + ([p] + rest)) <==> p !in s && Distinct(s + [p] + rest)
  {
    Regroup(s, [p], rest);
    if Distinct(s + [p] + rest) {
      DistinctPrefix(s + [p], rest);
    }
    DistinctSnoc(s, p);
  }

  /** Turn by turn is the same as all at once. */
  lemma {:induction false} AcceptedAtOnce(items: seq<(nat, Item)>, path: Path, sections: seq<Path>, keys: seq<Path>)
    requires Distinct(sections) && Distinct(keys)
    ensures Accepted(items, path, sections, keys) <==>
            && NoSkip(items, path)
            && Distinct(sections + HeaderPaths(items, path)) && Distinct(keys + PairPaths(items, path))
    decreases |items|
  {
    if items == [] {
      assert sections + [] == sections && keys + [] == keys;
    } else {
      var item, rest := items[0].1, items[1..];
      var next := PathAfter(path, item);
      var headers, pairs := HeaderPaths(rest, next), PairPaths(rest, next);
      assert [] + headers == headers && [] + pairs == pairs;
      match item {
        case Nothing => AcceptedAtOnce(rest, next, sections, keys);
        case Header(_, _) =>
          DistinctNext(sections, next, headers);
          DistinctSnoc(sections, next);
          if next !in sections {
            AcceptedAtOnce(rest, next, sections + [next], keys);
          }
        case Pair(key, _, _) =>
          DistinctNext(keys, path + [key], pairs);
          DistinctSnoc(keys, path + [key]);
          if path + [key] !in keys {
            AcceptedAtOnce(rest, next, sections, keys + [path + [key]]);
          }
      }
    }
  }

  // ----- what a turn refuses

  /** A child of the innermost open section is found exactly when its path is listed. */
  lemma SectionFoundIff(s: Stack, name: string)
    requires TidyStack(s.root, s.open)
    ensures FindSection(CurrentSection(s).sections, name).Some?
       <==> Names(s.open) + [name] in StackSections(s.root, s.open)
  {
    var path := Names(s.open) + [name];
    FinishingKeepsOrder(s);
    OpenPathResolves(s);
    ResolveSnoc(Finished(s), Names(s.open), name);
    ChildSectionListed(Finished(s).sections, [], path);
    assert [] + path == path;
  }

  lemma KeyFoundIff(s: Stack, key: string)
    requires TidyStack(s.root, s.open) && CurrentSection(s).sections == []
    ensures FindScalar(CurrentSection(s).scalars, key).Some?
       <==> Names(s.open) + [key] in Firsts(StackKeys(s.root, s.open))
  {
    if FindScalar(CurrentSection(s).scalars, key).None? {
      NewKeyIsNew(s, key);
    } else {
      var path, v := Names(s.open) + [key], FindScalar(CurrentSection(s).scalars, key).value;
      FinishingKeepsOrder(s);
      OpenPathResolves(s);
      ResolveKeySnoc(Finished(s), Names(s.open), key);
      KeyListed(Finished(s), [], path, v);
      assert [] + path == path;
      var entries := Keys(Finished(s), []);
      var i :| 0 <= i < |entries| && entries[i] == (path, v);
      assert Firsts(entries)[i] == path;
    }
  }

  lemma HeaderAcceptedIff(p: Parser, name: string, depth: nat, line: SourceLine, limit: nat)
    requires TreeAgrees(p) && depth >= 1 && InRange(p.open, |p.sections|)
    ensures OpenSection(p, name, depth, line, limit).Ok? <==>
            depth <= |p.path| + 1 && PathOpened(p.path, name, depth) !in PathsOf(p.sections)
  {
    var s := ClosedTo(p.stack, depth - 1);
    ClosingKeeps(p.stack, depth - 1);
    TidyDepth(s);
    ParentPath(p, depth);
    assert |p.path| == |p.stack.open|;
    SectionFoundIff(s, name);
  }

  lemma PairAcceptedIff(p: Parser, key: string, value: Value, line: SourceLine, end: nat)
    requires TreeAgrees(p)
    ensures AddKey(p, key, value, line, end).Ok? <==> p.path + [key] !in KeyPathsOf(p.keys)
  {
    KeyFoundIff(p.stack, key);
  }

  // ----- the whole text

  /** What an item leaves behind in the path and in the lists. */
  predicate Leaves(p: Parser, item: Item, q: Parser) {
    && q.path == PathAfter(p.path, item)
    && PathsOf(q.sections) == PathsOf(p.sections) + (if item.Header? then [q.path] else [])
    && KeyPathsOf(q.keys) == KeyPathsOf(p.keys) + (if item.Pair? then [p.path + [item.key]] else [])
  }

  lemma HeaderLeaves(p: Parser, name: string, depth: nat, line: SourceLine, limit: nat)
    requires depth >= 1 && InRange(p.open, |p.sections|) && OpenSection(p, name, depth, line, limit).Ok?
    ensures Leaves(p, Header(name, depth), OpenSection(p, name, depth, line, limit).value)
  {
    OpeningLists(p, name, depth, line, limit);
    assert KeyPathsOf(p.keys) + [] == KeyPathsOf(p.keys);
  }

  lemma PairLeaves(p: Parser, item: Item, line: SourceLine, end: nat)
    requires item.Pair? && AddKey(p, item.key, item.value, line, end).Ok?
    ensures Leaves(p, item, AddKey(p, item.key, item.value, line, end).value)
  {
    var q := AddKey(p, item.key, item.value, line, end).value;
    assert KeyPathsOf(q.keys) == KeyPathsOf(p.keys) + [p.path + [item.key]];
    assert PathsOf(p.sections) + [] == PathsOf(p.sections);
  }

  /** A turn is refused for a skipped depth or a repeated path, and for nothing else. */
  lemma TurnAcceptedIff(input: string, p: Parser, lines: seq<SourceLine>, index: nat)
    requires Sound(input, p, lines, index) && index < |lines| && InRange(p.open, |p.sections|)
    requires ReadItem(lines, index).Ok?
    ensures var item, r := ReadItem(lines, index).value, Turn(p, lines, index, |input|);
            && (r.Ok? <==>
                  && (item.Header? ==> item.depth <= |p.path| + 1 && PathAfter(p.path, item) !in PathsOf(p.sections))
                  && (item.Pair? ==> p.path + [item.key] !in KeyPathsOf(p.keys)))
            && (r.Ok? ==> Leaves(p, item, r.value.0) && r.value.1 == if item.Pair? then item.last + 1 else index + 1)
  {
    SoundMeans(input, p, lines, index);
    var item, line := ReadItem(lines, index).value, lines[index];
    match item {
      case Nothing =>
        assert PathsOf(p.sections) + [] == PathsOf(p.sections) && KeyPathsOf(p.keys) + [] == KeyPathsOf(p.keys);
      case Header(name, depth) =>
        HeaderAcceptedIff(p, name, depth, line, |input|);
        if OpenSection(p, name, depth, line, |input|).Ok? {
          HeaderLeaves(p, name, depth, line, |input|);
        }
      case Pair(key, value, last) =>
        PairAcceptedIff(p, key, value, line, lines[last].fullEnd);
        if AddKey(p, key, value, line, lines[last].fullEnd).Ok? {
          PairLeaves(p, item, line, lines[last].fullEnd);
        }
    }
  }

  predicate AcceptedFrom(p: Parser, items: Option<seq<(nat, Item)>>) {
    items.Some? && Accepted(items.value, p.path, PathsOf(p.sections), KeyPathsOf(p.keys))
  }

  /** The items from a line on are accepted when the first is, and the rest after it. */
  lemma AcceptedNext(p: Parser, index: nat, item: Item, q: Parser, rest: Option<seq<(nat, Item)>>)
    requires Leaves(p, item, q)
    requires item.Header? ==> item.depth <= |p.path| + 1 && PathAfter(p.path, item) !in PathsOf(p.sections)
    requires item.Pair? ==> p.path + [item.key] !in KeyPathsOf(p.keys)
    ensures rest.Some? ==> (AcceptedFrom(p, Some([(index, item)] + rest.value)) <==> AcceptedFrom(q, rest))
  {
    if rest.Some? {
      var items := [(index, item)] + rest.value;
      assert items[1..] == rest.value && items[0].1 == item;
      assert PathsOf(p.sections) + [] == PathsOf(p.sections) && KeyPathsOf(p.keys) + [] == KeyPathsOf(p.keys);
    }
  }

  lemma {:induction false} RunAcceptedIff(input: string, p: Parser, lines: seq<SourceLine>, index: nat)
    requires Covers(input, lines) && Sound(input, p, lines, index)
    ensures ParseFrom(input, p, lines, index).Ok? <==> AcceptedFrom(p, Walk(lines, index))
    decreases |lines| - index
  {
    if index < |lines| {
      TurnKeepsSound(input, p, lines, index);
      var read := ReadItem(lines, index);
      if read.Ok? {
        TurnAcceptedIff(input, p, lines, index);
        var item, turn := read.value, Turn(p, lines, index, |input|);
        if turn.Ok? {
          var (q, next) := turn.value;
          RunAcceptedIff(input, q, lines, next);
          AcceptedNext(p, index, item, q, Walk(lines, next));
        }
      }
    }
  }

  /**
   * A text parses if and only if each of its lines can be read, no header skips a depth, and neither a
   * section path nor a key path occurs twice.
   */
  lemma ParsesIff(input: string)
    ensures Parse(input).Ok? <==>
            var items := Walk(LinesFrom(input, 0, 1), 0);
            && items.Some? && NoSkip(items.value, [])
            && Distinct(HeaderPaths(items.value, [])) && Distinct(PairPaths(items.value, []))
  {
    var lines := LinesFrom(input, 0, 1);
    InputIsCovered(input);
    StartIsSound(input, lines);
    RunAcceptedIff(input, ConfigDocument.START, lines, 0);
    var items := Walk(lines, 0);
    if items.Some? {
      AcceptedAtOnce(items.value, [], [], []);
      var headers, pairs := HeaderPaths(items.value, []), PairPaths(items.value, []);
      assert [] + headers == headers && [] + pairs == pairs;
      assert PathsOf([]) == [] && KeyPathsOf([]) == [];
    }
  }

  // ----- what is listed, in full

  /** The headers and pairs from a line on are listed after what is listed already, each under its path. */
  predicate ListsAfter(p: Parser, items: seq<(nat, Item)>, q: Parser) {
    && PathsOf(q.sections) == PathsOf(p.sections) + HeaderPaths(items, p.path)
    && KeyPathsOf(q.keys) == KeyPathsOf(p.keys) + PairPaths(items, p.path)
  }

  lemma ListsNext(p: Parser, index: nat, item: Item, q: Parser, rest: seq<(nat, Item)>, r: Parser)
    requires Leaves(p, item, q) && ListsAfter(q, rest, r)
    ensures ListsAfter(p, [(index, item)] + rest, r)
  {
    var items: seq<(nat, Item)> := [(index, item)] + rest;
    assert items[1..] == rest && items[0].1 == item;
    Regroup(PathsOf(p.sections), if item.Header? then [q.path] else [], HeaderPaths(rest, q.path));
    Regroup(KeyPathsOf(p.keys), if item.Pair? then [p.path + [item.key]] else [], PairPaths(rest, q.path));
  }

  lemma {:induction false} RunLists(input: string, p: Parser, lines: seq<SourceLine>, index: nat)
    requires Covers(input, lines) && Sound(input, p, lines, index) && ParseFrom(input, p, lines, index).Ok?
    ensures Walk(lines, index).Some?
    ensures ListsAfter(p, Walk(lines, index).value, ParseFrom(input, p, lines, index).value)
    decreases |lines| - index
  {
    if index == |lines| {
      assert PathsOf(p.sections) + [] == PathsOf(p.sections) && KeyPathsOf(p.keys) + [] == KeyPathsOf(p.keys);
    } else {
      TurnKeepsSound(input, p, lines, index);
      TurnAcceptedIff(input, p, lines, index);
      var item := ReadItem(lines, index).value;
      var (q, next) := Turn(p, lines, index, |input|).value;
      RunLists(input, q, lines, next);
      ListsNext(p, index, item, q, Walk(lines, next).value, ParseFrom(input, q, lines, next).value);
    }
  }

  /** The sections of a parsed text are listed under the paths of its headers, its keys under those of its pairs. */
  lemma PathsAreListed(input: string)
    requires Parse(input).Ok?
    ensures var d, items := Parse(input).value, Walk(LinesFrom(input, 0, 1), 0);
            && items.Some? && PathsOf(d.sections) == HeaderPaths(items.value, [])
            && KeyPathsOf(d.keys) == PairPaths(items.value, [])
  {
    var lines := LinesFrom(input, 0, 1);
    InputIsCovered(input);
    StartIsSound(input, lines);
    RunLists(input, ConfigDocument.START, lines, 0);
    var p := ParseFrom(input, ConfigDocument.START, lines, 0).value;
    SoundInRange(input, p, lines, |lines|);
    SoundMeans(input, p, lines, |lines|);
    NothingLeftToEnd(input, p);
    var items := Walk(lines, 0).value;
    assert [] + HeaderPaths(items, []) == HeaderPaths(items, []) && [] + PairPaths(items, []) == PairPaths(items, []);
    assert PathsOf([]) == [] && KeyPathsOf([]) == [];
  }
}
