/** The parser's whole run and what holds of every document it accepts. */
module ConfigParser {
  import opened Sequences
  import opened Bytes
  import opened Text
  import opened ConfigValue
  import opened ConfigSyntax
  import opened ConfigTree
  import opened ConfigFlatten
  import opened ConfigLookup
  import opened ConfigLayout
  import opened ConfigDocument
  import opened ConfigAgreement
  import opened ConfigPlacement
  import ConfigNotation

  // ----- the line map

  predicate SectionLocated(input: string, lines: map<Path, nat>, s: DocumentSection) {
    s.path in lines && s.range.start <= |input| && lines[s.path] == LineNumber(input, s.range.start)
  }

  /** A section written after a key of the same path takes over that path's line. */
  predicate KeyLocated(input: string, lines: map<Path, nat>, sections: seq<DocumentSection>, k: DocumentKey) {
    && k.path in lines && k.range.start <= |input|
    && (k.path !in PathsOf(sections) ==> lines[k.path] == LineNumber(input, k.range.start))
  }

  predicate Located(input: string, p: Parser) {
    && (forall i :: 0 <= i < |p.sections| ==> SectionLocated(input, p.lines, p.sections[i]))
    && (forall i :: 0 <= i < |p.keys| ==> KeyLocated(input, p.lines, p.sections, p.keys[i]))
    && (forall q :: q in p.lines ==> q in PathsOf(p.sections) || q in KeyPathsOf(p.keys))
  }

  lemma OpeningLocates(input: string, p: Parser, name: string, depth: nat, line: SourceLine, limit: nat)
    requires Located(input, p) && depth >= 1 && InRange(p.open, |p.sections|)
    requires OpenSection(p, name, depth, line, limit).Ok?
    requires OpenSection(p, name, depth, line, limit).value.path !in PathsOf(p.sections)
    requires line.start <= |input| && line.number == LineNumber(input, line.start)
    ensures Located(input, OpenSection(p, name, depth, line, limit).value)
  {
    var q := OpenSection(p, name, depth, line, limit).value;
    OpeningLists(p, name, depth, line, limit);
    EndDeeperKeeps(p.sections, p.open, depth, line.start);
    forall i | 0 <= i < |q.sections| ensures SectionLocated(input, q.lines, q.sections[i]) {
      if i < |p.sections| {
        assert SectionLocated(input, p.lines, p.sections[i]);
        assert PathsOf(p.sections)[i] != q.path;
      }
    }
    var old_, new_ := PathsOf(p.sections), PathsOf(q.sections);
    assert new_[|old_|] == q.path;
    forall x | x in old_ ensures x in new_ {
    }
    forall i | 0 <= i < |q.keys| ensures KeyLocated(input, q.lines, q.sections, q.keys[i]) {
      assert KeyLocated(input, p.lines, p.sections, p.keys[i]);
    }
  }

  lemma AddingLocates(input: string, p: Parser, key: string, value: Value, line: SourceLine, end: nat)
    requires Located(input, p) && AddKey(p, key, value, line, end).Ok?
    requires p.path + [key] !in PathsOf(p.sections) && p.path + [key] !in KeyPathsOf(p.keys)
    requires line.start <= |input| && line.number == LineNumber(input, line.start)
    ensures Located(input, AddKey(p, key, value, line, end).value)
  {
    var q := AddKey(p, key, value, line, end).value;
    var path := p.path + [key];
    forall i | 0 <= i < |q.sections| ensures SectionLocated(input, q.lines, q.sections[i]) {
      assert SectionLocated(input, p.lines, p.sections[i]);
      assert PathsOf(p.sections)[i] != path;
    }
    forall i | 0 <= i < |q.keys| ensures KeyLocated(input, q.lines, q.sections, q.keys[i]) {
      if i < |p.keys| {
        assert KeyLocated(input, p.lines, p.sections, p.keys[i]);
        assert KeyPathsOf(p.keys)[i] != path;
      }
    }
    var old_, new_ := KeyPathsOf(p.keys), KeyPathsOf(q.keys);
    assert new_ == old_ + [path];
  }

  // ----- one turn keeps everything

  function PositionOf(input: string, lines: seq<SourceLine>, index: nat): nat {
    if index < |lines| then lines[index].start else |input|
  }

  /**
   * What the loop keeps: the tree agrees with the lists, the map has the lines, the ranges are laid out. The
   * three are held behind a quantifier, so that a proof about a turn unfolds only the one it is about.
   */
  datatype Aspect = Tree | Lines | Layout

  ghost predicate SoundIn(input: string, p: Parser, lines: seq<SourceLine>, index: nat, aspect: Aspect) {
    match aspect
    case Tree => TreeAgrees(p)
    case Lines => Located(input, p)
    case Layout => Placed(p, PositionOf(input, lines, index), |input|)
  }

  ghost predicate Sound(input: string, p: Parser, lines: seq<SourceLine>, index: nat) {
    index <= |lines| && forall aspect :: SoundIn(input, p, lines, index, aspect)
  }

  lemma SoundMeans(input: string, p: Parser, lines: seq<SourceLine>, index: nat)
    requires Sound(input, p, lines, index)
    ensures TreeAgrees(p) && Located(input, p) && Placed(p, PositionOf(input, lines, index), |input|)
  {
    assert SoundIn(input, p, lines, index, Tree);
    assert SoundIn(input, p, lines, index, Lines);
    assert SoundIn(input, p, lines, index, Layout);
  }

  lemma MakesSound(input: string, p: Parser, lines: seq<SourceLine>, index: nat)
    requires index <= |lines| && TreeAgrees(p) && Located(input, p)
          && Placed(p, PositionOf(input, lines, index), |input|)
    ensures Sound(input, p, lines, index)
  {
    forall aspect ensures SoundIn(input, p, lines, index, aspect) {
      match aspect {
        case Tree =>
        case Lines =>
        case Layout =>
      }
    }
  }

  lemma SoundInRange(input: string, p: Parser, lines: seq<SourceLine>, index: nat)
    requires Sound(input, p, lines, index)
    ensures InRange(p.open, |p.sections|)
  {
    SoundMeans(input, p, lines, index);
    OpenInRange(p.sections, p.open, p.path);
  }

  lemma PositionAdvances(input: string, lines: seq<SourceLine>, i: nat, j: nat)
    requires Covers(input, lines) && i <= j < |lines|
    ensures lines[i].start < lines[j].fullEnd == PositionOf(input, lines, j + 1) <= |input|
    ensures lines[i].start <= lines[j].start
    decreases j - i
  {
    assert LineAt(input, lines, j);
    if i < j {
      assert LineAt(input, lines, j - 1);
      PositionAdvances(input, lines, i, j - 1);
    }
  }

  lemma TurnKeepsSound(input: string, p: Parser, lines: seq<SourceLine>, index: nat)
    requires Covers(input, lines) && Sound(input, p, lines, index) && index < |lines|
    ensures InRange(p.open, |p.sections|)
    ensures var r := Turn(p, lines, index, |input|); r.Ok? ==> Sound(input, r.value.0, lines, r.value.1)
  {
    SoundInRange(input, p, lines, index);
    var item := ReadItem(lines, index);
    if item.Ok? {
      ItemKeepsSound(input, p, lines, index, item.value);
    }
  }

  lemma ItemKeepsSound(input: string, p: Parser, lines: seq<SourceLine>, index: nat, item: Item)
    requires Covers(input, lines) && Sound(input, p, lines, index) && index < |lines| && InRange(p.open, |p.sections|)
    requires item.Header? ==> item.depth >= 1
    requires item.Pair? ==> index <= item.last < |lines|
    ensures var r := Apply(p, item, lines, index, |input|); r.Ok? ==> Sound(input, r.value.0, lines, r.value.1)
  {
    match item {
      case Nothing => NothingKeepsSound(input, p, lines, index);
      case Header(name, depth) => HeaderKeepsSound(input, p, lines, index, name, depth);
      case Pair(key, value, last) => PairKeepsSound(input, p, lines, index, key, value, last);
    }
  }

  lemma NothingKeepsSound(input: string, p: Parser, lines: seq<SourceLine>, index: nat)
    requires Covers(input, lines) && Sound(input, p, lines, index) && index < |lines|
    ensures Sound(input, p, lines, index + 1)
  {
    SoundMeans(input, p, lines, index);
    PositionAdvances(input, lines, index, index);
    Later(p, lines[index].start, lines[index].fullEnd, |input|);
    MakesSound(input, p, lines, index + 1);
  }

  lemma HeaderKeepsSound(input: string, p: Parser, lines: seq<SourceLine>, index: nat, name: string, depth: nat)
    requires Covers(input, lines) && Sound(input, p, lines, index) && index < |lines|
    requires depth >= 1 && InRange(p.open, |p.sections|)
    ensures var r := OpenSection(p, name, depth, lines[index], |input|);
            r.Ok? ==> Sound(input, r.value, lines, index + 1)
  {
    var line := lines[index];
    SoundMeans(input, p, lines, index);
    assert LineAt(input, lines, index);
    PositionAdvances(input, lines, index, index);
    if OpenSection(p, name, depth, line, |input|).Ok? {
      OpeningAgrees(p, name, depth, line, |input|);
      OpeningPlaces(p, name, depth, line, line.start, |input|);
      OpeningLocates(input, p, name, depth, line, |input|);
      MakesSound(input, OpenSection(p, name, depth, line, |input|).value, lines, index + 1);
    }
  }

  lemma PairKeepsSound(
    input: string, p: Parser, lines: seq<SourceLine>, index: nat, key: string, value: Value, last: nat)
    requires Covers(input, lines) && Sound(input, p, lines, index) && index <= last < |lines|
    ensures var r := AddKey(p, key, value, lines[index], lines[last].fullEnd);
            r.Ok? ==> Sound(input, r.value, lines, last + 1)
  {
    var line, end := lines[index], lines[last].fullEnd;
    SoundMeans(input, p, lines, index);
    assert LineAt(input, lines, index);
    PositionAdvances(input, lines, index, last);
    if AddKey(p, key, value, line, end).Ok? {
      AddingAgrees(p, key, value, line, end);
      AddingPlaces(p, key, value, line, end, line.start, |input|);
      AddingLocates(input, p, key, value, line, end);
      MakesSound(input, AddKey(p, key, value, line, end).value, lines, last + 1);
    }
  }

  // ----- the run

  function ParseFrom(input: string, p: Parser, lines: seq<SourceLine>, index: nat): (r: Result<Parser, ConfigError>)
    requires Covers(input, lines) && Sound(input, p, lines, index)
    ensures r.Ok? ==> Sound(input, r.value, lines, |lines|)
    decreases |lines| - index
  {
    if index == |lines| then Ok(p)
    else
      TurnKeepsSound(input, p, lines, index);
      match Turn(p, lines, index, |input|)
      case Err(e) => Err(e)
      case Ok((q, next)) => ParseFrom(input, q, lines, next)
  }

  lemma StartIsSound(input: string, lines: seq<SourceLine>)
    requires Covers(input, lines) && (lines != [] ==> lines[0].start == 0)
    ensures Sound(input, ConfigDocument.START, lines, 0)
  {
    if lines != [] {
      assert LineAt(input, lines, 0);
    }
    assert Names([]) == [];
    MakesSound(input, ConfigDocument.START, lines, 0);
  }

  lemma InputIsCovered(input: string)
    ensures var lines := LinesFrom(input, 0, 1); Covers(input, lines) && (lines != [] ==> lines[0].start == 0)
  {
    assert input[..0] == "";
    LinesCover(input, 0, 1);
  }

  function ToEnd(s: seq<DocumentSection>, open: seq<nat>, limit: nat): (r: seq<DocumentSection>)
    requires InRange(open, |s|)
    ensures |r| == |s|
    decreases |open|
  {
    if open == [] then s else ToEnd(WithEnd(s, open[0], limit), open[1..], limit)
  }

  /** The parser's result on a text. */
  function Parse(input: string): Result<Document, ConfigError> {
    var lines := LinesFrom(input, 0, 1);
    InputIsCovered(input);
    StartIsSound(input, lines);
    match ParseFrom(input, ConfigDocument.START, lines, 0)
    case Err(e) => Err(e)
    case Ok(p) =>
      SoundInRange(input, p, lines, |lines|);
      Ok(DocumentOf(input, p))
  }

  function DocumentOf(input: string, p: Parser): Document
    requires InRange(p.open, |p.sections|)
  {
    Document(Finished(p.stack), p.lines, ToEnd(p.sections, p.open, |input|), p.keys, Find(input, "\r\n") >= 0)
  }

  lemma {:induction false} AlreadyEnded(s: seq<DocumentSection>, open: seq<nat>, limit: nat)
    requires InRange(open, |s|) && forall k :: 0 <= k < |open| ==> s[open[k]].range.end == limit
    ensures ToEnd(s, open, limit) == s
    decreases |open|
  {
    if open != [] {
      assert WithEnd(s, open[0], limit) == s;
      AlreadyEnded(s, open[1..], limit);
    }
  }

  // ----- the theorems

  /** The tree read off in document order is exactly the flat lists, and no path occurs twice. */
  predicate SameDocument(d: Document) {
    && Tidy(d.root)
    && PathsOf(d.sections) == ChildSections(d.root.sections, [])
    && KeyPathsOf(d.keys) == Firsts(Keys(d.root, []))
    && Distinct(PathsOf(d.sections))
    && Distinct(KeyPathsOf(d.keys))
  }

  /** Ranges are well laid out in the text. */
  predicate LaidOut(input: string, d: Document) {
    WellLaid(d.sections, |input|) && KeysPlaced(d.sections, d.keys, |input|)
  }

  /** The line map holds exactly the listed paths, each at its line, a section's before a key's. */
  predicate MapsLines(input: string, d: Document) {
    && (forall i :: 0 <= i < |d.sections| ==> SectionLocated(input, d.lines, d.sections[i]))
    && (forall i :: 0 <= i < |d.keys| ==> KeyLocated(input, d.lines, d.sections, d.keys[i]))
    && (forall q :: q in d.lines ==> q in PathsOf(d.sections) || q in KeyPathsOf(d.keys))
  }

  /** Every text that parses yields three views of one document. */
  lemma DocumentAgrees(input: string)
    requires Parse(input).Ok?
    ensures var d := Parse(input).value; SameDocument(d) && LaidOut(input, d) && MapsLines(input, d)
  {
    var lines := LinesFrom(input, 0, 1);
    InputIsCovered(input);
    StartIsSound(input, lines);
    var p := ParseFrom(input, ConfigDocument.START, lines, 0).value;
    SoundInRange(input, p, lines, |lines|);
    SoundMeans(input, p, lines, |lines|);
    FinishedAgrees(input, p);
  }

  lemma FinishedAgrees(input: string, p: Parser)
    requires InRange(p.open, |p.sections|) && TreeAgrees(p) && Located(input, p) && Placed(p, |input|, |input|)
    ensures var d := DocumentOf(input, p); SameDocument(d) && LaidOut(input, d) && MapsLines(input, d)
  {
    NothingLeftToEnd(input, p);
    FinishedIsSame(p);
  }

  lemma NothingLeftToEnd(input: string, p: Parser)
    requires InRange(p.open, |p.sections|) && Placed(p, |input|, |input|)
    ensures ToEnd(p.sections, p.open, |input|) == p.sections
  {
    forall k | 0 <= k < |p.open| ensures p.sections[p.open[k]].range.end == |input| {
      assert EndsAt(p.sections, p.open[k], |input|) && StillOpen(p.sections, p.open, p.open[k]);
    }
    AlreadyEnded(p.sections, p.open, |input|);
  }

  lemma FinishedIsSame(p: Parser)
    requires TreeAgrees(p)
    ensures Tidy(Finished(p.stack))
    ensures PathsOf(p.sections) == ChildSections(Finished(p.stack).sections, [])
    ensures KeyPathsOf(p.keys) == Firsts(Keys(Finished(p.stack), []))
    ensures Distinct(PathsOf(p.sections)) && DistinctSections(p.sections)
    ensures Distinct(KeyPathsOf(p.keys))
  {
    FinishingKeepsOrder(p.stack);
    ChildSectionsDistinct(Finished(p.stack).sections, []);
    KeysDistinct(Finished(p.stack), []);
    var paths := PathsOf(p.sections);
    forall i, j | 0 <= i < j < |p.sections| ensures p.sections[i].path != p.sections[j].path {
      assert paths[i] != paths[j];
    }
  }

  /** A section path leads somewhere in the tree exactly when it is in the flat list. */
  lemma SectionLookupsAgree(d: Document, q: Path)
    requires SameDocument(d) && q != []
    ensures Resolve(d.root, q).Some? <==> q in PathsOf(d.sections)
  {
    ChildSectionListed(d.root.sections, [], q);
    assert [] + q == q;
  }

  /** A key path leads to a value in the tree exactly when it is in the flat list. */
  lemma KeyLookupsAgree(d: Document, q: Path)
    requires SameDocument(d)
    ensures ResolveKey(d.root, q).Some? <==> q in KeyPathsOf(d.keys)
  {
    var entries := Keys(d.root, []);
    assert [] + q == q;
    if ResolveKey(d.root, q).Some? {
      var v := ResolveKey(d.root, q).value;
      KeyListed(d.root, [], q, v);
      var i :| 0 <= i < |entries| && entries[i] == (q, v);
      assert Firsts(entries)[i] == q;
    }
    if q in KeyPathsOf(d.keys) {
      var i :| 0 <= i < |entries| && Firsts(entries)[i] == q;
      KeyListed(d.root, [], q, entries[i].1);
      assert entries[i] in entries;
    }
  }

  // ----- siblings come in the same order in both views

  /** The last names of the paths one step below `q`, in list order. */
  function NamesBelow(paths: seq<Path>, q: Path): seq<string> {
    if paths == [] then []
    else
      (if |paths[0]| == |q| + 1 && q <= paths[0] then [paths[0][|q|]] else []) + NamesBelow(paths[1..], q)
  }

  function ChildNames(children: seq<Child>): seq<string> {
    if children == [] then [] else [children[0].name] + ChildNames(children[1..])
  }

  lemma {:induction false} NamesBelowConcat(a: seq<Path>, b: seq<Path>, q: Path)
    ensures NamesBelow(a + b, q) == NamesBelow(a, q) + NamesBelow(b, q)
    decreases |a|
  {
    if a == [] {
      assert a + b == b;
    } else {
      assert (a + b)[1..] == a[1..] + b;
      NamesBelowConcat(a[1..], b, q);
    }
  }

  lemma {:induction false} NoneBelow(paths: seq<Path>, q: Path)
    requires forall p :: p in paths ==> !(|p| == |q| + 1 && q <= p)
    ensures NamesBelow(paths, q) == []
    decreases |paths|
  {
    if paths != [] {
      assert paths[0] in paths;
      NoneBelow(paths[1..], q);
    }
  }

  function NamesAt(children: seq<Child>, q: Path): seq<string> {
    if q == [] then ChildNames(children)
    else
      match FindSection(children, q[0])
      case None => []
      case Some(c) => (match Resolve(c, q[1..]) case None => [] case Some(s) => ChildNames(s.sections))
  }

  lemma {:induction false} NamesBelowAre(children: seq<Child>, at: Path, q: Path)
    requires TidyChildren(children)
    ensures NamesBelow(ChildSections(children, at), at + q) == NamesAt(children, q)
    decreases children, 0
  {
    if children != [] {
      var c, rest := children[0], children[1..];
      NamesBelowAre(rest, at, q);
      NamesBelowChild(c, at, q);
      NamesBelowConcat(Sections(c.section, at + [c.name]), ChildSections(rest, at), at + q);
    }
  }

  lemma {:induction false} NamesBelowChild(c: Child, at: Path, q: Path)
    requires TidyChildren(c.section.sections)
    ensures NamesBelow(Sections(c.section, at + [c.name]), at + q)
         == if q == [] then [c.name] else if q[0] == c.name then NamesAt(c.section.sections, q[1..]) else []
    decreases c, 1
  {
    var at' := at + [c.name];
    var head: seq<Path> := [at'];
    NamesBelowConcat(head, ChildSections(c.section.sections, at'), at + q);
    assert head[1..] == [];
    if q == [] {
      assert at + q == at && at'[|at|] == c.name;
      ElsewhereNone(c, at, q);
    } else if q[0] == c.name {
      assert at + q == at' + q[1..];
      NamesBelowAre(c.section.sections, at', q[1..]);
    } else {
      ElsewhereNone(c, at, q);
    }
  }

  lemma ElsewhereNone(c: Child, at: Path, q: Path)
    requires q == [] || q[0] != c.name
    ensures NamesBelow(ChildSections(c.section.sections, at + [c.name]), at + q) == []
    ensures q != [] ==> !(at + q <= at + [c.name])
  {
    var at' := at + [c.name];
    var paths := ChildSections(c.section.sections, at');
    forall p | p in paths ensures !(|p| == |at + q| + 1 && at + q <= p) {
      ChildSectionsBelow(c.section.sections, at', p);
      PrefixAt(at, c.name, p);
      if q != [] {
        assert (at + q)[|at|] == q[0];
      }
    }
    NoneBelow(paths, at + q);
    if q != [] {
      assert (at + q)[|at|] == q[0] && at'[|at|] == c.name;
    }
  }

  /** The child sections of every section are listed in the order the tree holds them. */
  lemma SiblingOrderAgrees(d: Document, q: Path)
    requires SameDocument(d)
    ensures NamesBelow(PathsOf(d.sections), q) ==
            match Resolve(d.root, q) case None => [] case Some(s) => ChildNames(s.sections)
  {
    NamesBelowAre(d.root.sections, [], q);
    assert [] + q == q;
  }

  // ----- where things lie

  /** Sections lie in the text, nested exactly along their paths and otherwise apart. */
  lemma SectionRangesNest(input: string, d: Document, i: nat, j: nat)
    requires LaidOut(input, d) && i < j < |d.sections|
    ensures var s := d.sections;
            && s[i].header.start == s[i].range.start < s[i].header.end <= s[i].range.end <= |input|
            && (if s[i].path <= s[j].path then Inside(s[j].range, s[i].range) else Apart(s[i].range, s[j].range))
            && !(s[j].path <= s[i].path)
  {
    SectionInBounds(d.sections, |input|, i);
    NestedIffPrefix(d.sections, |input|, i, j);
  }

  function Parent(path: Path): Path {
    if path == [] then [] else path[..|path| - 1]
  }

  /** A key lies inside exactly the sections on its path, after their headers and before their children. */
  lemma KeyRangesBelong(input: string, d: Document, k: nat, m: nat)
    requires LaidOut(input, d) && k < |d.keys| && m < |d.sections|
    ensures var key, s := d.keys[k], d.sections[m];
            && (if s.path <= Parent(key.path) then Inside(key.range, s.range) && s.header.end <= key.range.start
                else Apart(key.range, s.range))
            && (Parent(s.path) == Parent(key.path) ==> key.range.end <= s.range.start)
  {
    assert KeyPlaced(d.sections, d.keys[k], |input|);
    assert LinkedAt(d.sections, m);
    KeyInsideIffOnPath(d.sections, d.keys[k], |input|, m);
    if Parent(d.sections[m].path) == Parent(d.keys[k].path) {
      KeysPrecedeChildren(d.sections, d.keys[k], |input|, m);
    }
  }

  /** A triple-quoted value that the line joining passes on always closes. */
  lemma JoinedTripleCloses(lines: seq<SourceLine>, index: nat, line: nat)
    requires index < |lines| && Joined(lines, index, lines[index].text).Some?
    ensures var text := ValuePart(Joined(lines, index, lines[index].text).value.0);
            StartsWith(Trim(text), DOUBLE) || StartsWith(Trim(text), SINGLE) ==> ValueOf(text, line).Ok?
  {
    var text := ValuePart(Joined(lines, index, lines[index].text).value.0);
    if StartsWith(Trim(text), DOUBLE) || StartsWith(Trim(text), SINGLE) {
      ConfigNotation.TerminatedTripleReads(text, line);
    }
  }

  // ----- nothing read is left out

  /** Every item of the text from a line on, with the line it starts on; none if one is malformed. */
  function Walk(lines: seq<SourceLine>, index: nat): Option<seq<(nat, Item)>>
    requires index <= |lines|
    decreases |lines| - index
  {
    if index == |lines| then Some([])
    else
      match ReadItem(lines, index)
      case Err(_) => None
      case Ok(item) =>
        match Walk(lines, NextIndex(item, index))
        case None => None
        case Some(rest) => Some([(index, item)] + rest)
  }

  function NextIndex(item: Item, index: nat): nat {
    if item.Pair? then item.last + 1 else index + 1
  }

  lemma WalkUnfolds(lines: seq<SourceLine>, index: nat, item: Item, rest: seq<(nat, Item)>)
    requires index < |lines| && ReadItem(lines, index) == Ok(item) && NextIndex(item, index) <= |lines|
    requires Walk(lines, NextIndex(item, index)) == Some(rest)
    ensures Walk(lines, index) == Some([(index, item)] + rest)
  {
  }

  /** A section as written: its name, depth and header. */
  datatype WrittenSection = WrittenSection(name: string, depth: nat, header: Range)

  /** A key as written: its name, value and range. */
  datatype WrittenKey = WrittenKey(name: string, value: Value, range: Range)

  function SectionIn(lines: seq<SourceLine>, index: nat, item: Item): seq<WrittenSection> {
    if item.Header? && index < |lines|
    then [WrittenSection(item.name, item.depth, Range(lines[index].start, lines[index].fullEnd))] else []
  }

  function KeyIn(lines: seq<SourceLine>, index: nat, item: Item): seq<WrittenKey> {
    if item.Pair? && index < |lines| && item.last < |lines|
    then [WrittenKey(item.key, item.value, Range(lines[index].start, lines[item.last].fullEnd))] else []
  }

  function WrittenSections(lines: seq<SourceLine>, items: seq<(nat, Item)>): seq<WrittenSection> {
    if items == [] then [] else SectionIn(lines, items[0].0, items[0].1) + WrittenSections(lines, items[1..])
  }

  function WrittenKeys(lines: seq<SourceLine>, items: seq<(nat, Item)>): seq<WrittenKey> {
    if items == [] then [] else KeyIn(lines, items[0].0, items[0].1) + WrittenKeys(lines, items[1..])
  }

  lemma WrittenOne(lines: seq<SourceLine>, index: nat, item: Item, rest: seq<(nat, Item)>)
    ensures WrittenSections(lines, [(index, item)]) == SectionIn(lines, index, item)
    ensures WrittenKeys(lines, [(index, item)]) == KeyIn(lines, index, item)
    ensures WrittenSections(lines, [(index, item)] + rest)
         == SectionIn(lines, index, item) + WrittenSections(lines, rest)
    ensures WrittenKeys(lines, [(index, item)] + rest) == KeyIn(lines, index, item) + WrittenKeys(lines, rest)
  {
    var one: seq<(nat, Item)>, items: seq<(nat, Item)> := [(index, item)], [(index, item)] + rest;
    assert one[1..] == [] && items[1..] == rest;
    assert SectionIn(lines, index, item) + [] == SectionIn(lines, index, item);
    assert KeyIn(lines, index, item) + [] == KeyIn(lines, index, item);
  }

  function LastName(path: Path): string {
    if path == [] then "" else path[|path| - 1]
  }

  function AsWritten(s: DocumentSection): WrittenSection {
    WrittenSection(LastName(s.path), s.depth, s.header)
  }

  function SectionsAsWritten(s: seq<DocumentSection>): (r: seq<WrittenSection>)
    ensures |r| == |s|
  {
    seq(|s|, i requires 0 <= i < |s| => AsWritten(s[i]))
  }

  function KeysAsWritten(keys: seq<DocumentKey>, entries: seq<(Path, Value)>): (r: seq<WrittenKey>)
    requires |keys| == |entries|
    ensures |r| == |keys|
  {
    seq(|keys|, i requires 0 <= i < |keys| => WrittenKey(LastName(keys[i].path), entries[i].1, keys[i].range))
  }

  function Entries(p: Parser): seq<(Path, Value)> {
    StackKeys(p.stack.root, p.stack.open)
  }

  lemma EntriesMatch(p: Parser)
    requires TreeAgrees(p)
    ensures |p.keys| == |Entries(p)|
  {
    assert |KeyPathsOf(p.keys)| == |Firsts(Entries(p))|;
  }

  lemma HeaderRecorded(p: Parser, name: string, depth: nat, line: SourceLine, limit: nat)
    requires depth >= 1 && InRange(p.open, |p.sections|)
    requires OpenSection(p, name, depth, line, limit).Ok?
    ensures var q := OpenSection(p, name, depth, line, limit).value;
            SectionsAsWritten(q.sections)
            == SectionsAsWritten(p.sections) + [WrittenSection(name, depth, Range(line.start, line.fullEnd))]
  {
    var q := OpenSection(p, name, depth, line, limit).value;
    EndDeeperKeeps(p.sections, p.open, depth, line.start);
    forall i | 0 <= i < |p.sections| ensures AsWritten(q.sections[i]) == AsWritten(p.sections[i]) {
    }
  }

  lemma HeaderKeepsKeys(p: Parser, name: string, depth: nat, line: SourceLine, limit: nat)
    requires TreeAgrees(p) && depth >= 1 && InRange(p.open, |p.sections|)
    requires OpenSection(p, name, depth, line, limit).Ok?
    ensures var q := OpenSection(p, name, depth, line, limit).value; q.keys == p.keys && Entries(q) == Entries(p)
  {
    var stack := ClosedTo(p.stack, depth - 1);
    ClosingKeeps(p.stack, depth - 1);
    TidyDepth(stack);
    OpeningAppends(stack, name, depth);
  }

  lemma PairRecorded(p: Parser, key: string, value: Value, line: SourceLine, end: nat)
    requires TreeAgrees(p) && AddKey(p, key, value, line, end).Ok? && |p.keys| == |Entries(p)|
    ensures var q := AddKey(p, key, value, line, end).value;
            && q.sections == p.sections && |q.keys| == |Entries(q)|
            && KeysAsWritten(q.keys, Entries(q))
               == KeysAsWritten(p.keys, Entries(p)) + [WrittenKey(key, value, Range(line.start, end))]
  {
    AddingAppends(p.stack, Entry(key, value));
  }

  /** The two lists, each behind the quantifier of `Recorded`, so that a proof unfolds only the one it is about. */
  datatype Listing = OfSections | OfKeys

  /** One list grew by what the items write. */
  ghost predicate Grew(p: Parser, q: Parser, lines: seq<SourceLine>, items: seq<(nat, Item)>, listing: Listing) {
    match listing
    case OfSections => SectionsAsWritten(q.sections) == SectionsAsWritten(p.sections) + WrittenSections(lines, items)
    case OfKeys =>
      && |p.keys| == |Entries(p)| && |q.keys| == |Entries(q)|
      && KeysAsWritten(q.keys, Entries(q)) == KeysAsWritten(p.keys, Entries(p)) + WrittenKeys(lines, items)
  }

  /** The state after some items records them and everything before. */
  ghost predicate Recorded(p: Parser, q: Parser, lines: seq<SourceLine>, items: seq<(nat, Item)>) {
    forall listing :: Grew(p, q, lines, items, listing)
  }

  lemma MakesRecorded(p: Parser, q: Parser, lines: seq<SourceLine>, items: seq<(nat, Item)>)
    requires Grew(p, q, lines, items, OfSections) && Grew(p, q, lines, items, OfKeys)
    ensures Recorded(p, q, lines, items)
  {
    forall listing ensures Grew(p, q, lines, items, listing) {
      match listing {
        case OfSections =>
        case OfKeys =>
      }
    }
  }

  lemma ItemRecorded(p: Parser, item: Item, lines: seq<SourceLine>, index: nat, limit: nat)
    requires TreeAgrees(p) && index < |lines| && InRange(p.open, |p.sections|)
    requires item.Header? ==> item.depth >= 1
    requires item.Pair? ==> index <= item.last < |lines|
    requires Apply(p, item, lines, index, limit).Ok?
    ensures Recorded(p, Apply(p, item, lines, index, limit).value.0, lines, [(index, item)])
  {
    EntriesMatch(p);
    WrittenOne(lines, index, item, []);
    match item {
      case Nothing =>
      case Header(name, depth) =>
        HeaderRecorded(p, name, depth, lines[index], limit);
        HeaderKeepsKeys(p, name, depth, lines[index], limit);
      case Pair(key, value, last) =>
        PairRecorded(p, key, value, lines[index], lines[last].fullEnd);
    }
    MakesRecorded(p, Apply(p, item, lines, index, limit).value.0, lines, [(index, item)]);
  }

  lemma RecordedTogether(
    p: Parser, q: Parser, r: Parser, lines: seq<SourceLine>, first: (nat, Item), rest: seq<(nat, Item)>)
    requires Recorded(p, q, lines, [first]) && Recorded(q, r, lines, rest)
    ensures Recorded(p, r, lines, [first] + rest)
  {
    WrittenOne(lines, first.0, first.1, rest);
    WrittenOne(lines, first.0, first.1, []);
    assert Grew(p, q, lines, [first], OfSections) && Grew(p, q, lines, [first], OfKeys);
    assert Grew(q, r, lines, rest, OfSections) && Grew(q, r, lines, rest, OfKeys);
    Regroup(SectionsAsWritten(p.sections), SectionIn(lines, first.0, first.1), WrittenSections(lines, rest));
    Regroup(KeysAsWritten(p.keys, Entries(p)), KeyIn(lines, first.0, first.1), WrittenKeys(lines, rest));
    assert [(first.0, first.1)] == [first];
    MakesRecorded(p, r, lines, [first] + rest);
  }

  lemma NothingRecorded(p: Parser, lines: seq<SourceLine>)
    requires TreeAgrees(p)
    ensures Recorded(p, p, lines, [])
  {
    EntriesMatch(p);
    assert SectionsAsWritten(p.sections) + [] == SectionsAsWritten(p.sections);
    assert KeysAsWritten(p.keys, Entries(p)) + [] == KeysAsWritten(p.keys, Entries(p));
    MakesRecorded(p, p, lines, []);
  }

  /** One turn of the loop records the item it read. */
  lemma TurnRecords(input: string, p: Parser, lines: seq<SourceLine>, index: nat) returns (item: Item)
    requires Covers(input, lines) && Sound(input, p, lines, index) && index < |lines|
    requires InRange(p.open, |p.sections|) && Turn(p, lines, index, |input|).Ok?
    ensures ReadItem(lines, index) == Ok(item)
    ensures var (q, next) := Turn(p, lines, index, |input|).value;
            next == (if item.Pair? then item.last + 1 else index + 1) && Recorded(p, q, lines, [(index, item)])
  {
    item := ReadItem(lines, index).value;
    SoundMeans(input, p, lines, index);
    ItemRecorded(p, item, lines, index, |input|);
  }

  lemma {:induction false} RunRecords(input: string, p: Parser, lines: seq<SourceLine>, index: nat)
    requires Covers(input, lines) && Sound(input, p, lines, index) && ParseFrom(input, p, lines, index).Ok?
    ensures Walk(lines, index).Some?
    ensures Recorded(p, ParseFrom(input, p, lines, index).value, lines, Walk(lines, index).value)
    decreases |lines| - index
  {
    if index == |lines| {
      SoundMeans(input, p, lines, index);
      NothingRecorded(p, lines);
    } else {
      TurnKeepsSound(input, p, lines, index);
      var (q, next) := Turn(p, lines, index, |input|).value;
      var item := TurnRecords(input, p, lines, index);
      RunRecords(input, q, lines, next);
      RecordedTogether(p, q, ParseFrom(input, q, lines, next).value, lines, (index, item), Walk(lines, next).value);
    }
  }

  /**
   * Everything written is recorded: the sections are the headers of the text and the keys, with the
   * values the tree holds for them, are its key lines, each once and in order.
   */
  lemma EverythingIsRecorded(input: string)
    requires Parse(input).Ok?
    ensures var d, lines := Parse(input).value, LinesFrom(input, 0, 1);
            && Walk(lines, 0).Some? && |d.keys| == |Keys(d.root, [])|
            && SectionsAsWritten(d.sections) == WrittenSections(lines, Walk(lines, 0).value)
            && KeysAsWritten(d.keys, Keys(d.root, [])) == WrittenKeys(lines, Walk(lines, 0).value)
  {
    var lines := LinesFrom(input, 0, 1);
    InputIsCovered(input);
    StartIsSound(input, lines);
    RunRecords(input, ConfigDocument.START, lines, 0);
    var p := ParseFrom(input, ConfigDocument.START, lines, 0).value;
    SoundInRange(input, p, lines, |lines|);
    SoundMeans(input, p, lines, |lines|);
    NothingLeftToEnd(input, p);
    FinishingKeepsOrder(p.stack);
    var w := Walk(lines, 0).value;
    assert Grew(ConfigDocument.START, p, lines, w, OfSections) && Grew(ConfigDocument.START, p, lines, w, OfKeys);
    assert [] + WrittenSections(lines, w) == WrittenSections(lines, w);
    assert [] + WrittenKeys(lines, w) == WrittenKeys(lines, w);
    assert SectionsAsWritten([]) == [] && KeysAsWritten([], Entries(ConfigDocument.START)) == [];
  }
}
