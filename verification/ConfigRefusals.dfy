/** What a text is refused for: the first line that cannot be read, skips a depth or repeats a path. */
module ConfigRefusals {
  import opened Bytes
  import opened ConfigValue
  import opened ConfigSyntax
  import opened ConfigTree
  import opened ConfigFlatten
  import opened ConfigDocument
  import opened ConfigAgreement
  import opened ConfigParser
  import opened ConfigAcceptance
  import opened ConfigReadBack
  import W = ConfigWriting

  // ----- the first fault of a text

  /** The section a line comes in, and the sections and keys before it. */
  datatype Outline = Outline(path: Path, sections: seq<Path>, keys: seq<Path>)

  function OutlineOf(p: Parser): Outline {
    Outline(p.path, PathsOf(p.sections), KeyPathsOf(p.keys))
  }

  /** What is wrong with an item on this line. */
  function ItemFault(item: Item, line: nat, o: Outline): Option<ConfigError> {
    match item
    case Nothing => None
    case Header(name, depth) =>
      if depth > |o.path| + 1 then Some(SectionDepthJump(line, depth, |o.path|))
      else if PathAfter(o.path, item) in o.sections then Some(DuplicateSection(line, name))
      else None
    case Pair(key, _, _) => if o.path + [key] in o.keys then Some(DuplicateKey(line, key)) else None
  }

  function WithItem(o: Outline, item: Item): Outline {
    var path := PathAfter(o.path, item);
    Outline(path, o.sections + (if item.Header? then [path] else []),
            o.keys + (if item.Pair? then [o.path + [item.key]] else []))
  }

  /** The first fault from a line on. */
  function FirstFault(lines: seq<SourceLine>, index: nat, o: Outline): Option<ConfigError>
    requires index <= |lines|
    decreases |lines| - index
  {
    if index == |lines| then None
    else
      match ReadItem(lines, index)
      case Err(e) => Some(e)
      case Ok(item) => FaultOrNext(lines, index, item, o)
  }

  function FaultOrNext(lines: seq<SourceLine>, index: nat, item: Item, o: Outline): Option<ConfigError>
    requires index < |lines| && (item.Pair? ==> index <= item.last < |lines|)
    decreases |lines| - index, 0
  {
    var fault := ItemFault(item, lines[index].number, o);
    if fault.Some? then fault else FirstFault(lines, NextIndex(item, index), WithItem(o, item))
  }

  predicate RefusedFor<T>(r: Result<T, ConfigError>, fault: Option<ConfigError>) {
    if r.Err? then fault == Some(r.error) else fault.None?
  }

  lemma HeaderRefused(p: Parser, name: string, depth: nat, line: SourceLine, limit: nat)
    requires TreeAgrees(p) && depth >= 1 && InRange(p.open, |p.sections|)
    ensures RefusedFor(
              OpenSection(p, name, depth, line, limit), ItemFault(Header(name, depth), line.number, OutlineOf(p)))
  {
    var s := ClosedTo(p.stack, depth - 1);
    ClosingKeeps(p.stack, depth - 1);
    TidyDepth(s);
    ParentPath(p, depth);
    assert |p.path| == |p.stack.open|;
    SectionFoundIff(s, name);
  }

  lemma PairRefused(p: Parser, key: string, value: Value, last: nat, line: SourceLine, end: nat)
    requires TreeAgrees(p)
    ensures RefusedFor(
              AddKey(p, key, value, line, end), ItemFault(Pair(key, value, last), line.number, OutlineOf(p)))
  {
    KeyFoundIff(p.stack, key);
  }

  lemma TurnRefused(input: string, p: Parser, lines: seq<SourceLine>, index: nat)
    requires Sound(input, p, lines, index) && index < |lines| && InRange(p.open, |p.sections|)
    requires ReadItem(lines, index).Ok?
    ensures RefusedFor(
              Turn(p, lines, index, |input|),
              ItemFault(ReadItem(lines, index).value, lines[index].number, OutlineOf(p)))
  {
    SoundMeans(input, p, lines, index);
    var item, line := ReadItem(lines, index).value, lines[index];
    match item {
      case Nothing =>
      case Header(name, depth) => HeaderRefused(p, name, depth, line, |input|);
      case Pair(key, value, last) => PairRefused(p, key, value, last, line, lines[last].fullEnd);
    }
  }

  /** The fault of the line is the turn's, and without one the faults go on where the turn ends. */
  lemma FaultStep(input: string, p: Parser, lines: seq<SourceLine>, index: nat)
    requires Sound(input, p, lines, index) && index < |lines| && InRange(p.open, |p.sections|)
    ensures var fault, turn := FirstFault(lines, index, OutlineOf(p)), Turn(p, lines, index, |input|);
            fault == if turn.Err? then Some(turn.error) else FirstFault(lines, turn.value.1, OutlineOf(turn.value.0))
  {
    if ReadItem(lines, index).Ok? {
      TurnRefused(input, p, lines, index);
      TurnAcceptedIff(input, p, lines, index);
    }
  }

  lemma {:induction false} RunRefused(input: string, p: Parser, lines: seq<SourceLine>, index: nat)
    requires Covers(input, lines) && Sound(input, p, lines, index)
    ensures RefusedFor(ParseFrom(input, p, lines, index), FirstFault(lines, index, OutlineOf(p)))
    decreases |lines| - index
  {
    if index < |lines| {
      TurnKeepsSound(input, p, lines, index);
      FaultStep(input, p, lines, index);
      var turn := Turn(p, lines, index, |input|);
      if turn.Ok? {
        RunRefused(input, turn.value.0, lines, turn.value.1);
      }
    }
  }

  const NOTHING := Outline([], [], [])

  /** A text is refused for its first fault, and parses if it has none. */
  lemma RefusedExactly(input: string)
    ensures RefusedFor(Parse(input), FirstFault(LinesFrom(input, 0, 1), 0, NOTHING))
  {
    var lines := LinesFrom(input, 0, 1);
    InputIsCovered(input);
    StartIsSound(input, lines);
    RunRefused(input, ConfigDocument.START, lines, 0);
    assert PathsOf([]) == [] && KeyPathsOf([]) == [];
  }

  // ----- written documents

  /** What is wrong with an entry on this line. */
  function EntryFault(e: W.Entry, line: nat, o: Outline): Option<ConfigError> {
    if e.Head? && e.heading.depth > |o.path| + 1 then Some(SectionDepthJump(line, e.heading.depth, |o.path|))
    else if e.Head? && PathFrom(o.path, e) in o.sections then Some(DuplicateSection(line, e.heading.name.text))
    else if e.Set? && o.path + [e.name.text] in o.keys then Some(DuplicateKey(line, e.name.text))
    else None
  }

  function WithEntry(o: Outline, e: W.Entry): Outline {
    var path := PathFrom(o.path, e);
    Outline(path, o.sections + (if e.Head? then [path] else []),
            o.keys + (if e.Set? then [o.path + [e.name.text]] else []))
  }

  function WithEntries(o: Outline, es: seq<W.Entry>): Outline
    decreases |es|
  {
    if es == [] then o else WithEntries(WithEntry(o, es[0]), es[1..])
  }

  /** The first entry that skips a depth or repeats a path, with the line it starts on. */
  function FirstWrong(es: seq<W.Entry>, line: nat, o: Outline): Option<ConfigError>
    decreases |es|
  {
    if es == [] then None
    else
      var fault := EntryFault(es[0], line, o);
      if fault.Some? then fault else FirstWrong(es[1..], line + W.Height(es[0]), WithEntry(o, es[0]))
  }

  // ----- items one after another

  function WithItems(o: Outline, items: seq<(nat, Item)>): Outline
    decreases |items|
  {
    if items == [] then o else WithItems(WithItem(o, items[0].1), items[1..])
  }

  function FaultAmong(items: seq<(nat, Item)>, o: Outline): Option<ConfigError>
    decreases |items|
  {
    if items == [] then None
    else
      var fault := ItemFault(items[0].1, items[0].0 + 1, o);
      if fault.Some? then fault else FaultAmong(items[1..], WithItem(o, items[0].1))
  }

  type Faults = (nat, Outline) -> Option<ConfigError>

  function Faulting(lines: seq<SourceLine>): Faults {
    (index: nat, o: Outline) => if index <= |lines| then FirstFault(lines, index, o) else None
  }

  /** A line that reads as an item has the item's fault, or the next one's. */
  ghost predicate FaultsLike(faults: Faults, lines: seq<SourceLine>, index: nat, item: Item, o: Outline) {
    W.ReadsAs(lines, index, item) ==>
      faults(index, o) ==
      var fault := ItemFault(item, index + 1, o);
      if fault.Some? then fault else faults(NextIndex(item, index), WithItem(o, item))
  }

  ghost predicate Numbered(lines: seq<SourceLine>) {
    forall i :: 0 <= i < |lines| ==> lines[i].number == i + 1
  }

  lemma FaultUnfolds(lines: seq<SourceLine>, index: nat, item: Item, o: Outline)
    requires W.ReadsAs(lines, index, item)
    ensures index < |lines| && (item.Pair? ==> index <= item.last < |lines|)
    ensures FirstFault(lines, index, o) == FaultOrNext(lines, index, item, o)
  {
    W.ReadsMeans(lines, index, item);
    assert ReadItem(lines, index).Ok? && ReadItem(lines, index).value == item;
  }

  lemma ItemFaults(lines: seq<SourceLine>, index: nat, item: Item, o: Outline)
    requires Numbered(lines)
    ensures FaultsLike(Faulting(lines), lines, index, item, o)
  {
    if W.ReadsAs(lines, index, item) {
      FaultUnfolds(lines, index, item, o);
    }
  }

  /** Behind items with no fault the faults are those of the lines after them. */
  lemma {:induction false} FaultsBehind(
    faults: Faults, lines: seq<SourceLine>, items: seq<(nat, Item)>, index: nat, end: nat, o: Outline)
    requires forall i, item, o :: FaultsLike(faults, lines, i, item, o)
    requires Chained(items, index, end)
    requires forall i :: 0 <= i < |items| ==> W.ReadsAs(lines, items[i].0, items[i].1)
    ensures faults(index, o) ==
            var fault := FaultAmong(items, o);
            if fault.Some? then fault else faults(end, WithItems(o, items))
    decreases |items|
  {
    if items != [] {
      var item := items[0].1;
      assert FaultsLike(faults, lines, index, item, o);
      FaultsBehind(faults, lines, items[1..], NextIndex(item, index), end, WithItem(o, item));
    }
  }

  lemma ItemFaultIs(e: W.Entry, item: Item, line: nat, index: nat, o: Outline)
    requires W.SoundEntry(e) && item == W.ItemOf(e, index)
    ensures ItemFault(item, line, o) == EntryFault(e, line, o) && WithItem(o, item) == WithEntry(o, e)
  {
    PathIs(o.path, e, index);
  }

  lemma {:induction false} FaultsOfEntries(es: seq<W.Entry>, index: nat, o: Outline)
    requires forall i :: 0 <= i < |es| ==> W.SoundEntry(es[i])
    ensures FaultAmong(ItemsOf(es, index), o) == FirstWrong(es, index + 1, o)
    ensures WithItems(o, ItemsOf(es, index)) == WithEntries(o, es)
    decreases |es|
  {
    if es != [] {
      ItemsCons(es, index);
      ItemFaultIs(es[0], W.ItemOf(es[0], index), index + 1, index, o);
      FaultsOfEntries(es[1..], index + W.Height(es[0]), WithEntry(o, es[0]));
    }
  }

  // ----- a document, and lines after it

  lemma {:induction false} LinesNumbered(input: string, start: nat, number: nat)
    requires start <= |input|
    ensures forall i :: 0 <= i < |LinesFrom(input, start, number)| ==>
              LinesFrom(input, start, number)[i].number == number + i
    decreases |input| - start
  {
    if start < |input| {
      LinesNumbered(input, LineEnd(input, start), number + 1);
    }
  }

  /** The lines of a written document, with some more after them. */
  lemma LinesOf(es: seq<W.Entry>, more: seq<string>, crlf: bool, texts: seq<string>) returns (lines: seq<SourceLine>)
    requires texts == AllTexts(es) + more && forall i :: 0 <= i < |texts| ==> OneLine(texts[i], crlf)
    ensures lines == LinesFrom(WriteLines(texts, crlf), 0, 1) && Numbered(lines) && |lines| == |texts|
    ensures W.TextsAt(lines, 0, AllTexts(es)) && W.TextsAt(lines, |AllTexts(es)|, more)
  {
    var input := WriteLines(texts, crlf);
    lines := LinesFrom(input, 0, 1);
    assert input[0..] == input;
    WrittenLines(input, 0, 1, texts, crlf);
    LinesNumbered(input, 0, 1);
    assert W.TextsAt(lines, 0, texts);
    EntryAt(lines, 0, AllTexts(es), more);
  }

  lemma EntriesAreRead(es: seq<W.Entry>, lines: seq<SourceLine>) returns (items: seq<(nat, Item)>)
    requires (forall i :: 0 <= i < |es| ==> W.SoundEntry(es[i])) && W.TextsAt(lines, 0, AllTexts(es))
    ensures items == ItemsOf(es, 0) && Chained(items, 0, |AllTexts(es)|)
    ensures forall i :: 0 <= i < |items| ==> W.ReadsAs(lines, items[i].0, items[i].1)
  {
    items := ItemsOf(es, 0);
    EntriesChain(es, 0);
    AllRead(es, lines, items);
  }

  lemma ReadEntries(es: seq<W.Entry>, lines: seq<SourceLine>) returns (items: seq<(nat, Item)>)
    requires (forall i :: 0 <= i < |es| ==> W.SoundEntry(es[i])) && W.TextsAt(lines, 0, AllTexts(es))
    ensures Chained(items, 0, |AllTexts(es)|)
    ensures forall i :: 0 <= i < |items| ==> W.ReadsAs(lines, items[i].0, items[i].1)
    ensures FaultAmong(items, NOTHING) == FirstWrong(es, 1, NOTHING)
    ensures WithItems(NOTHING, items) == WithEntries(NOTHING, es)
  {
    items := EntriesAreRead(es, lines);
    FaultsOfEntries(es, 0, NOTHING);
  }

  /** The fault of a document, or else of the lines after it. */
  lemma FaultBehind(es: seq<W.Entry>, lines: seq<SourceLine>)
    requires (forall i :: 0 <= i < |es| ==> W.SoundEntry(es[i])) && Numbered(lines)
    requires W.TextsAt(lines, 0, AllTexts(es))
    ensures FirstFault(lines, 0, NOTHING) ==
            var fault := FirstWrong(es, 1, NOTHING);
            if fault.Some? then fault else FirstFault(lines, |AllTexts(es)|, WithEntries(NOTHING, es))
  {
    var items := ReadEntries(es, lines);
    FaultBehindItems(lines, items, |AllTexts(es)|);
  }

  lemma FaultBehindItems(lines: seq<SourceLine>, items: seq<(nat, Item)>, end: nat)
    requires Numbered(lines) && Chained(items, 0, end) && end <= |lines|
    requires forall i :: 0 <= i < |items| ==> W.ReadsAs(lines, items[i].0, items[i].1)
    ensures FirstFault(lines, 0, NOTHING) ==
            var fault := FaultAmong(items, NOTHING);
            if fault.Some? then fault else FirstFault(lines, end, WithItems(NOTHING, items))
  {
    forall i, item, o ensures FaultsLike(Faulting(lines), lines, i, item, o) {
      ItemFaults(lines, i, item, o);
    }
    FaultsBehind(Faulting(lines), lines, items, 0, end, NOTHING);
  }

  /** A written document is refused for the first entry that skips a depth or repeats a path, by kind, line and name. */
  lemma WrittenRefused(es: seq<W.Entry>, crlf: bool)
    requires SoundDocument(es, crlf)
    ensures RefusedFor(Parse(WriteDocument(es, crlf)), FirstWrong(es, 1, NOTHING))
  {
    assert AllTexts(es) + [] == AllTexts(es);
    var lines := LinesOf(es, [], crlf, AllTexts(es));
    FaultBehind(es, lines);
    RefusedExactly(WriteDocument(es, crlf));
  }

  /** A line that cannot be read is what a text is refused for, behind a document with no fault of its own. */
  lemma UnreadableRefused(
    es: seq<W.Entry>, more: seq<string>, crlf: bool, texts: seq<string>, lines: seq<SourceLine>, e: ConfigError)
    requires (forall i :: 0 <= i < |es| ==> W.SoundEntry(es[i])) && FirstWrong(es, 1, NOTHING).None?
    requires texts == AllTexts(es) + more && more != [] && forall i :: 0 <= i < |texts| ==> OneLine(texts[i], crlf)
    requires lines == LinesFrom(WriteLines(texts, crlf), 0, 1) && |lines| == |texts|
    requires ReadItem(lines, |AllTexts(es)|) == Err(e)
    ensures Parse(WriteLines(texts, crlf)) == Err(e)
  {
    var same := LinesOf(es, more, crlf, texts);
    FaultBehind(es, lines);
    RefusedExactly(WriteLines(texts, crlf));
  }
}
