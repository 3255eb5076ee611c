/** `parse_document` of `prns-config/src/configobj.rs` as it runs: one loop over the lines. */
module ConfigLoop {
  import opened Bytes
  import opened Text
  import opened ConfigValue
  import opened ConfigSyntax
  import opened ConfigTree
  import opened ConfigLayout
  import opened ConfigDocument
  import opened ConfigParser

  /** Joins lines while a triple-quoted value stays open. */
  method JoinLines(lines: seq<SourceLine>, from: nat) returns (joined: Option<(string, nat)>)
    requires from < |lines|
    ensures joined == Joined(lines, from, lines[from].text)
  {
    var index, raw := from, lines[from].text;
    while UnterminatedTriple(ValuePart(raw)).Some?
      invariant from <= index < |lines|
      invariant Joined(lines, from, lines[from].text) == Joined(lines, index, raw)
      decreases |lines| - index
    {
      index := index + 1;
      if index == |lines| {
        return None;
      }
      raw := raw + "\n" + lines[index].text;
    }
    return Some((raw, index));
  }

  /** What a line holds: nothing, a section header, or a pair with the lines its value runs over. */
  method ReadLine(lines: seq<SourceLine>, index: nat) returns (r: Result<Item, ConfigError>)
    requires index < |lines|
    ensures r == ReadItem(lines, index)
  {
    var line := lines[index];
    var trimmed := Trim(line.text);
    if trimmed == "" || trimmed[0] == '#' {
      return Ok(Nothing);
    }
    if trimmed[0] == '[' {
      var header := SectionHeader(trimmed, line.number);
      return if header.Err? then Err(header.error) else Ok(Header(header.value.0, header.value.1));
    }
    var joined := JoinLines(lines, index);
    if joined.None? {
      return Err(UnterminatedQuote(line.number));
    }
    var pair := KeyValue(joined.value.0, line.number);
    return if pair.Err? then Err(pair.error) else Ok(Pair(pair.value.0, pair.value.1, joined.value.1));
  }

  /** Ends the ranges of open sections at least as deep as `depth`. */
  method EndRanges(sections: seq<DocumentSection>, open: seq<nat>, depth: nat, start: nat)
    returns (ended: seq<DocumentSection>, remaining: seq<nat>)
    requires InRange(open, |sections|)
    ensures (ended, remaining) == EndDeeper(sections, open, depth, start)
  {
    ended, remaining := sections, open;
    while remaining != [] && ended[remaining[|remaining| - 1]].depth >= depth
      invariant |ended| == |sections| && InRange(remaining, |ended|)
      invariant EndDeeper(sections, open, depth, start) == EndDeeper(ended, remaining, depth, start)
      decreases |remaining|
    {
      var last := remaining[|remaining| - 1];
      remaining := remaining[..|remaining| - 1];
      ended := WithEnd(ended, last, start);
    }
  }

  /** The ranges still open at the end of the text end there. */
  method EndAll(sections: seq<DocumentSection>, open: seq<nat>, limit: nat) returns (ended: seq<DocumentSection>)
    requires InRange(open, |sections|)
    ensures ended == ToEnd(sections, open, limit)
  {
    ended := sections;
    for i := 0 to |open|
      invariant |ended| == |sections| && ToEnd(sections, open, limit) == ToEnd(ended, open[i..], limit)
    {
      ended := WithEnd(ended, open[i], limit);
      assert open[i..][1..] == open[i + 1..];
    }
  }

  class DocumentBuilder {
    const stack: SectionStack
    var locations: map<Path, nat>
    var currentPath: Path
    var sections: seq<DocumentSection>
    var openSections: seq<nat>
    var keys: seq<DocumentKey>

    ghost function State(): Parser
      reads this, stack
    {
      Parser(stack.Contents(), currentPath, sections, openSections, keys, locations)
    }

    constructor ()
      ensures State() == ConfigDocument.START && fresh(stack)
    {
      stack := new SectionStack();
      locations, currentPath, sections, openSections, keys := map[], [], [], [], [];
    }

    /** A section header: close deeper sections, check, then open the new one everywhere at once. */
    method TakeHeader(name: string, depth: nat, line: SourceLine, limit: nat) returns (fault: Option<ConfigError>)
      requires depth >= 1 && InRange(openSections, |sections|)
      modifies this, stack
      ensures match OpenSection(old(State()), name, depth, line, limit)
              case Err(e) => fault == Some(e)
              case Ok(p) => fault == None && State() == p
    {
      stack.CloseTo(depth - 1);
      var parentDepth := if stack.open == [] then 0 else stack.open[|stack.open| - 1].depth;
      if depth != parentDepth + 1 {
        return Some(SectionDepthJump(line.number, depth, parentDepth));
      }
      var current := if stack.open == [] then stack.root else stack.open[|stack.open| - 1].section;
      if FindSection(current.sections, name).Some? {
        return Some(DuplicateSection(line.number, name));
      }
      Enter(name, depth, line, limit);
      return None;
    }

    /** Opens the section in the tree, in the lists and in the line map. */
    method Enter(name: string, depth: nat, line: SourceLine, limit: nat)
      requires depth >= 1 && InRange(openSections, |sections|)
      modifies this, stack
      ensures stack.Contents() == Opened(old(stack.Contents()), name, depth)
      ensures currentPath == Truncated(old(currentPath), depth - 1) + [name]
      ensures keys == old(keys) && locations == old(locations)[currentPath := line.number]
      ensures var (ended, remaining) := EndDeeper(old(sections), old(openSections), depth, line.start);
              && sections == ended + [DocumentSection(currentPath, depth, Range(line.start, limit),
                                                      Range(line.start, line.fullEnd))]
              && openSections == remaining + [|ended|]
    {
      stack.Open(name, depth);
      currentPath := Truncated(currentPath, depth - 1);
      currentPath := currentPath + [name];
      locations := locations[currentPath := line.number];
      sections, openSections := EndRanges(sections, openSections, depth, line.start);
      var sectionIndex := |sections|;
      var header := Range(line.start, line.fullEnd);
      sections := sections + [DocumentSection(currentPath, depth, Range(line.start, limit), header)];
      openSections := openSections + [sectionIndex];
    }

    /** A key and its value, added to the innermost open section and to the lists. */
    method TakePair(key: string, value: Value, line: SourceLine, keyEnd: nat) returns (fault: Option<ConfigError>)
      modifies this, stack
      ensures match AddKey(old(State()), key, value, line, keyEnd)
              case Err(e) => fault == Some(e)
              case Ok(p) => fault == None && State() == p
    {
      var current := if stack.open == [] then stack.root else stack.open[|stack.open| - 1].section;
      if FindScalar(current.scalars, key).Some? {
        return Some(DuplicateKey(line.number, key));
      }
      var keyPath := currentPath + [key];
      locations := locations[keyPath := line.number];
      keys := keys + [DocumentKey(keyPath, Range(line.start, keyEnd))];
      stack.SetCurrent(current.(scalars := current.scalars + [Entry(key, value)]));
      return None;
    }

    /** One line, or several joined ones: the next index, or the error that ends the parse. */
    method TakeLine(lines: seq<SourceLine>, index: nat, limit: nat) returns (r: Result<nat, ConfigError>)
      requires index < |lines| && InRange(openSections, |sections|)
      modifies this, stack
      ensures match Turn(old(State()), lines, index, limit)
              case Err(e) => r == Err(e)
              case Ok((p, next)) => r == Ok(next) && State() == p
    {
      var item := ReadLine(lines, index);
      if item.Err? {
        return Err(item.error);
      }
      r := TakeItem(item.value, lines, index, limit);
    }

    method TakeItem(item: Item, lines: seq<SourceLine>, index: nat, limit: nat) returns (r: Result<nat, ConfigError>)
      requires index < |lines| && InRange(openSections, |sections|)
      requires item.Header? ==> item.depth >= 1
      requires item.Pair? ==> index <= item.last < |lines|
      modifies this, stack
      ensures match Apply(old(State()), item, lines, index, limit)
              case Err(e) => r == Err(e)
              case Ok((p, next)) => r == Ok(next) && State() == p
    {
      var next, fault := index + 1, None;
      match item {
        case Nothing =>
        case Header(name, depth) =>
          fault := TakeHeader(name, depth, lines[index], limit);
        case Pair(key, value, last) =>
          fault := TakePair(key, value, lines[index], lines[last].fullEnd);
          next := last + 1;
      }
      return if fault.Some? then Err(fault.value) else Ok(next);
    }
  }

  /** The loop over the lines. */
  method TakeLines(builder: DocumentBuilder, input: string, lines: seq<SourceLine>) returns (fault: Option<ConfigError>)
    requires Covers(input, lines) && Sound(input, builder.State(), lines, 0)
    modifies builder, builder.stack
    ensures match ParseFrom(input, old(builder.State()), lines, 0)
            case Err(e) => fault == Some(e)
            case Ok(p) => fault == None && builder.State() == p
  {
    var index := 0;
    while index < |lines|
      invariant index <= |lines| && Sound(input, builder.State(), lines, index)
      invariant ParseFrom(input, old(builder.State()), lines, 0) == ParseFrom(input, builder.State(), lines, index)
    {
      TurnKeepsSound(input, builder.State(), lines, index);
      var next := builder.TakeLine(lines, index, |input|);
      if next.Err? {
        return Some(next.error);
      }
      index := next.value;
    }
    return None;
  }

  lemma {:induction false} OpenDepthsPositive(root: Section, open: seq<Frame>)
    requires ConfigFlatten.TidyStack(root, open)
    ensures forall f :: f in open ==> f.depth > 0
  {
    if open != [] {
      OpenDepthsPositive(root, open[..|open| - 1]);
      assert open == open[..|open| - 1] + [open[|open| - 1]];
    }
  }

  /** The whole parse: the loop computes exactly the document the specification describes. */
  method ParseDocument(input: string) returns (r: Result<Document, ConfigError>)
    ensures r == Parse(input)
  {
    var builder := new DocumentBuilder();
    var lines := SourceLines(input);
    InputIsCovered(input);
    StartIsSound(input, lines);
    var fault := TakeLines(builder, input, lines);
    if fault.Some? {
      return Err(fault.value);
    }
    SoundInRange(input, builder.State(), lines, |lines|);
    SoundMeans(input, builder.State(), lines, |lines|);
    OpenDepthsPositive(builder.stack.root, builder.stack.open);
    var sections := EndAll(builder.sections, builder.openSections, |input|);
    var root := builder.stack.Finish();
    return Ok(Document(root, builder.locations, sections, builder.keys, Find(input, "\r\n") >= 0));
  }
}
