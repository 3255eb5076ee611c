/**
 * One pass over the lines builds the section tree, the flat section and key lists, and the map from
 * paths to lines (`prns-config/src/configobj.rs`).
 */
module ConfigDocument {
  import opened Bytes
  import opened ConfigValue
  import opened ConfigSyntax
  import opened ConfigTree
  import opened ConfigLayout

  datatype Parser = Parser(
    stack: Stack,
    path: Path,
    sections: seq<DocumentSection>,
    open: seq<nat>,
    keys: seq<DocumentKey>,
    lines: map<Path, nat>)

  const START := Parser(Stack(EMPTY, []), [], [], [], [], map[])

  datatype Document = Document(
    root: Section,
    lines: map<Path, nat>,
    sections: seq<DocumentSection>,
    keys: seq<DocumentKey>,
    crlf: bool)

  predicate InRange(open: seq<nat>, n: nat) {
    forall i :: 0 <= i < |open| ==> open[i] < n
  }

  function WithEnd(s: seq<DocumentSection>, i: nat, end: nat): (r: seq<DocumentSection>)
    requires i < |s|
    ensures |r| == |s|
  {
    s[i := s[i].(range := s[i].range.(end := end))]
  }

  /** Open sections at least as deep as `depth` end at `start`. */
  function EndDeeper(s: seq<DocumentSection>, open: seq<nat>, depth: nat, start: nat)
    : (r: (seq<DocumentSection>, seq<nat>))
    requires InRange(open, |s|)
    ensures |r.0| == |s| && r.1 <= open
    decreases |open|
  {
    if open == [] || s[open[|open| - 1]].depth < depth then (s, open)
    else EndDeeper(WithEnd(s, open[|open| - 1], start), open[..|open| - 1], depth, start)
  }

  function Truncated(path: Path, n: nat): Path {
    if n < |path| then path[..n] else path
  }

  function OpenSection(p: Parser, name: string, depth: nat, line: SourceLine, limit: nat): Result<Parser, ConfigError>
    requires depth >= 1 && InRange(p.open, |p.sections|)
  {
    var stack := ClosedTo(p.stack, depth - 1);
    var parentDepth := CurrentDepth(stack);
    if depth != parentDepth + 1 then Err(SectionDepthJump(line.number, depth, parentDepth))
    else if FindSection(CurrentSection(stack).sections, name).Some? then Err(DuplicateSection(line.number, name))
    else
      var path := Truncated(p.path, depth - 1) + [name];
      var (sections, open) := EndDeeper(p.sections, p.open, depth, line.start);
      var section := DocumentSection(path, depth, Range(line.start, limit), Range(line.start, line.fullEnd));
      Ok(Parser(Opened(stack, name, depth), path, sections + [section], open + [|sections|], p.keys,
                p.lines[path := line.number]))
  }

  function AddKey(p: Parser, key: string, value: Value, line: SourceLine, end: nat): Result<Parser, ConfigError> {
    var current := CurrentSection(p.stack);
    if FindScalar(current.scalars, key).Some? then Err(DuplicateKey(line.number, key))
    else
      var path := p.path + [key];
      Ok(p.(stack := WithCurrent(p.stack, current.(scalars := current.scalars + [Entry(key, value)])),
            keys := p.keys + [DocumentKey(path, Range(line.start, end))],
            lines := p.lines[path := line.number]))
  }

  /** What an item does to the state, and the next line to read. */
  function Apply(p: Parser, item: Item, lines: seq<SourceLine>, index: nat, limit: nat)
    : (r: Result<(Parser, nat), ConfigError>)
    requires index < |lines| && InRange(p.open, |p.sections|)
    requires item.Header? ==> item.depth >= 1
    requires item.Pair? ==> index <= item.last < |lines|
    ensures r.Ok? ==> index < r.value.1 <= |lines|
  {
    match item
    case Nothing => Ok((p, index + 1))
    case Header(name, depth) => (
      match OpenSection(p, name, depth, lines[index], limit)
      case Err(e) => Err(e)
      case Ok(q) => Ok((q, index + 1)))
    case Pair(key, value, last) =>
      match AddKey(p, key, value, lines[index], lines[last].fullEnd)
      case Err(e) => Err(e)
      case Ok(q) => Ok((q, last + 1))
  }

  /** One turn of the parser's loop. */
  function Turn(p: Parser, lines: seq<SourceLine>, index: nat, limit: nat): (r: Result<(Parser, nat), ConfigError>)
    requires index < |lines| && InRange(p.open, |p.sections|)
    ensures r.Ok? ==> index < r.value.1 <= |lines|
  {
    match ReadItem(lines, index)
    case Err(e) => Err(e)
    case Ok(item) => Apply(p, item, lines, index, limit)
  }
}
