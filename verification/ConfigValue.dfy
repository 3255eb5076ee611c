/** The value scanner of `prns-config/src/configobj.rs`: quoting, lists, comments. */
module ConfigValue {
  import opened Bytes
  import opened Text

  datatype Value = Scalar(text: string) | List(items: seq<string>)

  datatype ConfigError =
    | UnterminatedQuote(line: nat)
    | UnmatchedSectionBrackets(line: nat)
    | SectionDepthJump(line: nat, found: nat, parent: nat)
    | DuplicateKey(line: nat, key: string)
    | DuplicateSection(line: nat, name: string)
    | MissingEquals(line: nat)
    | EmptyKey(line: nat)
    | MalformedList(line: nat)
    | MalformedValue(line: nat)

  predicate IsQuote(c: char) {
    c == '\'' || c == '"'
  }

  const DOUBLE := "\"\"\""
  const SINGLE := "'''"

  /** The delimiter of a triple-quoted value that does not close within the text. */
  function UnterminatedTriple(valueText: string): Option<string> {
    var trimmed := TrimStart(valueText);
    if StartsWith(trimmed, DOUBLE) && Find(trimmed[3..], DOUBLE) < 0 then Some(DOUBLE)
    else if StartsWith(trimmed, SINGLE) && Find(trimmed[3..], SINGLE) < 0 then Some(SINGLE)
    else None
  }

  // ----- the scanner as a recursive reading of the text

  /** One finished list element and whether it was written in quotes. */
  datatype Element = Element(text: string, quoted: bool)

  datatype Scan = Scan(elements: seq<Element>, current: string, quoted: bool, closed: bool, hadComma: bool)

  datatype Fault = Unterminated | Malformed

  const START := Scan([], "", false, false, false)

  function AfterComma(s: Scan): Scan {
    Scan(s.elements + [Element(Trim(s.current), s.quoted)], "", false, false, true)
  }

  function ScanPlain(s: Scan, text: string): Result<Scan, Fault>
    decreases |text|
  {
    if text == "" then Ok(s)
    else
      var c, rest := text[0], text[1..];
      if IsQuote(c) then
        if Trim(s.current) != "" then ScanPlain(s.(current := s.current + [c]), rest)
        else if s.quoted then Err(Malformed)
        else ScanQuoted(s.(quoted := true), c, rest)
      else if c == '#' then Ok(s)
      else if c == ',' then ScanPlain(AfterComma(s), rest)
      else if s.closed && !IsWhitespace(c) then Err(Malformed)
      else if !s.closed then ScanPlain(s.(current := s.current + [c]), rest)
      else ScanPlain(s, rest)
  }

  function ScanQuoted(s: Scan, quote: char, text: string): Result<Scan, Fault>
    decreases |text|
  {
    if text == "" then Err(Unterminated)
    else if text[0] == quote then ScanPlain(s.(closed := true), text[1..])
    else ScanQuoted(s.(current := s.current + [text[0]]), quote, text[1..])
  }

  function Kept(elements: seq<Element>): seq<string> {
    if elements == [] then []
    else (if elements[0].text != "" || elements[0].quoted then [elements[0].text] else []) + Kept(elements[1..])
  }

  /** What the finished scan means. */
  function Conclude(s: Scan, line: nat): Result<Value, ConfigError> {
    var tail := Trim(s.current);
    var elements :=
      if tail != "" || s.quoted || (s.hadComma && s.elements == []) then s.elements + [Element(tail, s.quoted)]
      else s.elements;
    if s.hadComma then
      var standaloneEmptyList := |elements| == 1 && elements[0].text == "" && !elements[0].quoted && tail == "";
      if !standaloneEmptyList && exists e :: e in elements && e.text == "" && !e.quoted then Err(MalformedList(line))
      else Ok(List(Kept(elements)))
    else if elements == [] then Ok(Scalar(""))
    else Ok(Scalar(elements[0].text))
  }

  /** The value a text denotes. */
  function ValueOf(raw: string, line: nat): Result<Value, ConfigError> {
    var trimmed := Trim(raw);
    if StartsWith(trimmed, DOUBLE) then TripleQuoted(trimmed, DOUBLE, line)
    else if StartsWith(trimmed, SINGLE) then TripleQuoted(trimmed, SINGLE, line)
    else
      match ScanPlain(START, raw)
      case Err(Unterminated) => Err(UnterminatedQuote(line))
      case Err(Malformed) => Err(MalformedValue(line))
      case Ok(s) => Conclude(s, line)
  }

  function TripleQuoted(trimmed: string, delimiter: string, line: nat): Result<Value, ConfigError>
    requires StartsWith(trimmed, delimiter)
  {
    var rest := trimmed[|delimiter|..];
    var end := Find(rest, delimiter);
    if end < 0 then Err(UnterminatedQuote(line)) else Ok(Scalar(rest[..end]))
  }

  // ----- the source's loops

  method ParseValue(raw: string, line: nat) returns (r: Result<Value, ConfigError>)
    ensures r == ValueOf(raw, line)
  {
    var trimmed := Trim(raw);
    if StartsWith(trimmed, DOUBLE) {
      return TripleQuoted(trimmed, DOUBLE, line);
    }
    if StartsWith(trimmed, SINGLE) {
      return TripleQuoted(trimmed, SINGLE, line);
    }
    var scanned := ScanLoop(raw);
    match scanned {
      case Err(Unterminated) => return Err(UnterminatedQuote(line));
      case Err(Malformed) => return Err(MalformedValue(line));
      case Ok(s) =>
        r := Finish(s, line);
    }
  }

  method ScanLoop(raw: string) returns (r: Result<Scan, Fault>)
    ensures r == ScanPlain(START, raw)
  {
    var elements: seq<Element>, current, quoted, closed, hadComma := [], "", false, false, false;
    var i := 0;
    while i < |raw|
      invariant 0 <= i <= |raw|
      invariant ScanPlain(START, raw) == ScanPlain(Scan(elements, current, quoted, closed, hadComma), raw[i..])
    {
      var c := raw[i];
      i := i + 1;
      assert raw[i - 1..][1..] == raw[i..];
      if IsQuote(c) {
        if Trim(current) != "" {
          current := current + [c];
          continue;
        }
        if quoted {
          return Err(Malformed);
        }
        quoted := true;
        var ended;
        i, current, ended := ReadQuoted(raw, i, c, current, Scan(elements, current, true, closed, hadComma));
        if !ended {
          return Err(Unterminated);
        }
        closed := true;
      } else if c == '#' {
        return Ok(Scan(elements, current, quoted, closed, hadComma));
      } else if c == ',' {
        hadComma := true;
        elements := elements + [Element(Trim(current), quoted)];
        current, quoted, closed := "", false, false;
      } else if closed && !IsWhitespace(c) {
        return Err(Malformed);
      } else if !closed {
        current := current + [c];
      }
    }
    return Ok(Scan(elements, current, quoted, closed, hadComma));
  }

  /** The characters up to the closing quote, which may be missing. */
  method ReadQuoted(raw: string, from: nat, quote: char, start: string, ghost s: Scan)
    returns (i: nat, current: string, ended: bool)
    requires from <= |raw| && s.current == start
    ensures from <= i <= |raw|
    ensures ScanQuoted(s, quote, raw[from..]) ==
            if ended then ScanPlain(s.(current := current, closed := true), raw[i..]) else Err(Unterminated)
  {
    i, current := from, start;
    while i < |raw|
      invariant from <= i <= |raw|
      invariant ScanQuoted(s, quote, raw[from..]) == ScanQuoted(s.(current := current), quote, raw[i..])
    {
      var inner := raw[i];
      i := i + 1;
      assert raw[i - 1..][1..] == raw[i..];
      if inner == quote {
        return i, current, true;
      }
      current := current + [inner];
    }
    ended := false;
  }

  method Finish(s: Scan, line: nat) returns (r: Result<Value, ConfigError>)
    ensures r == Conclude(s, line)
  {
    var elements, tail := s.elements, Trim(s.current);
    if tail != "" || s.quoted || (s.hadComma && elements == []) {
      elements := elements + [Element(tail, s.quoted)];
    }
    if s.hadComma {
      var standaloneEmptyList := |elements| == 1 && elements[0].text == "" && !elements[0].quoted && tail == "";
      if !standaloneEmptyList && exists e :: e in elements && e.text == "" && !e.quoted {
        return Err(MalformedList(line));
      }
      return Ok(List(Kept(elements)));
    }
    return Ok(Scalar(if elements == [] then "" else elements[0].text));
  }
}
