/** Lines, section headers and key-value pairs (`prns-config/src/configobj.rs`). */
module ConfigSyntax {
  import opened Sequences
  import opened Bytes
  import opened Text
  import opened ConfigValue

  // ----- lines

  datatype SourceLine = SourceLine(number: nat, start: nat, fullEnd: nat, text: string)

  /** Just past the next line feed, or the end of the text: one step of `split_inclusive`. */
  function LineEnd(input: string, at: nat): (e: nat)
    requires at <= |input|
    ensures at <= e <= |input| && (at < |input| ==> at < e)
    decreases |input| - at
  {
    if at == |input| then at
    else if input[at] == '\n' then at + 1
    else LineEnd(input, at + 1)
  }

  function StripSuffix(s: string, c: char): string {
    if s != "" && s[|s| - 1] == c then s[..|s| - 1] else s
  }

  function LinesFrom(input: string, start: nat, number: nat): seq<SourceLine>
    requires start <= |input|
    decreases |input| - start
  {
    if start == |input| then []
    else
      var e := LineEnd(input, start);
      [SourceLine(number, start, e, StripSuffix(StripSuffix(input[start..e], '\n'), '\r'))]
        + LinesFrom(input, e, number + 1)
  }

  method SourceLines(input: string) returns (lines: seq<SourceLine>)
    ensures lines == LinesFrom(input, 0, 1)
  {
    lines := [];
    var start := 0;
    while start < |input|
      invariant start <= |input|
      invariant LinesFrom(input, 0, 1) == lines + LinesFrom(input, start, |lines| + 1)
    {
      var fullEnd := LineEnd(input, start);
      var withoutLf := StripSuffix(input[start..fullEnd], '\n');
      var text := StripSuffix(withoutLf, '\r');
      var line := SourceLine(|lines| + 1, start, fullEnd, text);
      Regroup(lines, [line], LinesFrom(input, fullEnd, |lines| + 2));
      lines := lines + [line];
      start := fullEnd;
    }
  }

  function LineFeeds(s: string): nat {
    if s == "" then 0 else (if s[0] == '\n' then 1 else 0) + LineFeeds(s[1..])
  }

  /** The line a position is on, counting line feeds before it. */
  function LineNumber(input: string, at: nat): nat
    requires at <= |input|
  {
    LineFeeds(input[..at]) + 1
  }

  /** Line i of the text: where it starts, where the next one does, and its number. */
  predicate LineAt(input: string, lines: seq<SourceLine>, i: nat)
    requires i < |lines|
  {
    && lines[i].start < lines[i].fullEnd <= |input|
    && lines[i].number == LineNumber(input, lines[i].start)
    && (if i + 1 < |lines| then lines[i].fullEnd == lines[i + 1].start else lines[i].fullEnd == |input|)
  }

  predicate Covers(input: string, lines: seq<SourceLine>) {
    forall i :: 0 <= i < |lines| ==> LineAt(input, lines, i)
  }

  lemma {:induction false} LineFeedsConcat(a: string, b: string)
    ensures LineFeeds(a + b) == LineFeeds(a) + LineFeeds(b)
  {
    if a == "" {
      assert a + b == b;
    } else {
      assert (a + b)[1..] == a[1..] + b;
      LineFeedsConcat(a[1..], b);
    }
  }

  lemma {:induction false} LineEndFeeds(input: string, at: nat)
    requires at < |input|
    ensures var e := LineEnd(input, at);
            if e < |input| then LineFeeds(input[at..e]) == 1 else LineFeeds(input[at..e]) <= 1
    decreases |input| - at
  {
    var e := LineEnd(input, at);
    if input[at] == '\n' {
      assert input[at..e] == "\n" && "\n"[1..] == "";
    } else if at + 1 < |input| {
      LineEndFeeds(input, at + 1);
      assert input[at..e][1..] == input[at + 1..e];
    } else {
      assert input[at..e] == [input[at]] && [input[at]][1..] == "";
    }
  }

  /** The lines cut the whole text, in order, and are numbered by the line feeds before them. */
  lemma {:induction false} LinesCover(input: string, start: nat, number: nat)
    requires start <= |input| && (start < |input| ==> number == LineNumber(input, start))
    ensures var lines := LinesFrom(input, start, number);
            && Covers(input, lines)
            && (start < |input| ==> lines != [] && lines[0].start == start)
            && (start == |input| ==> lines == [])
    decreases |input| - start
  {
    if start < |input| {
      var e := LineEnd(input, start);
      LineEndFeeds(input, start);
      LineFeedsConcat(input[..start], input[start..e]);
      assert input[..start] + input[start..e] == input[..e];
      LinesCover(input, e, number + 1);
      var lines, rest := LinesFrom(input, start, number), LinesFrom(input, e, number + 1);
      forall i | 0 <= i < |lines| ensures LineAt(input, lines, i) {
        if i > 0 {
          assert LineAt(input, rest, i - 1);
          assert lines[i] == rest[i - 1];
        }
      }
    }
  }

  predicate EndsIn(s: string, c: char) {
    s != "" && s[|s| - 1] == c
  }

  /** A line is its text and then its break: CR LF, LF alone, or at the end of the text a CR or nothing. */
  predicate Breaks(whole: string, text: string, last: bool) {
    && '\n' !in text
    && (|| whole == text + "\r\n"
        || (whole == text + "\n" && !EndsIn(text, '\r'))
        || (last && whole == text + "\r")
        || (last && whole == text && !EndsIn(text, '\r')))
  }

  lemma {:induction false} LineEndBreaks(input: string, at: nat)
    requires at < |input|
    ensures var e := LineEnd(input, at);
            && (forall i :: at <= i < e - 1 ==> input[i] != '\n')
            && (input[e - 1] != '\n' ==> e == |input|)
    decreases |input| - at
  {
    if input[at] != '\n' && at + 1 < |input| {
      LineEndBreaks(input, at + 1);
    }
  }

  lemma StrippedBreaks(whole: string, last: bool)
    requires whole != "" && (forall i :: 0 <= i < |whole| - 1 ==> whole[i] != '\n') && (!EndsIn(whole, '\n') ==> last)
    ensures Breaks(whole, StripSuffix(StripSuffix(whole, '\n'), '\r'), last)
  {
    var without := StripSuffix(whole, '\n');
    var text := StripSuffix(without, '\r');
    assert without == text || without == text + "\r";
    assert whole == without || whole == without + "\n";
    assert text + "\r" + "\n" == text + "\r\n";
    assert forall i :: 0 <= i < |text| ==> text[i] == whole[i];
  }

  predicate LineText(input: string, l: SourceLine) {
    l.start < l.fullEnd <= |input| && Breaks(input[l.start..l.fullEnd], l.text, l.fullEnd == |input|)
  }

  /** The text of every line is the line without its break. */
  lemma {:induction false} LineTexts(input: string, start: nat, number: nat)
    requires start <= |input|
    ensures forall i :: 0 <= i < |LinesFrom(input, start, number)| ==>
              LineText(input, LinesFrom(input, start, number)[i])
    decreases |input| - start
  {
    if start < |input| {
      var e := LineEnd(input, start);
      LineEndBreaks(input, start);
      StrippedBreaks(input[start..e], e == |input|);
      LineTexts(input, e, number + 1);
    }
  }

  // ----- headers and keys

  function Unquote(text: string): string {
    if |text| >= 2 && IsQuote(text[0]) && text[|text| - 1] == text[0] then text[1..|text| - 1] else text
  }

  /** How many opening brackets the text begins with. */
  function Brackets(text: string): (n: nat)
    ensures n <= |text|
    ensures text != "" && text[0] == '[' ==> n >= 1
  {
    if text == "" || text[0] != '[' then 0 else 1 + Brackets(text[1..])
  }

  function Repeat(c: char, n: nat): (r: string)
    ensures |r| == n
  {
    seq(n, _ => c)
  }

  function SectionHeader(trimmed: string, line: nat): (r: Result<(string, nat), ConfigError>)
    ensures r.Ok? && trimmed != "" && trimmed[0] == '[' ==> r.value.1 >= 1
  {
    var depth := Brackets(trimmed);
    var afterOpen := trimmed[depth..];
    var closeAt := Find(afterOpen, Repeat(']', depth));
    if closeAt < 0 then Err(UnmatchedSectionBrackets(line))
    else
      var tail := TrimStart(afterOpen[closeAt + depth..]);
      if tail != "" && tail[0] != '#' then Err(UnmatchedSectionBrackets(line))
      else Ok((Unquote(Trim(afterOpen[..closeAt])), depth))
  }

  /** What follows the first equals sign, or the whole text: `split_once`. */
  function ValuePart(raw: string): string {
    var equals := Find(raw, "=");
    if equals < 0 then raw else raw[equals + 1..]
  }

  function KeyValue(raw: string, line: nat): Result<(string, Value), ConfigError> {
    var equals := Find(raw, "=");
    if equals < 0 then Err(MissingEquals(line))
    else
      var key := Unquote(Trim(raw[..equals]));
      if key == "" then Err(EmptyKey(line))
      else
        match ValueOf(raw[equals + 1..], line)
        case Err(e) => Err(e)
        case Ok(value) => Ok((key, value))
  }

  /** Lines joined while a triple-quoted value stays open: the text and the last line it took. */
  function Joined(lines: seq<SourceLine>, index: nat, raw: string): (r: Option<(string, nat)>)
    requires index < |lines|
    ensures r.Some? ==> index <= r.value.1 < |lines| && UnterminatedTriple(ValuePart(r.value.0)).None?
    decreases |lines| - index
  {
    if UnterminatedTriple(ValuePart(raw)).None? then Some((raw, index))
    else if index + 1 == |lines| then None
    else Joined(lines, index + 1, raw + "\n" + lines[index + 1].text)
  }

  /** What one step of the parser reads: nothing, a header, or a key ending on line `last`. */
  datatype Item = Nothing | Header(name: string, depth: nat) | Pair(key: string, value: Value, last: nat)

  function ReadItem(lines: seq<SourceLine>, index: nat): (r: Result<Item, ConfigError>)
    requires index < |lines|
    ensures r.Ok? && r.value.Header? ==> r.value.depth >= 1
    ensures r.Ok? && r.value.Pair? ==> index <= r.value.last < |lines|
  {
    var line := lines[index];
    var trimmed := Trim(line.text);
    if trimmed == "" || trimmed[0] == '#' then Ok(Nothing)
    else if trimmed[0] == '[' then
      match SectionHeader(trimmed, line.number)
      case Err(e) => Err(e)
      case Ok((name, depth)) => Ok(Header(name, depth))
    else
      match Joined(lines, index, line.text)
      case None => Err(UnterminatedQuote(line.number))
      case Some((raw, last)) =>
        match KeyValue(raw, line.number)
        case Err(e) => Err(e)
        case Ok((key, value)) => Ok(Pair(key, value, last))
  }
}
