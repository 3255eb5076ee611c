/** Every text a value may be, and what it is read as: the exact grammar of values on one line. */
module ConfigGrammar {
  import opened Sequences
  import opened Bytes
  import opened Text
  import opened ConfigValue
  import N = ConfigNotation
  import W = ConfigWriting

  // ----- the grammar

  /**
   * What stands between two commas: nothing but white space, or an item. Behind a quoted item that is not blank
   * further quotation marks may stray; they are taken into its text.
   */
  datatype Part = Void(space: string) | Given(item: N.Item, strays: string)

  predicate Straying(s: string) {
    forall i :: 0 <= i < |s| ==> IsWhitespace(s[i]) || IsQuote(s[i])
  }

  predicate SoundPart(p: Part) {
    match p
    case Void(space) => Blank(space)
    case Given(item, strays) =>
      N.Writable(item) && Straying(strays) && (strays != "" ==> item.Quoted? && !Blank(item.text))
  }

  function WritePart(p: Part): string {
    match p
    case Void(space) => space
    case Given(item, strays) => N.Write(item) + strays
  }

  function Marks(strays: string): string {
    if strays == "" then ""
    else (if IsQuote(strays[0]) then [strays[0]] else "") + Marks(strays[1..])
  }

  /** What a part is read as. */
  function Sense(p: Part): string {
    match p
    case Void(_) => ""
    case Given(item, strays) => Trim(item.text + Marks(strays))
  }

  /**
   * How a value ends: with its last part and perhaps a comment, inside quotes that are never closed, or with
   * something that cannot come behind a quoted item.
   */
  datatype Close =
    | Ended(last: Part, comment: Option<string>)
    | Open(left: string, quote: char, inside: string)
    | Spoilt(last: Part, bad: char, rest: string)

  predicate SoundClose(c: Close) {
    match c
    case Ended(last, _) => SoundPart(last)
    case Open(left, quote, inside) => Blank(left) && IsQuote(quote) && quote !in inside
    case Spoilt(last, bad, _) =>
      && SoundPart(last) && last.Given? && last.item.Quoted?
      && if IsQuote(bad) then Blank(last.item.text) else !IsWhitespace(bad) && bad != ',' && bad != '#'
  }

  function WriteClose(c: Close): string {
    match c
    case Ended(last, comment) => WritePart(last) + if comment.Some? then "#" + comment.value else ""
    case Open(left, quote, inside) => left + ([quote] + inside)
    case Spoilt(last, bad, rest) => WritePart(last) + ([bad] + rest)
  }

  predicate SoundParts(front: seq<Part>) {
    forall i :: 0 <= i < |front| ==> SoundPart(front[i])
  }

  function WriteFront(front: seq<Part>): string {
    if front == [] then "" else WritePart(front[0]) + ("," + WriteFront(front[1..]))
  }

  /** A value: parts with a comma after each, and a close. */
  function WriteText(front: seq<Part>, close: Close): string {
    WriteFront(front) + WriteClose(close)
  }

  function Senses(parts: seq<Part>): seq<string> {
    if parts == [] then [] else [Sense(parts[0])] + Senses(parts[1..])
  }

  /** All the parts, but for a last one that is void. */
  function Parts(front: seq<Part>, last: Part): seq<Part> {
    if last.Void? then front else front + [last]
  }

  /** A list has no void part, but a comma alone is the empty list. */
  function ListIn(parts: seq<Part>): Option<Value> {
    if |parts| == 1 && parts[0].Void? then Some(List([]))
    else if exists i :: 0 <= i < |parts| && parts[i].Void? then None
    else Some(List(Senses(parts)))
  }

  /** What the parts are read as. */
  function ValueIn(front: seq<Part>, last: Part): Option<Value> {
    if front == [] then Some(Scalar(Sense(last))) else ListIn(Parts(front, last))
  }

  // ----- every text is a value

  lemma {:induction false} SplitWhile(holds: char -> bool, s: string) returns (a: string, b: string)
    ensures s == a + b && (forall i :: 0 <= i < |a| ==> holds(a[i])) && (b == "" || !holds(b[0]))
  {
    if s == "" || !holds(s[0]) {
      a, b := "", s;
    } else {
      var rest;
      rest, b := SplitWhile(holds, s[1..]);
      a := [s[0]] + rest;
    }
  }

  lemma SplitBlank(s: string) returns (a: string, b: string)
    ensures s == a + b && Blank(a) && (b == "" || !IsWhitespace(b[0]))
  {
    a, b := SplitWhile(IsWhitespace, s);
  }

  lemma {:induction false} TrimEndSplit(s: string) returns (blank: string)
    ensures s == TrimEnd(s) + blank && Blank(blank)
  {
    if s == "" || !IsWhitespace(s[|s| - 1]) {
      blank := "";
    } else {
      var b := TrimEndSplit(s[..|s| - 1]);
      blank := b + [s[|s| - 1]];
      assert s == s[..|s| - 1] + [s[|s| - 1]];
    }
  }

  predicate Ends(s: string) {
    s == "" || s[0] == ',' || s[0] == '#'
  }

  /** An item that is not in quotes goes on to the next comma or comment. */
  lemma BareSplit(left: string, s: string) returns (p: Part, rest: string)
    requires Blank(left) && s != "" && !IsWhitespace(s[0]) && !IsQuote(s[0]) && !Ends(s)
    ensures SoundPart(p) && left + s == WritePart(p) + rest && Ends(rest) && |rest| < |s|
  {
    var run;
    run, rest := SplitWhile((c: char) => c != ',' && c != '#', s);
    var right := TrimEndSplit(run);
    var text := TrimEnd(run);
    assert run[0] == s[0];
    TrimEndEmpty(run);
    TrimEndPrefix(run);
    assert text[0] == s[0] && TrimStart(text) == text;
    TrimEndTwice(run);
    p := Given(N.Bare(left, text, right), "");
    assert left + s == left + text + right + "" + rest;
  }

  lemma {:induction false} TrimEndTwice(s: string)
    ensures TrimEnd(TrimEnd(s)) == TrimEnd(s)
  {
    if s != "" && IsWhitespace(s[|s| - 1]) {
      TrimEndTwice(s[..|s| - 1]);
    }
  }

  /** A quoted item, and what may follow it. */
  lemma QuotedSplit(left: string, quote: char, inside: string, after: string) returns (p: Part, rest: string)
    requires Blank(left) && IsQuote(quote) && quote !in inside
    ensures SoundPart(p) && left + ([quote] + (inside + ([quote] + after))) == WritePart(p) + rest
    ensures |rest| <= |after| && (Ends(rest) || SoundClose(Spoilt(p, rest[0], rest[1..])))
  {
    var right, more := SplitBlank(after);
    var item, strays := N.Quoted(left, quote, inside, right), "";
    rest := more;
    if !Blank(inside) {
      strays, rest := SplitWhile((c: char) => IsWhitespace(c) || IsQuote(c), more);
    }
    p := Given(item, strays);
    QuotedWritten(left, quote, inside, right, strays, rest);
    assert after == right + (strays + rest);
  }

  lemma QuotedWritten(left: string, quote: char, inside: string, right: string, strays: string, rest: string)
    ensures left + ([quote] + (inside + ([quote] + (right + (strays + rest)))))
         == WritePart(Given(N.Quoted(left, quote, inside, right), strays)) + rest
  {
  }

  /** Behind a part comes the end, a comment, or a comma and the rest. */
  lemma Onward(p: Part, rest: string) returns (front: seq<Part>, close: Close)
    requires SoundPart(p) && Ends(rest)
    ensures SoundParts(front) && SoundClose(close) && WritePart(p) + rest == WriteText(front, close)
    decreases |rest|, 0
  {
    if rest == "" {
      front, close := [], Ended(p, None);
    } else if rest[0] == '#' {
      front, close := [], Ended(p, Some(rest[1..]));
      assert rest == "#" + rest[1..];
    } else {
      var more;
      more, close := EveryTextIsAValue(rest[1..]);
      front := [p] + more;
      assert front[1..] == more && rest == "," + rest[1..];
      Prepended(WritePart(p), WriteFront(more), WriteClose(close), rest);
    }
  }

  lemma Prepended(part: string, front: string, close: string, rest: string)
    requires rest == "," + (front + close)
    ensures part + rest == part + ("," + front) + close
  {
  }

  /** Every text there is, is a value of this grammar. */
  lemma {:induction false} EveryTextIsAValue(s: string) returns (front: seq<Part>, close: Close)
    ensures SoundParts(front) && SoundClose(close) && s == WriteText(front, close)
    decreases |s|, 1
  {
    var left, more := SplitBlank(s);
    if Ends(more) {
      front, close := Onward(Void(left), more);
    } else if IsQuote(more[0]) {
      front, close := QuotedOnward(left, more[0], more[1..]);
      assert more == [more[0]] + more[1..];
    } else {
      var p, rest := BareSplit(left, more);
      front, close := Onward(p, rest);
    }
  }

  lemma QuotedOnward(left: string, quote: char, s: string) returns (front: seq<Part>, close: Close)
    requires Blank(left) && IsQuote(quote)
    ensures SoundParts(front) && SoundClose(close) && left + ([quote] + s) == WriteText(front, close)
    decreases |s|, 1
  {
    var inside, after := SplitWhile((c: char) => c != quote, s);
    if after == "" {
      front, close := [], Open(left, quote, s);
    } else {
      assert s == inside + ([quote] + after[1..]);
      var p, rest := QuotedSplit(left, quote, inside, after[1..]);
      if Ends(rest) {
        front, close := Onward(p, rest);
      } else {
        front, close := [], Spoilt(p, rest[0], rest[1..]);
        assert rest == [rest[0]] + rest[1..];
      }
    }
  }

  // ----- what the scanner makes of it

  function AfterPart(s: Scan, p: Part): Scan {
    match p
    case Void(space) => s.(current := s.current + space)
    case Given(item, strays) =>
      var t := N.After(s, item);
      t.(current := t.current + Marks(strays))
  }

  lemma {:induction false} ScanStrays(s: Scan, strays: string, rest: string)
    requires s.closed && !Blank(s.current) && Straying(strays)
    ensures ScanPlain(s, strays + rest) == ScanPlain(s.(current := s.current + Marks(strays)), rest)
    decreases |strays|
  {
    if strays == "" {
      assert strays + rest == rest && s.current + "" == s.current;
    } else {
      var c := strays[0];
      assert (strays + rest)[1..] == strays[1..] + rest;
      TrimmedEmptyIffBlank(s.current);
      var next := if IsQuote(c) then s.(current := s.current + [c]) else s;
      assert !Blank(next.current) by {
        var w :| w in s.current && !IsWhitespace(w);
        assert w in next.current;
      }
      ScanStrays(next, strays[1..], rest);
      Regroup(s.current, if IsQuote(c) then [c] else "", Marks(strays[1..]));
      assert s.current + "" == s.current;
    }
  }

  lemma ScanPart(s: Scan, p: Part, rest: string)
    requires N.Fresh(s) && SoundPart(p)
    ensures ScanPlain(s, WritePart(p) + rest) == ScanPlain(AfterPart(s, p), rest)
  {
    match p {
      case Void(space) => N.ScanBlank(s, space, rest);
      case Given(item, strays) =>
        var t := N.After(s, item);
        Regroup(N.Write(item), strays, rest);
        N.ScanItem(s, item, strays + rest);
        if strays == "" {
          assert strays + rest == rest && t.current + "" == t.current;
        } else {
          assert !Blank(t.current) by {
            var w :| w in item.text && !IsWhitespace(w);
            assert w in t.current;
          }
          ScanStrays(t, strays, rest);
        }
    }
  }

  function ElementIn(p: Part): Element {
    Element(Sense(p), p.Given? && p.item.Quoted?)
  }

  lemma PartMeans(s: Scan, p: Part)
    requires N.Fresh(s) && SoundPart(p)
    ensures Element(Trim(AfterPart(s, p).current), AfterPart(s, p).quoted) == ElementIn(p)
    ensures p.Void? <==> ElementIn(p).text == "" && !ElementIn(p).quoted
  {
    match p {
      case Void(space) =>
        assert s.current + space == space;
        TrimmedEmptyIffBlank(space);
      case Given(item, strays) =>
        N.AfterMeans(s, item);
        match item {
          case Bare(left, text, right) =>
            assert left + text + right + "" == left + text + right && text + "" == text;
          case Quoted(left, quote, text, _) =>
            var marks := Marks(strays);
            Regroup(left, text, marks);
            TrimPadded(left, text + marks, "");
            assert left + (text + marks) + "" == left + text + marks;
        }
    }
  }

  function ElementsIn(parts: seq<Part>): seq<Element> {
    if parts == [] then [] else [ElementIn(parts[0])] + ElementsIn(parts[1..])
  }

  lemma ScanComma(s: Scan, p: Part, more: string, rest: string)
    requires N.Fresh(s) && SoundPart(p)
    ensures ScanPlain(s, WritePart(p) + ("," + more) + rest)
         == ScanPlain(Scan(s.elements + [ElementIn(p)], "", false, false, true), more + rest)
  {
    Prepended(WritePart(p), more, rest, "," + (more + rest));
    ScanPart(s, p, "," + (more + rest));
    N.CommaEnds(AfterPart(s, p), more + rest);
    PartMeans(s, p);
  }

  lemma {:induction false} ScanFront(s: Scan, front: seq<Part>, rest: string)
    requires N.Fresh(s) && SoundParts(front)
    ensures ScanPlain(s, WriteFront(front) + rest)
         == ScanPlain(Scan(s.elements + ElementsIn(front), "", false, false, s.hadComma || front != []), rest)
    decreases |front|
  {
    if front == [] {
      assert "" + rest == rest && s.elements + [] == s.elements;
    } else {
      var p, more := front[0], front[1..];
      ScanComma(s, p, WriteFront(more), rest);
      ScanFront(Scan(s.elements + [ElementIn(p)], "", false, false, true), more, rest);
      Regroup(s.elements, [ElementIn(p)], ElementsIn(more));
    }
  }

  lemma {:induction false} NeverCloses(s: Scan, quote: char, inside: string)
    requires quote !in inside
    ensures ScanQuoted(s, quote, inside) == Err(Unterminated)
    decreases |inside|
  {
    if inside != "" {
      assert inside[0] in inside;
      NeverCloses(s.(current := s.current + [inside[0]]), quote, inside[1..]);
    }
  }

  function ScanOf(s: Scan, c: Close): Result<Scan, Fault> {
    match c
    case Ended(last, _) => Ok(AfterPart(s, last))
    case Open(_, _, _) => Err(Unterminated)
    case Spoilt(_, _, _) => Err(Malformed)
  }

  lemma ScanClose(s: Scan, c: Close)
    requires N.Fresh(s) && SoundClose(c)
    ensures ScanPlain(s, WriteClose(c)) == ScanOf(s, c)
  {
    match c {
      case Ended(last, comment) =>
        ScanPart(s, last, if comment.Some? then "#" + comment.value else "");
      case Open(left, quote, inside) =>
        N.ScanBlank(s, left, [quote] + inside);
        TrimmedEmptyIffBlank(s.current + left);
        assert ([quote] + inside)[1..] == inside;
        NeverCloses(s.(current := s.current + left, quoted := true), quote, inside);
      case Spoilt(last, bad, rest) =>
        ScanPart(s, last, [bad] + rest);
        SpoiltBy(AfterPart(s, last), last, bad, rest);
    }
  }

  lemma SpoiltBy(t: Scan, last: Part, bad: char, rest: string)
    requires SoundClose(Spoilt(last, bad, rest)) && t.closed && t.quoted
    requires t.current == last.item.left + last.item.text + Marks(last.strays)
    ensures ScanPlain(t, [bad] + rest) == Err(Malformed)
  {
    if IsQuote(bad) {
      TrimmedEmptyIffBlank(t.current);
    }
  }

  // ----- what it is read as

  lemma {:induction false} ElementsOfSenses(parts: seq<Part>)
    requires SoundParts(parts)
    ensures |ElementsIn(parts)| == |parts|
    ensures forall i :: 0 <= i < |parts| ==> ElementsIn(parts)[i] == ElementIn(parts[i])
    ensures (forall i :: 0 <= i < |parts| ==> !parts[i].Void?) ==> Kept(ElementsIn(parts)) == Senses(parts)
    decreases |parts|
  {
    if parts != [] {
      ElementsOfSenses(parts[1..]);
      PartMeans(START, parts[0]);
    }
  }

  lemma {:induction false} ElementsJoin(a: seq<Part>, b: seq<Part>)
    ensures ElementsIn(a + b) == ElementsIn(a) + ElementsIn(b)
    decreases |a|
  {
    if a == [] {
      assert a + b == b;
    } else {
      assert (a + b)[1..] == a[1..] + b;
      ElementsJoin(a[1..], b);
    }
  }

  /** The elements the scan ends with. */
  function AtEnd(t: Scan): seq<Element> {
    var tail := Trim(t.current);
    if tail != "" || t.quoted || (t.hadComma && t.elements == []) then t.elements + [Element(tail, t.quoted)]
    else t.elements
  }

  /** The last part is among them unless it is void. */
  lemma ElementsAtEnd(front: seq<Part>, last: Part, t: Scan)
    requires SoundParts(front) && SoundPart(last)
    requires t == AfterPart(Scan(ElementsIn(front), "", false, false, front != []), last)
    ensures t.hadComma == (front != []) && Trim(t.current) == Sense(last)
    ensures AtEnd(t) == ElementsIn(Parts(front, last))
  {
    var s := Scan(ElementsIn(front), "", false, false, front != []);
    PartMeans(s, last);
    ElementsJoin(front, [last]);
    assert ElementsIn([last]) == [ElementIn(last)];
  }

  predicate Hollow(e: Element) {
    e.text == "" && !e.quoted
  }

  lemma ConcludeIs(t: Scan, elements: seq<Element>, line: nat)
    requires elements == AtEnd(t)
    ensures !t.hadComma ==> Conclude(t, line) == Ok(Scalar(if elements == [] then "" else elements[0].text))
    ensures t.hadComma && |elements| == 1 && Hollow(elements[0]) && Trim(t.current) == "" ==>
              Conclude(t, line) == Ok(List(Kept(elements)))
    ensures t.hadComma && !(|elements| == 1 && Hollow(elements[0]) && Trim(t.current) == "") ==>
              Conclude(t, line) == if exists e :: e in elements && Hollow(e) then Err(MalformedList(line))
                                   else Ok(List(Kept(elements)))
  {
    if exists e :: e in elements && Hollow(e) {
      var e :| e in elements && Hollow(e);
      assert e in elements && e.text == "" && !e.quoted;
    }
  }

  lemma ScalarConcluded(last: Part, t: Scan, line: nat)
    requires SoundPart(last) && !t.hadComma && AtEnd(t) == ElementsIn(Parts([], last))
    ensures Conclude(t, line) == Ok(Scalar(Sense(last)))
  {
    ConcludeIs(t, AtEnd(t), line);
    assert !last.Void? ==> Parts([], last) == [last] && ElementsIn([last])[0] == ElementIn(last);
  }

  function OrMalformed(v: Option<Value>, line: nat): Result<Value, ConfigError> {
    if v.Some? then Ok(v.value) else Err(MalformedList(line))
  }

  lemma ListConcluded(parts: seq<Part>, last: Part, t: Scan, line: nat)
    requires SoundParts(parts) && SoundPart(last) && t.hadComma && AtEnd(t) == ElementsIn(parts)
    requires parts != [] && Trim(t.current) == Sense(last)
    requires !last.Void? ==> parts[|parts| - 1] == last && |parts| > 1
    ensures Conclude(t, line) == OrMalformed(ListIn(parts), line)
  {
    var elements := ElementsIn(parts);
    ConcludeIs(t, elements, line);
    ElementsOfSenses(parts);
    VoidShows(parts);
    if |parts| == 1 {
      PartMeans(START, parts[0]);
      assert elements == [ElementIn(parts[0])] && elements[1..] == [];
      assert Hollow(elements[0]) ==> Kept(elements) == [];
    }
  }

  lemma ValueConcluded(front: seq<Part>, last: Part, t: Scan, line: nat)
    requires SoundParts(front) && SoundPart(last)
    requires t == AfterPart(Scan(ElementsIn(front), "", false, false, front != []), last)
    ensures Conclude(t, line) == OrMalformed(ValueIn(front, last), line)
  {
    ElementsAtEnd(front, last, t);
    if front == [] {
      ScalarConcluded(last, t, line);
    } else {
      ListConcluded(Parts(front, last), last, t, line);
    }
  }

  lemma VoidShows(parts: seq<Part>)
    requires SoundParts(parts)
    ensures (exists i :: 0 <= i < |parts| && parts[i].Void?)
       <==> exists e :: e in ElementsIn(parts) && Hollow(e)
  {
    ElementsOfSenses(parts);
    forall i | 0 <= i < |parts| ensures parts[i].Void? <==> Hollow(ElementsIn(parts)[i]) {
      PartMeans(START, parts[i]);
    }
  }

  // ----- all values

  predicate OpensTriple(s: string) {
    N.Tripled(TrimStart(s))
  }

  function ReadAs(front: seq<Part>, close: Close, line: nat): Result<Value, ConfigError> {
    match close
    case Ended(last, _) => OrMalformed(ValueIn(front, last), line)
    case Open(_, _, _) => Err(UnterminatedQuote(line))
    case Spoilt(_, _, _) => Err(MalformedValue(line))
  }

  /** A value that does not open triple quotes is read as its parts and its close say. */
  lemma TextIsRead(front: seq<Part>, close: Close, raw: string, line: nat)
    requires SoundParts(front) && SoundClose(close) && raw == WriteText(front, close) && !OpensTriple(raw)
    ensures ValueOf(raw, line) == ReadAs(front, close, line)
  {
    TrimEndPrefix(TrimStart(raw));
    N.TripledFrom(Trim(raw), TrimStart(raw), DOUBLE);
    N.TripledFrom(Trim(raw), TrimStart(raw), SINGLE);
    var s := Scan(ElementsIn(front), "", false, false, front != []);
    ScanFront(START, front, WriteClose(close));
    assert [] + ElementsIn(front) == ElementsIn(front);
    ScanClose(s, close);
    if close.Ended? {
      ValueConcluded(front, close.last, AfterPart(s, close.last), line);
    }
  }

  /** Behind triple quotes a text goes on to the next such quotes, and what follows those is ignored. */
  ghost predicate TripleReadAs(d: string, rest: string, line: nat, r: Result<Value, ConfigError>) {
    || (r == Err(UnterminatedQuote(line)) && forall i :: 0 <= i <= |rest| ==> !Occurs(rest, d, i))
    || (r.Ok? && r.value.Scalar? && r.value.text <= rest && FirstAt(rest, d, |r.value.text|))
  }

  lemma TripleIsRead(space: string, quote: char, rest: string, line: nat)
    requires Blank(space) && IsQuote(quote)
    ensures TripleReadAs(W.Thrice(quote), rest, line, ValueOf(space + (W.Thrice(quote) + rest), line))
  {
    var d := W.Thrice(quote);
    assert d == DOUBLE || d == SINGLE;
    var trimmed := TrimEnd(rest);
    W.QuotesTrim(space, d, rest);
    W.ValueIsTriple(space + (d + rest), d, trimmed, line);
    W.TripleReads(d, trimmed, line);
    FoundTrimmed(d, rest, trimmed);
  }

  /** The closing quotes are found, or not, whether or not the text was trimmed first. */
  lemma FoundTrimmed(d: string, rest: string, trimmed: string)
    requires (d == DOUBLE || d == SINGLE) && trimmed == TrimEnd(rest)
    ensures var k := Find(trimmed, d);
            if k >= 0 then k <= |rest| && trimmed[..k] == rest[..k] && FirstAt(rest, d, k)
            else forall i :: 0 <= i <= |rest| ==> !Occurs(rest, d, i)
  {
    TrimEndPrefix(rest);
    var k := Find(trimmed, d);
    if k >= 0 {
      FindIsFirst(trimmed, d);
      FirstInLonger(trimmed, rest, d, k);
    } else {
      forall i | 0 <= i <= |rest| ensures !Occurs(rest, d, i) {
        if Occurs(rest, d, i) {
          OccursTrimmed(rest, d, i);
          N.FindComplete(trimmed, d, i);
        }
      }
    }
  }

  lemma {:induction false} FindIsFirst(s: string, needle: string)
    requires Find(s, needle) >= 0
    ensures FirstAt(s, needle, Find(s, needle))
    decreases |s|
  {
    if !StartsWith(s, needle) {
      FindIsFirst(s[1..], needle);
      var k := Find(s, needle);
      forall i | 0 <= i < k ensures !Occurs(s, needle, i) {
        OccursLater(s, needle, i);
      }
    }
  }

  lemma OccursLater(s: string, needle: string, i: nat)
    requires s != ""
    ensures Occurs(s, needle, 0) <==> StartsWith(s, needle)
    ensures i > 0 ==> (Occurs(s, needle, i) <==> Occurs(s[1..], needle, i - 1))
  {
    assert |needle| <= |s| ==> s[0..|needle|] == s[..|needle|];
    assert 0 < i && i + |needle| <= |s| ==> s[1..][i - 1..i - 1 + |needle|] == s[i..i + |needle|];
  }

  lemma FirstInLonger(s: string, longer: string, needle: string, k: nat)
    requires s <= longer && FirstAt(s, needle, k)
    ensures FirstAt(longer, needle, k)
  {
    assert longer[k..k + |needle|] == s[k..k + |needle|];
    forall i | 0 <= i < k ensures !Occurs(longer, needle, i) {
      assert !Occurs(s, needle, i);
      assert s[i..i + |needle|] == longer[i..i + |needle|];
    }
  }

  lemma OccursTrimmed(s: string, d: string, i: nat)
    requires (d == DOUBLE || d == SINGLE) && Occurs(s, d, i)
    ensures Occurs(TrimEnd(s), d, i)
  {
    var front, tail := s[..i + 3], s[i + 3..];
    assert s == front + tail && front[|front| - 1] == s[i..i + 3][2];
    TrimEndAfter(front, tail);
    assert (front + TrimEnd(tail))[i..i + 3] == s[i..i + 3];
  }

  ghost predicate TripleWritten(
    raw: string, line: nat, r: Result<Value, ConfigError>, space: string, quote: char, rest: string)
  {
    && Blank(space) && IsQuote(quote) && raw == space + (W.Thrice(quote) + rest)
    && TripleReadAs(W.Thrice(quote), rest, line, r)
  }

  predicate TextWritten(raw: string, line: nat, r: Result<Value, ConfigError>, front: seq<Part>, close: Close) {
    SoundParts(front) && SoundClose(close) && raw == WriteText(front, close) && r == ReadAs(front, close, line)
  }

  /** What a value is read as, by how it is written: behind triple quotes, or in parts. */
  ghost predicate IsRead(raw: string, line: nat, r: Result<Value, ConfigError>) {
    if OpensTriple(raw) then exists space, quote, rest :: TripleWritten(raw, line, r, space, quote, rest)
    else exists front, close :: TextWritten(raw, line, r, front, close)
  }

  lemma SameTriple(d: string, rest: string, line: nat, r: Result<Value, ConfigError>, q: Result<Value, ConfigError>)
    requires TripleReadAs(d, rest, line, r) && TripleReadAs(d, rest, line, q)
    ensures r == q
  {
    if r.Ok? {
      var i := |r.value.text|;
      assert Occurs(rest, d, i);
      if q.Ok? {
        var j := |q.value.text|;
        assert Occurs(rest, d, j);
        assert i == j;
        assert r.value.text == rest[..i] == q.value.text;
      }
    } else if q.Ok? {
      assert Occurs(rest, d, |q.value.text|);
    }
  }

  lemma FoundReading(raw: string, line: nat)
    ensures IsRead(raw, line, ValueOf(raw, line))
  {
    if OpensTriple(raw) {
      var space, more := SplitBlank(raw);
      TrimStartBlank(space, more);
      var quote, rest := more[0], more[3..];
      assert more == W.Thrice(quote) + rest;
      TripleIsRead(space, quote, rest, line);
      assert TripleWritten(raw, line, ValueOf(raw, line), space, quote, rest);
    } else {
      var front, close := EveryTextIsAValue(raw);
      TextIsRead(front, close, raw, line);
      assert TextWritten(raw, line, ValueOf(raw, line), front, close);
    }
  }

  /** Every value text is read as it is written, and as nothing else. */
  lemma ValueExact(raw: string, line: nat, r: Result<Value, ConfigError>)
    ensures ValueOf(raw, line) == r <==> IsRead(raw, line, r)
  {
    FoundReading(raw, line);
    if IsRead(raw, line, r) {
      if OpensTriple(raw) {
        var space, quote, rest :| TripleWritten(raw, line, r, space, quote, rest);
        TripleIsRead(space, quote, rest, line);
        SameTriple(W.Thrice(quote), rest, line, r, ValueOf(raw, line));
      } else {
        var front, close :| TextWritten(raw, line, r, front, close);
        TextIsRead(front, close, raw, line);
      }
    }
  }
}
