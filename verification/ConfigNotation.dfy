/** Writing values down and reading them back with the scanner. */
module ConfigNotation {
  import opened Sequences
  import opened Bytes
  import opened Text
  import opened ConfigValue

  /** One item of a value as a person would write it: bare or in quotes, with white space around it. */
  datatype Item =
    | Bare(left: string, text: string, right: string)
    | Quoted(left: string, quote: char, text: string, right: string)

  /**
   * A quoted item may hold anything but its own quote character. A bare one is not empty, has no
   * surrounding white space, comma or hash, and does not begin with a quote.
   */
  predicate Writable(it: Item) {
    && Blank(it.left) && Blank(it.right)
    && match it
       case Bare(_, text, _) => text != "" && Trim(text) == text && ',' !in text && '#' !in text && !IsQuote(text[0])
       case Quoted(_, quote, text, _) => IsQuote(quote) && quote !in text
  }

  function Write(it: Item): string {
    match it
    case Bare(left, text, right) => left + text + right
    case Quoted(left, quote, text, right) => left + [quote] + text + [quote] + right
  }

  function WriteAll(items: seq<Item>): string {
    if items == [] then ""
    else if |items| == 1 then Write(items[0])
    else Write(items[0]) + "," + WriteAll(items[1..])
  }

  function Meanings(items: seq<Item>): seq<string> {
    if items == [] then [] else [Trim(items[0].text)] + Meanings(items[1..])
  }

  /** How a written value may end: nothing, a comma and white space, and perhaps a comment. */
  datatype Ending = Ending(comma: bool, space: string, comment: Option<string>)

  function WriteEnding(e: Ending): string {
    (if e.comma then "," else "") + e.space + (if e.comment.Some? then "#" + e.comment.value else "")
  }

  // ----- scanning one item

  predicate Fresh(s: Scan) {
    s.current == "" && !s.quoted && !s.closed
  }

  function After(s: Scan, it: Item): Scan {
    match it
    case Bare(left, text, right) => s.(current := left + text + right)
    case Quoted(left, quote, text, right) => s.(current := left + text, quoted := true, closed := true)
  }

  lemma {:induction false} ScanBlank(s: Scan, space: string, rest: string)
    requires Blank(space)
    ensures ScanPlain(s, space + rest) == ScanPlain(if s.closed then s else s.(current := s.current + space), rest)
    decreases |space|
  {
    if space == "" {
      assert space + rest == rest;
      assert s.current + space == s.current;
    } else {
      var c := space[0];
      assert c in space && Blank(space[1..]);
      assert (space + rest)[1..] == space[1..] + rest;
      var next := if s.closed then s else s.(current := s.current + [c]);
      ScanBlank(next, space[1..], rest);
      assert s.current + [c] + space[1..] == s.current + space;
    }
  }

  /** Once a bare item has begun, everything up to a comma or hash is part of it, quotes included. */
  lemma {:induction false} ScanText(s: Scan, text: string, rest: string)
    requires !s.closed && !Blank(s.current) && ',' !in text && '#' !in text
    ensures ScanPlain(s, text + rest) == ScanPlain(s.(current := s.current + text), rest)
    decreases |text|
  {
    if text == "" {
      assert text + rest == rest;
      assert s.current + text == s.current;
    } else {
      var c := text[0];
      assert (text + rest)[1..] == text[1..] + rest;
      TrimmedEmptyIffBlank(s.current);
      var next := s.(current := s.current + [c]);
      assert !Blank(next.current) by {
        var w :| w in s.current && !IsWhitespace(w);
        assert w in next.current;
      }
      ScanText(next, text[1..], rest);
      assert s.current + [c] + text[1..] == s.current + text;
    }
  }

  lemma {:induction false} ScanInQuotes(s: Scan, quote: char, text: string, rest: string)
    requires quote !in text
    ensures ScanQuoted(s, quote, text + [quote] + rest)
         == ScanPlain(s.(current := s.current + text, closed := true), rest)
    decreases |text|
  {
    var all := text + [quote] + rest;
    if text == "" {
      assert all[1..] == rest;
      assert s.current + text == s.current;
    } else {
      assert all[1..] == text[1..] + [quote] + rest;
      ScanInQuotes(s.(current := s.current + [text[0]]), quote, text[1..], rest);
      assert s.current + [text[0]] + text[1..] == s.current + text;
    }
  }

  lemma ScanBareText(s: Scan, text: string, rest: string)
    requires !s.closed && text != "" && Trim(text) == text && ',' !in text && '#' !in text && !IsQuote(text[0])
    ensures ScanPlain(s, text + rest) == ScanPlain(s.(current := s.current + text), rest)
  {
    var c := text[0];
    FirstIsVisible(text);
    assert c in text;
    assert (text + rest)[1..] == text[1..] + rest;
    var next := s.(current := s.current + [c]);
    assert next.current[|s.current|] == c;
    ScanText(next, text[1..], rest);
    assert s.current + [c] + text[1..] == s.current + text;
  }

  lemma ScanBareItem(s: Scan, it: Item, rest: string)
    requires Fresh(s) && Writable(it) && it.Bare?
    ensures ScanPlain(s, Write(it) + rest) == ScanPlain(After(s, it), rest)
  {
    var Bare(left, text, right) := it;
    RegroupFour(left, text, right, rest);
    ScanBlank(s, left, text + (right + rest));
    assert "" + left == left;
    ScanBareText(s.(current := left), text, right + rest);
    ScanBlank(s.(current := left + text), right, rest);
  }

  lemma FirstIsVisible(text: string)
    requires text != "" && Trim(text) == text
    ensures !IsWhitespace(text[0])
  {
    TrimEndPrefix(TrimStart(text));
    TrimStartVisible(text);
  }

  lemma ScanQuotedItem(s: Scan, it: Item, rest: string)
    requires Fresh(s) && Writable(it) && it.Quoted?
    ensures ScanPlain(s, Write(it) + rest) == ScanPlain(After(s, it), rest)
  {
    var Quoted(left, quote, text, right) := it;
    var inside := text + [quote] + (right + rest);
    assert Write(it) + rest == left + ([quote] + inside);
    ScanBlank(s, left, [quote] + inside);
    var s1 := s.(current := left);
    assert "" + left == left;
    TrimmedEmptyIffBlank(left);
    assert ([quote] + inside)[1..] == inside;
    ScanInQuotes(s1.(quoted := true), quote, text, right + rest);
    ScanBlank(s1.(quoted := true, current := left + text, closed := true), right, rest);
  }

  lemma ScanItem(s: Scan, it: Item, rest: string)
    requires Fresh(s) && Writable(it)
    ensures ScanPlain(s, Write(it) + rest) == ScanPlain(After(s, it), rest)
  {
    if it.Bare? {
      ScanBareItem(s, it, rest);
    } else {
      ScanQuotedItem(s, it, rest);
    }
  }

  lemma AfterMeans(s: Scan, it: Item)
    requires Writable(it) && Fresh(s)
    ensures Trim(After(s, it).current) == Trim(it.text)
    ensures After(s, it).quoted == it.Quoted?
    ensures it.Bare? ==> Trim(it.text) != ""
  {
    match it {
      case Bare(left, text, right) => TrimPadded(left, text, right);
      case Quoted(left, quote, text, right) =>
        TrimPadded(left, text, "");
        assert left + text + "" == left + text;
    }
  }

  // ----- scanning a whole value

  function Elements(items: seq<Item>): seq<Element> {
    if items == [] then [] else [ElementOf(items[0])] + Elements(items[1..])
  }

  predicate AllWritable(items: seq<Item>) {
    forall i :: 0 <= i < |items| ==> Writable(items[i])
  }

  function ElementOf(it: Item): Element {
    Element(Trim(it.text), it.Quoted?)
  }

  /** The scan with every item read and the last one still pending. */
  function Pending(had: seq<Element>, comma: bool, items: seq<Item>): Scan
    requires items != []
  {
    After(Scan(had + Elements(items[..|items| - 1]), "", false, false, comma || |items| > 1), items[|items| - 1])
  }

  lemma PendingCons(had: seq<Element>, comma: bool, items: seq<Item>)
    requires |items| > 1
    ensures Pending(had + [ElementOf(items[0])], true, items[1..]) == Pending(had, comma, items)
  {
    var front := items[..|items| - 1];
    assert front[1..] == items[1..][..|items| - 2];
    assert had + [ElementOf(items[0])] + Elements(front[1..]) == had + Elements(front);
  }

  lemma {:induction false} ScanItems(s: Scan, items: seq<Item>, rest: string)
    requires Fresh(s) && items != [] && AllWritable(items)
    ensures ScanPlain(s, WriteAll(items) + rest) == ScanPlain(Pending(s.elements, s.hadComma, items), rest)
    decreases |items|
  {
    ScanItem(s, items[0], if |items| == 1 then rest else "," + (WriteAll(items[1..]) + rest));
    if |items| == 1 {
      assert s.elements + Elements(items[..0]) == s.elements;
    } else {
      var more := WriteAll(items[1..]) + rest;
      RegroupFour(Write(items[0]), ",", WriteAll(items[1..]), rest);
      CommaEnds(After(s, items[0]), more);
      AfterMeans(s, items[0]);
      var next := AfterComma(After(s, items[0]));
      ScanItems(next, items[1..], rest);
      PendingCons(s.elements, s.hadComma, items);
    }
  }

  lemma CommaEnds(s: Scan, more: string)
    ensures ScanPlain(s, "," + more) == ScanPlain(AfterComma(s), more)
  {
    assert ("," + more)[1..] == more;
  }

  lemma {:induction false} ElementsSnoc(items: seq<Item>, it: Item)
    ensures Elements(items + [it]) == Elements(items) + [ElementOf(it)]
  {
    if items == [] {
      assert items + [it] == [it] && [it][1..] == [];
    } else {
      assert (items + [it])[1..] == items[1..] + [it];
      ElementsSnoc(items[1..], it);
    }
  }

  lemma {:induction false} ElementsKept(items: seq<Item>)
    requires AllWritable(items)
    ensures Kept(Elements(items)) == Meanings(items)
    ensures forall e :: e in Elements(items) ==> e.text != "" || e.quoted
    ensures |Elements(items)| == |items|
  {
    if items != [] {
      assert AllWritable(items[1..]);
      ElementsKept(items[1..]);
      var head := Element(Trim(items[0].text), items[0].Quoted?);
      assert Elements(items)[0] == head && Elements(items)[1..] == Elements(items[1..]);
      assert Writable(items[0]);
      assert head.text != "" || head.quoted;
    }
  }

  lemma NotTriple(items: seq<Item>, rest: string, delimiter: string)
    requires items != [] && AllWritable(items) && (delimiter == DOUBLE || delimiter == SINGLE)
    requires rest == "" || !IsQuote(rest[0])
    ensures !StartsWith(Trim(WriteAll(items) + rest), delimiter)
  {
    var it := items[0];
    assert Writable(it);
    var tail := if |items| == 1 then rest else "," + (WriteAll(items[1..]) + rest);
    assert WriteAll(items) + rest == Write(it) + tail by {
      if |items| > 1 {
        RegroupFour(Write(it), ",", WriteAll(items[1..]), rest);
      }
    }
    match it {
      case Bare(left, text, right) => BareNotTriple(left, text, right, tail, delimiter);
      case Quoted(left, quote, text, right) => QuotedNotTriple(left, quote, text, right, tail, delimiter);
    }
  }

  lemma BareNotTriple(left: string, text: string, right: string, tail: string, delimiter: string)
    requires Blank(left) && text != "" && Trim(text) == text && !IsQuote(text[0])
    requires delimiter == DOUBLE || delimiter == SINGLE
    ensures !StartsWith(Trim(left + text + right + tail), delimiter)
  {
    RegroupFour(left, text, right, tail);
    var body := text + (right + tail);
    TrimStartBlank(left, body);
    TrimEndPrefix(TrimStart(left + body));
    FirstIsVisible(text);
    assert TrimStart(body) == body && body[0] == text[0];
  }

  lemma QuotedNotTriple(left: string, quote: char, text: string, right: string, tail: string, delimiter: string)
    requires Blank(left) && Blank(right) && IsQuote(quote) && quote !in text && (tail == "" || !IsQuote(tail[0]))
    requires delimiter == DOUBLE || delimiter == SINGLE
    ensures !StartsWith(Trim(left + [quote] + text + [quote] + right + tail), delimiter)
  {
    var end := right + tail;
    var body := [quote] + (text + ([quote] + end));
    assert left + [quote] + text + [quote] + right + tail == left + body by {
      RegroupFour(left, [quote], text, [quote] + end);
      RegroupFour(left + [quote] + text, [quote], right, tail);
    }
    TrimStartBlank(left, body);
    TrimEndPrefix(TrimStart(left + body));
    assert TrimStart(body) == body;
    assert end == "" || !IsQuote(end[0]) by {
      if right != "" {
        assert right[0] in right && end[0] == right[0];
      }
    }
    BodyNotTriple(quote, text, end);
    TripledFrom(TrimEnd(body), body, delimiter);
  }

  /** A text that starts with three equal quotation marks. */
  predicate Tripled(s: string) {
    |s| >= 3 && IsQuote(s[0]) && s[1] == s[0] && s[2] == s[0]
  }

  lemma BodyNotTriple(quote: char, text: string, end: string)
    requires IsQuote(quote) && quote !in text && (end == "" || !IsQuote(end[0]))
    ensures !Tripled([quote] + (text + ([quote] + end)))
  {
    var body := [quote] + (text + ([quote] + end));
    if text == "" {
      assert text + ([quote] + end) == [quote] + end;
      assert end != "" ==> body[2] == end[0];
    } else {
      assert body[1] == text[0] && text[0] in text;
    }
  }

  lemma TripledFrom(s: string, whole: string, delimiter: string)
    requires s <= whole && (delimiter == DOUBLE || delimiter == SINGLE)
    ensures StartsWith(s, delimiter) ==> Tripled(whole)
  {
    if StartsWith(s, delimiter) {
      assert whole[0] == delimiter[0] && whole[1] == delimiter[1] && whole[2] == delimiter[2];
    }
  }

  lemma ScanEnding(s: Scan, e: Ending)
    requires Blank(e.space)
    ensures ScanPlain(s, WriteEnding(e)) == Ok(
              var t := if e.comma then AfterComma(s) else s;
              if t.closed then t else t.(current := t.current + e.space))
  {
    var comment := if e.comment.Some? then "#" + e.comment.value else "";
    var t := if e.comma then AfterComma(s) else s;
    if e.comma {
      assert WriteEnding(e)[1..] == e.space + comment;
    } else {
      assert WriteEnding(e) == e.space + comment;
    }
    ScanBlank(t, e.space, comment);
  }

  /**
   * Reading back what was written: one item without a comma is a scalar, anything else a list of
   * the items in order, each as written but for surrounding white space. Embedded commas and
   * hashes, empty quoted items, a trailing comma and a comment are all covered.
   */
  lemma WrittenValuesReadBack(items: seq<Item>, e: Ending, line: nat)
    requires items != [] && AllWritable(items) && Blank(e.space)
    ensures ValueOf(WriteAll(items) + WriteEnding(e), line)
         == Ok(if |items| == 1 && !e.comma then Scalar(Trim(items[0].text)) else List(Meanings(items)))
  {
    var ending := WriteEnding(e);
    if ending != "" {
      EndingStartsPlain(e);
    }
    NotTriple(items, ending, DOUBLE);
    NotTriple(items, ending, SINGLE);
    var pending := Pending([], false, items);
    ScanItems(START, items, ending);
    ScanEnding(pending, e);
    PendingIs(items);
    PendingEnds(pending, e);
    Concluded(items, e, pending, line);
  }

  lemma PendingIs(items: seq<Item>)
    requires items != [] && AllWritable(items)
    ensures var p := Pending([], false, items);
            && p.elements + [Element(Trim(p.current), p.quoted)] == Elements(items)
            && p.hadComma == (|items| > 1)
            && (p.quoted || Trim(p.current) != "")
  {
    var n := |items| - 1;
    var last, front := items[n], items[..n];
    AfterMeans(Scan([] + Elements(front), "", false, false, false || n > 0), last);
    ElementsSplit(items);
  }

  lemma ElementsSplit(items: seq<Item>)
    requires items != []
    ensures [] + Elements(items[..|items| - 1]) + [ElementOf(items[|items| - 1])] == Elements(items)
  {
    var last, front := items[|items| - 1], items[..|items| - 1];
    ElementsSnoc(front, last);
    assert front + [last] == items;
    NothingFirst(Elements(front), [ElementOf(last)]);
  }

  lemma NothingFirst(a: seq<Element>, b: seq<Element>)
    ensures [] + a + b == a + b
  {
  }

  lemma PendingEnds(pending: Scan, e: Ending)
    requires Blank(e.space)
    ensures var t := if e.comma then AfterComma(pending) else pending;
            var s := if t.closed then t else t.(current := t.current + e.space);
            Trim(s.current) == (if e.comma then "" else Trim(pending.current))
  {
    if e.comma {
      TrimmedEmptyIffBlank("" + e.space);
    } else if !pending.closed {
      TrimPadded("", pending.current, e.space);
      assert "" + pending.current == pending.current;
    }
  }

  lemma EndingStartsPlain(e: Ending)
    requires Blank(e.space) && WriteEnding(e) != ""
    ensures !IsQuote(WriteEnding(e)[0])
  {
    if e.space != "" {
      assert e.space[0] in e.space;
    }
  }

  lemma Concluded(items: seq<Item>, e: Ending, pending: Scan, line: nat)
    requires items != [] && AllWritable(items) && Blank(e.space)
    requires pending.elements + [Element(Trim(pending.current), pending.quoted)] == Elements(items)
    requires pending.hadComma == (|items| > 1)
    requires pending.quoted || Trim(pending.current) != ""
    ensures var t := if e.comma then AfterComma(pending) else pending;
            var s := if t.closed then t else t.(current := t.current + e.space);
            Trim(s.current) == (if e.comma then "" else Trim(pending.current)) ==>
            Conclude(s, line) ==
              Ok(if |items| == 1 && !e.comma then Scalar(Trim(items[0].text)) else List(Meanings(items)))
  {
    ElementsKept(items);
    var t := if e.comma then AfterComma(pending) else pending;
    var s := if t.closed then t else t.(current := t.current + e.space);
    if |items| == 1 {
      assert Elements(items)[0] == Element(Trim(items[0].text), items[0].Quoted?);
      assert pending.elements == [];
    }
  }

  /** Quoting keeps a text exactly when it has no surrounding white space of its own. */
  lemma QuotingIsExactIffTrimmed(quote: char, text: string, line: nat)
    requires IsQuote(quote) && quote !in text
    ensures ValueOf([quote] + text + [quote], line) == Ok(Scalar(text)) <==> Trim(text) == text
  {
    var items := [Quoted("", quote, text, "")];
    WrittenValuesReadBack(items, Ending(false, "", None), line);
    assert WriteAll(items) + WriteEnding(Ending(false, "", None)) == [quote] + text + [quote];
  }

  /** A quoted text with a leading blank reads back without it. */
  lemma LeadingBlankIsLost(line: nat)
    ensures ValueOf("\" a\"", line) == Ok(Scalar("a")) && ValueOf("\" a\"", line) != Ok(Scalar(" a"))
  {
    var items := [Quoted("", '"', " a", "")];
    WrittenValuesReadBack(items, Ending(false, "", None), line);
    assert WriteAll(items) + WriteEnding(Ending(false, "", None)) == "\" a\"";
    TrimPadded(" ", "a", "");
    assert " " + "a" + "" == " a" && TrimEnd("a") == "a" && TrimStart("a") == "a";
  }

  // ----- triple-quoted values

  /** `Find` misses no occurrence. */
  lemma {:induction false} FindComplete(s: string, needle: string, k: nat)
    requires k + |needle| <= |s| && s[k..k + |needle|] == needle
    ensures Find(s, needle) >= 0
  {
    assert s[0..|needle|] == s[..|needle|];
    if !StartsWith(s, needle) {
      assert s[1..][k - 1..k - 1 + |needle|] == s[k..k + |needle|];
      FindComplete(s[1..], needle, k - 1);
    }
  }

  lemma FoundBeforeBlank(s: string, needle: string, k: nat)
    requires needle != "" && !IsWhitespace(needle[|needle| - 1]) && s != "" && IsWhitespace(s[|s| - 1])
    requires k + |needle| <= |s| && s[k..k + |needle|] == needle
    ensures k + |needle| < |s| && s[..|s| - 1][k..k + |needle|] == needle
  {
    assert s[k..k + |needle|][|needle| - 1] == s[k + |needle| - 1];
    assert k + |needle| < |s| ==> s[..|s| - 1][k..k + |needle|] == s[k..k + |needle|];
  }

  lemma {:induction false} FindSurvivesTrim(s: string, needle: string)
    requires needle != "" && !IsWhitespace(needle[|needle| - 1]) && Find(s, needle) >= 0
    ensures Find(TrimEnd(s), needle) >= 0
  {
    if s != "" && IsWhitespace(s[|s| - 1]) {
      var k, front := Find(s, needle), s[..|s| - 1];
      FoundBeforeBlank(s, needle, k);
      FindComplete(front, needle, k);
      FindSurvivesTrim(front, needle);
    }
  }

  /** A text with no unterminated triple quote never fails for lack of the closing one. */
  lemma TerminatedTripleReads(text: string, line: nat)
    requires UnterminatedTriple(text) == None
    requires StartsWith(Trim(text), DOUBLE) || StartsWith(Trim(text), SINGLE)
    ensures ValueOf(text, line).Ok? && ValueOf(text, line).value.Scalar?
  {
    var t := TrimStart(text);
    TrimEndPrefix(t);
    var d := if StartsWith(t, DOUBLE) then DOUBLE else SINGLE;
    assert StartsWith(t, d);
    var rest := t[3..];
    assert t == d + rest;
    TrimEndAfter(d, rest);
    assert Trim(text)[3..] == TrimEnd(rest);
    FindSurvivesTrim(rest, d);
  }
}
