/** Writing configuration lines down and reading them back. */
module ConfigWriting {
  import opened Sequences
  import opened Bytes
  import opened Text
  import opened ConfigValue
  import opened ConfigSyntax
  import N = ConfigNotation

  // ----- labels

  /** A name as a person would write it: bare, or in quotes that are not part of it. */
  datatype Label = Plain(text: string) | InQuotes(quote: char, text: string)

  function WriteLabel(name: Label): string {
    match name
    case Plain(text) => text
    case InQuotes(quote, text) => [quote] + text + [quote]
  }

  /** A bare name has no white space around it and does not look quoted; a quoted one may hold anything. */
  predicate SoundLabel(name: Label) {
    match name
    case Plain(text) =>
      && Trim(text) == text
      && !(|text| >= 2 && (text[0] == '"' || text[0] == '\'') && text[|text| - 1] == text[0])
    case InQuotes(quote, _) => quote == '"' || quote == '\''
  }

  lemma LabelRead(left: string, name: Label, right: string)
    requires Blank(left) && Blank(right) && SoundLabel(name)
    ensures Unquote(Trim(left + WriteLabel(name) + right)) == name.text
  {
    TrimPadded(left, WriteLabel(name), right);
    if name.InQuotes? {
      NothingToTrim(WriteLabel(name));
      assert WriteLabel(name)[1..|WriteLabel(name)| - 1] == name.text;
    }
  }

  // ----- headers

  /** Blanks, so many brackets, a padded name, as many closing ones, and perhaps a comment. */
  datatype Heading = Heading(
    left: string, depth: nat, before: string, name: Label, after: string, right: string, comment: Option<string>)

  function Inner(h: Heading): string {
    h.before + WriteLabel(h.name) + h.after
  }

  function Remark(comment: Option<string>): string {
    if comment.Some? then "#" + comment.value else ""
  }

  function WriteHeading(h: Heading): string {
    h.left + (Repeat('[', h.depth) + Inner(h) + Repeat(']', h.depth) + (h.right + Remark(h.comment)))
  }

  /** The name does not go on with the opening brackets, and the closing ones come nowhere earlier. */
  predicate SoundHeading(h: Heading) {
    && h.depth >= 1 && SoundLabel(h.name)
    && Blank(h.left) && Blank(h.before) && Blank(h.after) && Blank(h.right)
    && (Inner(h) == "" || Inner(h)[0] != '[')
    && FirstAt(Inner(h) + Repeat(']', h.depth), Repeat(']', h.depth), |Inner(h)|)
  }

  lemma {:induction false} BracketsCounted(n: nat, s: string)
    requires s == "" || s[0] != '['
    ensures Brackets(Repeat('[', n) + s) == n
  {
    if n == 0 {
      assert Repeat('[', 0) + s == s;
    } else {
      assert (Repeat('[', n) + s)[1..] == Repeat('[', n - 1) + s;
      BracketsCounted(n - 1, s);
    }
  }

  lemma RemarkTrims(right: string, comment: Option<string>)
    requires Blank(right)
    ensures var tail := TrimStart(TrimEnd(right + Remark(comment))); tail == "" || tail[0] == '#'
  {
    if comment.None? {
      assert right + "" == "" + right;
      TrimEndBlank("", right);
    } else {
      assert right + ("#" + comment.value) == right + "#" + comment.value;
      TrimEndAfter(right + "#", comment.value);
      assert right + "#" + TrimEnd(comment.value) == right + ("#" + TrimEnd(comment.value));
      TrimStartBlank(right, "#" + TrimEnd(comment.value));
    }
  }

  lemma HeadingTrims(h: Heading)
    requires SoundHeading(h)
    ensures Trim(WriteHeading(h))
         == Repeat('[', h.depth) + (Inner(h) + Repeat(']', h.depth) + TrimEnd(h.right + Remark(h.comment)))
  {
    var front := Repeat('[', h.depth) + Inner(h) + Repeat(']', h.depth);
    var rest := h.right + Remark(h.comment);
    TrimStartBlank(h.left, front + rest);
    assert (front + rest)[0] == '[' && TrimStart(front + rest) == front + rest;
    assert front[|front| - 1] == ']';
    TrimEndAfter(front, rest);
    Regroup(Repeat('[', h.depth), Inner(h), Repeat(']', h.depth));
    Regroup(Repeat('[', h.depth), Inner(h) + Repeat(']', h.depth), TrimEnd(rest));
  }

  lemma HeaderParts(trimmed: string, depth: nat, inner: string, close: string, tail: string, line: nat)
    requires Brackets(trimmed) == depth && trimmed[depth..] == inner + close + tail && close == Repeat(']', depth)
    requires Find(inner + close + tail, close) == |inner|
    requires var t := TrimStart(tail); t == "" || t[0] == '#'
    ensures SectionHeader(trimmed, line) == Ok((Unquote(Trim(inner)), depth))
  {
    var afterOpen := inner + close + tail;
    assert afterOpen[|inner| + depth..] == tail && afterOpen[..|inner|] == inner;
  }

  lemma HeadingSplits(depth: nat, inner: string, close: string, tail: string)
    requires depth >= 1 && (inner == "" || inner[0] != '[') && close == Repeat(']', depth)
    requires FirstAt(inner + close, close, |inner|)
    ensures var trimmed := Repeat('[', depth) + (inner + close + tail);
            && Brackets(trimmed) == depth && trimmed[depth..] == inner + close + tail
            && Find(inner + close + tail, close) == |inner|
  {
    var afterOpen := inner + close + tail;
    assert afterOpen[0] == if inner == "" then close[0] else inner[0];
    BracketsCounted(depth, afterOpen);
    FirstAtExtends(inner + close, tail, close, |inner|);
    FindFirst(afterOpen, close, |inner|);
  }

  /** A written header is the header of its name, at its depth. */
  lemma HeadingRead(h: Heading, line: nat)
    requires SoundHeading(h)
    ensures SectionHeader(Trim(WriteHeading(h)), line) == Ok((h.name.text, h.depth))
    ensures Trim(WriteHeading(h)) != "" && Trim(WriteHeading(h))[0] == '['
  {
    HeadingTrims(h);
    RemarkTrims(h.right, h.comment);
    var close, tail := Repeat(']', h.depth), TrimEnd(h.right + Remark(h.comment));
    HeadingSplits(h.depth, Inner(h), close, tail);
    HeaderParts(Trim(WriteHeading(h)), h.depth, Inner(h), close, tail, line);
    LabelRead(h.before, h.name, h.after);
  }

  // ----- values

  /** A value on the rest of its line, or between triple quotes, where it may go on over several lines. */
  datatype Written =
    | Listed(items: seq<N.Item>, ending: N.Ending)
    | Triple(space: string, quote: char, parts: seq<string>, tail: string)

  function Thrice(quote: char): string {
    [quote, quote, quote]
  }

  function Body(parts: seq<string>): string {
    if parts == [] then "" else if |parts| == 1 then parts[0] else parts[0] + "\n" + Body(parts[1..])
  }

  function WriteValue(w: Written): string {
    match w
    case Listed(items, ending) => N.WriteAll(items) + N.WriteEnding(ending)
    case Triple(space, quote, parts, tail) => space + (Thrice(quote) + (Body(parts) + Thrice(quote) + tail))
  }

  function Meaning(w: Written): Value {
    match w
    case Listed(items, ending) =>
      if items == [] then if ending.comma then List([]) else Scalar("")
      else if |items| == 1 && !ending.comma then Scalar(Trim(items[0].text))
      else List(N.Meanings(items))
    case Triple(_, _, parts, _) => Scalar(Body(parts))
  }

  /** Triple quotes come nowhere before the closing ones; what follows those is ignored. */
  predicate SoundValue(w: Written) {
    match w
    case Listed(items, ending) => N.AllWritable(items) && Blank(ending.space)
    case Triple(space, quote, parts, _) =>
      && Blank(space) && (quote == '"' || quote == '\'') && parts != []
      && FirstAt(Body(parts) + Thrice(quote), Thrice(quote), |Body(parts)|)
  }

  lemma NothingReads(e: N.Ending, line: nat)
    requires Blank(e.space)
    ensures ValueOf(N.WriteEnding(e), line) == Ok(if e.comma then List([]) else Scalar(""))
    ensures UnterminatedTriple(N.WriteEnding(e)).None?
  {
    N.ScanEnding(START, e);
    N.PendingEnds(START, e);
    PlainStart(N.WriteEnding(e), e);
    var s := START.(current := START.current + e.space);
    if e.comma {
      var nothing := [Element("", false)];
      assert AfterComma(START).elements == nothing && nothing[1..] == [] && Kept(nothing) == [];
    } else {
      assert Conclude(s, line) == Ok(Scalar(""));
    }
  }

  /** What starts with no quote, after white space, starts with no triple quote. */
  lemma UnquotedStart(s: string)
    requires TrimStart(s) == "" || !IsQuote(TrimStart(s)[0])
    ensures UnterminatedTriple(s).None? && !StartsWith(Trim(s), DOUBLE) && !StartsWith(Trim(s), SINGLE)
  {
    TrimEndPrefix(TrimStart(s));
  }

  lemma PlainStart(s: string, e: N.Ending)
    requires Blank(e.space) && s == N.WriteEnding(e)
    ensures UnterminatedTriple(s).None? && !StartsWith(Trim(s), DOUBLE) && !StartsWith(Trim(s), SINGLE)
  {
    var comment := if e.comment.Some? then "#" + e.comment.value else "";
    if e.comma {
      assert s[0] == ',' && TrimStart(s) == s;
    } else {
      assert s == e.space + comment;
      TrimStartBlank(e.space, comment);
    }
    UnquotedStart(s);
  }

  lemma QuotesSurvive(t: string, d: string)
    requires d == DOUBLE || d == SINGLE
    ensures StartsWith(t, d) ==> StartsWith(TrimEnd(t), d)
  {
    if StartsWith(t, d) {
      TrimEndAfter(d, t[3..]);
      assert t == d + t[3..];
    }
  }

  lemma NotTripleMeans(s: string)
    requires !StartsWith(Trim(s), DOUBLE) && !StartsWith(Trim(s), SINGLE)
    ensures UnterminatedTriple(s).None?
  {
    QuotesSurvive(TrimStart(s), DOUBLE);
    QuotesSurvive(TrimStart(s), SINGLE);
  }

  lemma ListReads(items: seq<N.Item>, e: N.Ending, line: nat)
    requires items != [] && N.AllWritable(items) && Blank(e.space)
    ensures ValueOf(WriteValue(Listed(items, e)), line) == Ok(Meaning(Listed(items, e)))
    ensures UnterminatedTriple(WriteValue(Listed(items, e))).None?
  {
    var ending := N.WriteEnding(e);
    N.WrittenValuesReadBack(items, e, line);
    if ending != "" {
      N.EndingStartsPlain(e);
    }
    N.NotTriple(items, ending, DOUBLE);
    N.NotTriple(items, ending, SINGLE);
    NotTripleMeans(N.WriteAll(items) + ending);
  }

  lemma QuotesTrim(space: string, d: string, rest: string)
    requires Blank(space) && (d == DOUBLE || d == SINGLE)
    ensures TrimStart(space + (d + rest)) == d + rest && Trim(space + (d + rest)) == d + TrimEnd(rest)
  {
    TrimStartBlank(space, d + rest);
    TrimEndAfter(d, rest);
  }

  lemma ClosedFound(d: string, body: string, tail: string)
    requires (d == DOUBLE || d == SINGLE) && FirstAt(body + d, d, |body|)
    ensures Find(body + d + tail, d) == |body| && (body + d + tail)[..|body|] == body
  {
    FirstAtExtends(body + d, tail, d, |body|);
    FindFirst(body + d + tail, d, |body|);
  }

  lemma TripleReads(d: string, rest: string, line: nat)
    requires d == DOUBLE || d == SINGLE
    ensures TripleQuoted(d + rest, d, line)
         == if Find(rest, d) < 0 then Err(UnterminatedQuote(line)) else Ok(Scalar(rest[..Find(rest, d)]))
  {
    assert (d + rest)[3..] == rest;
  }

  lemma TripleOpens(s: string, d: string, rest: string)
    requires (d == DOUBLE || d == SINGLE) && TrimStart(s) == d + rest
    ensures UnterminatedTriple(s) == if Find(rest, d) < 0 then Some(d) else None
  {
    assert (d + rest)[3..] == rest && (d + rest)[0] == d[0];
  }

  lemma ClosedTriple(space: string, d: string, body: string, tail: string, line: nat)
    requires Blank(space) && (d == DOUBLE || d == SINGLE) && FirstAt(body + d, d, |body|)
    ensures ValueOf(space + (d + (body + d + tail)), line) == Ok(Scalar(body))
    ensures UnterminatedTriple(space + (d + (body + d + tail))).None?
  {
    var s := space + (d + (body + d + tail));
    QuotesTrim(space, d, body + d + tail);
    TrimEndAfter(body + d, tail);
    ClosedFound(d, body, tail);
    ClosedFound(d, body, TrimEnd(tail));
    TripleOpens(s, d, body + d + tail);
    TripleReads(d, body + d + TrimEnd(tail), line);
    ValueIsTriple(s, d, body + d + TrimEnd(tail), line);
  }

  lemma ValueIsTriple(s: string, d: string, rest: string, line: nat)
    requires (d == DOUBLE || d == SINGLE) && Trim(s) == d + rest
    ensures ValueOf(s, line) == TripleQuoted(d + rest, d, line)
  {
    assert (d + rest)[0] == d[0];
  }

  lemma OpenTriple(space: string, d: string, part: string, body: string)
    requires Blank(space) && (d == DOUBLE || d == SINGLE) && FirstAt(body + d, d, |body|) && part <= body
    ensures UnterminatedTriple(space + (d + part)) == Some(d)
  {
    QuotesTrim(space, d, part);
    forall i | 0 <= i <= |part| ensures !Occurs(part, d, i) {
      if i + 3 <= |part| {
        assert !Occurs(body + d, d, i);
        assert (body + d)[i..i + 3] == part[i..i + 3];
      }
    }
    FindNothing(part, d);
    TripleOpens(space + (d + part), d, part);
  }

  /** A written value reads as what it means, and leaves no triple quote open. */
  lemma ValueRead(w: Written, line: nat)
    requires SoundValue(w)
    ensures ValueOf(WriteValue(w), line) == Ok(Meaning(w)) && UnterminatedTriple(WriteValue(w)).None?
  {
    match w {
      case Listed(items, ending) =>
        if items == [] {
          NothingReads(ending, line);
          assert N.WriteAll(items) + N.WriteEnding(ending) == N.WriteEnding(ending);
        } else {
          ListReads(items, ending, line);
        }
      case Triple(space, quote, parts, tail) =>
        ClosedTriple(space, Thrice(quote), Body(parts), tail, line);
    }
  }

  // ----- pairs

  /** What stands before the equals sign: a padded name that is not empty and starts no header or comment. */
  predicate SoundKey(left: string, name: Label, right: string) {
    && Blank(left) && Blank(right) && SoundLabel(name) && name.text != ""
    && '=' !in name.text && WriteLabel(name)[0] != '[' && WriteLabel(name)[0] != '#'
  }

  function KeyPart(left: string, name: Label, right: string): string {
    left + WriteLabel(name) + right
  }

  lemma KeyHasNoEquals(left: string, name: Label, right: string)
    requires SoundKey(left, name, right)
    ensures '=' !in KeyPart(left, name, right)
  {
  }

  lemma EqualsFound(a: string, v: string)
    requires '=' !in a
    ensures Find(a + "=" + v, "=") == |a| && ValuePart(a + "=" + v) == v && (a + "=" + v)[..|a|] == a
  {
    var s := a + "=" + v;
    assert s[|a|..|a| + 1] == "=";
    forall i | 0 <= i < |a| ensures !Occurs(s, "=", i) {
      assert s[i] == a[i] && a[i] in a && s[i..i + 1][0] == s[i];
    }
    FindFirst(s, "=", |a|);
    assert s[|a| + 1..] == v;
  }

  /** A written pair is the pair of its name and of what its value means. */
  lemma PairRead(left: string, name: Label, right: string, w: Written, line: nat)
    requires SoundKey(left, name, right) && SoundValue(w)
    ensures KeyValue(KeyPart(left, name, right) + "=" + WriteValue(w), line) == Ok((name.text, Meaning(w)))
  {
    KeyHasNoEquals(left, name, right);
    EqualsFound(KeyPart(left, name, right), WriteValue(w));
    LabelRead(left, name, right);
    ValueRead(w, line);
  }

  /** The line a key starts is neither empty nor a comment nor a header. */
  lemma KeyStarts(left: string, name: Label, right: string, v: string)
    requires SoundKey(left, name, right)
    ensures var trimmed := Trim(KeyPart(left, name, right) + "=" + v);
            trimmed != "" && trimmed[0] != '#' && trimmed[0] != '['
  {
    var rest := WriteLabel(name) + (right + "=" + v);
    assert KeyPart(left, name, right) + "=" + v == left + rest;
    assert rest[0] == WriteLabel(name)[0] && !IsWhitespace(rest[0]) by {
      if name.Plain? {
        N.FirstIsVisible(name.text);
      }
    }
    TrimStartBlank(left, rest);
    TrimEndEmpty(rest);
    TrimEndPrefix(rest);
  }

  // ----- entries

  datatype Entry =
    | Gap(space: string)
    | Note(left: string, text: string)
    | Head(heading: Heading)
    | Set(left: string, name: Label, right: string, value: Written)

  predicate SoundEntry(e: Entry) {
    match e
    case Gap(space) => Blank(space)
    case Note(left, _) => Blank(left)
    case Head(heading) => SoundHeading(heading)
    case Set(left, name, right, value) => SoundKey(left, name, right) && SoundValue(value)
  }

  /** A text that goes on over several lines, with something before its first and after its last. */
  function Lay(first: string, parts: seq<string>, last: string): (r: seq<string>)
    ensures |r| == if parts == [] then 1 else |parts|
    decreases |parts|
  {
    if parts == [] then [first + last]
    else if |parts| == 1 then [first + parts[0] + last]
    else [first + parts[0]] + Lay("", parts[1..], last)
  }

  /** How many lines an entry has. */
  function Height(e: Entry): (n: nat)
    ensures n >= 1
  {
    if e.Set? && e.value.Triple? && e.value.parts != [] then |e.value.parts| else 1
  }

  /** The lines of an entry. */
  function Texts(e: Entry): (r: seq<string>)
    ensures |r| == Height(e)
  {
    match e
    case Gap(space) => [space]
    case Note(left, text) => [left + "#" + text]
    case Head(heading) => [WriteHeading(heading)]
    case Set(left, name, right, value) =>
      var key := KeyPart(left, name, right);
      match value
      case Listed(_, _) => [key + "=" + WriteValue(value)]
      case Triple(space, quote, parts, tail) => Lay(key + "=" + (space + Thrice(quote)), parts, Thrice(quote) + tail)
  }

  /** What an entry is, on the lines from `index` on. */
  function ItemOf(e: Entry, index: nat): Item {
    match e
    case Gap(_) => Nothing
    case Note(_, _) => Nothing
    case Head(heading) => Header(heading.name.text, heading.depth)
    case Set(_, name, _, value) => Pair(name.text, Meaning(value), index + Height(e) - 1)
  }

  predicate TextsAt(lines: seq<SourceLine>, index: nat, texts: seq<string>) {
    index + |texts| <= |lines| && forall i :: 0 <= i < |texts| ==> lines[index + i].text == texts[i]
  }

  /** A raw text that ends like this still has its triple quotes open. */
  predicate OpenAt(raw: string -> string, x: string) {
    UnterminatedTriple(ValuePart(raw(x))).Some?
  }

  function Openness(raw: string -> string): string -> bool {
    (x: string) => OpenAt(raw, x)
  }

  ghost predicate AppendsAt(raw: string -> string, x: string, y: string) {
    raw(x) + "\n" + y == raw(x + "\n" + y)
  }

  /** One more line is joined while the quotes are open, and none after they are closed. */
  ghost predicate JoinsLike(
    join: (nat, string) -> Option<(string, nat)>, raw: string -> string, open: string -> bool, lines: seq<SourceLine>,
    index: nat, x: string)
  {
    index < |lines| ==>
      if !open(x) then join(index, raw(x)) == Some((raw(x), index))
      else index + 1 < |lines| ==> join(index, raw(x)) == join(index + 1, raw(x + "\n" + lines[index + 1].text))
  }

  function Joining(lines: seq<SourceLine>): (nat, string) -> Option<(string, nat)> {
    (index: nat, raw: string) => if index < |lines| then Joined(lines, index, raw) else None
  }

  lemma JoinStep(raw: string -> string, lines: seq<SourceLine>, index: nat, x: string)
    requires forall x, y :: AppendsAt(raw, x, y)
    ensures JoinsLike(Joining(lines), raw, Openness(raw), lines, index, x)
  {
    if index + 1 < |lines| {
      assert AppendsAt(raw, x, lines[index + 1].text);
    }
  }

  /** So far the body up to its current part, and with the last part its end. */
  predicate SoFar(x: string, parts: seq<string>, body: string, end: string) {
    && parts != []
    && if |parts| == 1 then x == body + end else x <= body && body == x + "\n" + Body(parts[1..])
  }

  lemma SoFarNext(x: string, parts: seq<string>, body: string, end: string)
    requires SoFar(x, parts, body, end) && |parts| > 1
    ensures SoFar(x + "\n" + Lay("", parts[1..], end)[0], parts[1..], body, end)
  {
    var rest := parts[1..];
    var next := Lay("", rest, end)[0];
    if |rest| == 1 {
      assert next == rest[0] + end;
      Regroup(x + "\n", rest[0], end);
    } else {
      assert next == rest[0];
      assert x + "\n" + (rest[0] + "\n" + Body(rest[1..])) == x + "\n" + rest[0] + "\n" + Body(rest[1..]);
    }
  }

  lemma {:induction false} JoinsOn(
    join: (nat, string) -> Option<(string, nat)>, raw: string -> string, open: string -> bool, lines: seq<SourceLine>,
    index: nat, x: string, parts: seq<string>, body: string, end: string)
    requires forall index, x :: JoinsLike(join, raw, open, lines, index, x)
    requires (forall x :: x <= body ==> open(x)) && !open(body + end)
    requires index < |lines| && SoFar(x, parts, body, end)
    requires |parts| > 1 ==> TextsAt(lines, index + 1, Lay("", parts[1..], end))
    ensures join(index, raw(x)) == Some((raw(body + end), index + |parts| - 1))
    decreases |parts|
  {
    assert JoinsLike(join, raw, open, lines, index, x);
    if |parts| > 1 {
      var rest := parts[1..];
      assert lines[index + 1].text == Lay("", rest, end)[0];
      SoFarNext(x, parts, body, end);
      if |rest| > 1 {
        LaterTexts(lines, index + 1, rest, end);
      }
      JoinsOn(join, raw, open, lines, index + 1, x + "\n" + lines[index + 1].text, rest, body, end);
    }
  }

  /** A key, its equals sign, blanks, the opening quotes and then some. */
  function Opening(key: string, space: string, d: string): string -> string {
    (x: string) => key + "=" + (space + (d + x))
  }

  lemma OpeningOpen(key: string, space: string, d: string, x: string, body: string)
    requires '=' !in key && Blank(space) && (d == DOUBLE || d == SINGLE) && FirstAt(body + d, d, |body|) && x <= body
    ensures OpenAt(Opening(key, space, d), x)
  {
    EqualsFound(key, space + (d + x));
    OpenTriple(space, d, x, body);
  }

  lemma OpeningClosed(key: string, space: string, d: string, body: string, tail: string)
    requires '=' !in key && Blank(space) && (d == DOUBLE || d == SINGLE) && FirstAt(body + d, d, |body|)
    ensures !OpenAt(Opening(key, space, d), body + d + tail)
  {
    EqualsFound(key, space + (d + (body + d + tail)));
    ClosedTriple(space, d, body, tail, 0);
  }

  lemma OpeningAppends(key: string, space: string, d: string, x: string, y: string)
    ensures AppendsAt(Opening(key, space, d), x, y)
  {
    Regroup(key + "=", space + (d + x), "\n" + y);
    Regroup(space, d + x, "\n" + y);
    Regroup(d, x, "\n" + y);
    Regroup(x, "\n", y);
    Regroup(key + "=" + (space + (d + x)), "\n", y);
  }

  lemma LaterTexts(lines: seq<SourceLine>, index: nat, parts: seq<string>, last: string)
    requires |parts| > 1 && TextsAt(lines, index, Lay("", parts, last))
    ensures TextsAt(lines, index + 1, Lay("", parts[1..], last))
  {
    var all, rest := Lay("", parts, last), Lay("", parts[1..], last);
    assert all[1..] == rest;
    forall i | 0 <= i < |rest| ensures lines[index + 1 + i].text == rest[i] {
      assert lines[index + (i + 1)].text == all[i + 1];
    }
  }

  // ----- reading entries

  /** The line is read as this item; behind a quantifier, like `JoinedTo`. */
  ghost predicate ReadsAs(lines: seq<SourceLine>, index: nat, item: Item) {
    forall way :: ReadsBy(lines, index, item, way)
  }

  ghost predicate ReadsBy(lines: seq<SourceLine>, index: nat, item: Item, way: Way) {
    way == Only && index < |lines| && ReadItem(lines, index) == Ok(item)
  }

  lemma ReadsMeans(lines: seq<SourceLine>, index: nat, item: Item)
    ensures ReadsAs(lines, index, item) <==> index < |lines| && ReadItem(lines, index) == Ok(item)
  {
    if index < |lines| && ReadItem(lines, index) == Ok(item) {
      forall way ensures ReadsBy(lines, index, item, way) {
        match way {
          case Only =>
        }
      }
    } else {
      assert !ReadsBy(lines, index, item, Only);
    }
  }

  datatype Way = Only

  /** The lines from `index` on are joined to this raw text; behind a quantifier, so that it is not unfolded. */
  ghost predicate JoinedTo(lines: seq<SourceLine>, index: nat, raw: string, last: nat) {
    forall way :: JoinedBy(lines, index, raw, last, way)
  }

  ghost predicate JoinedBy(lines: seq<SourceLine>, index: nat, raw: string, last: nat, way: Way) {
    way == Only && index < |lines| && Joined(lines, index, lines[index].text) == Some((raw, last))
  }

  lemma MakesJoined(lines: seq<SourceLine>, index: nat, raw: string, last: nat)
    requires index < |lines| && Joined(lines, index, lines[index].text) == Some((raw, last))
    ensures JoinedTo(lines, index, raw, last)
  {
    forall way ensures JoinedBy(lines, index, raw, last, way) {
      match way {
        case Only =>
      }
    }
  }

  lemma FirstOfLay(first: string, parts: seq<string>, last: string)
    requires parts != []
    ensures Lay(first, parts, last)[0] == first + (parts[0] + if |parts| == 1 then last else "")
    ensures |parts| > 1 ==> Lay(first, parts, last)[1..] == Lay("", parts[1..], last)
  {
    if |parts| == 1 {
      Regroup(first, parts[0], last);
    } else {
      assert parts[0] + "" == parts[0];
    }
  }

  lemma OpeningIs(key: string, space: string, d: string, x: string)
    ensures key + "=" + (space + d) + x == Opening(key, space, d)(x)
  {
    Regroup(key + "=", space + d, x);
    Regroup(space, d, x);
  }

  lemma SoFarStarts(parts: seq<string>, end: string)
    requires parts != []
    ensures SoFar(parts[0] + (if |parts| == 1 then end else ""), parts, Body(parts), end)
  {
    if |parts| > 1 {
      assert parts[0] + "" == parts[0];
    }
  }

  lemma TripleFirstLine(key: string, space: string, d: string, parts: seq<string>, end: string)
    requires parts != []
    ensures Lay(key + "=" + (space + d), parts, end)[0]
         == Opening(key, space, d)(parts[0] + if |parts| == 1 then end else "")
  {
    FirstOfLay(key + "=" + (space + d), parts, end);
    OpeningIs(key, space, d, parts[0] + if |parts| == 1 then end else "");
  }

  lemma TripleWhole(key: string, w: Written)
    requires w.Triple?
    ensures Opening(key, w.space, Thrice(w.quote))(Body(w.parts) + (Thrice(w.quote) + w.tail))
         == key + "=" + WriteValue(w)
  {
    Regroup(Body(w.parts), Thrice(w.quote), w.tail);
  }

  lemma FirstText(lines: seq<SourceLine>, index: nat, texts: seq<string>)
    requires texts != [] && TextsAt(lines, index, texts)
    ensures index < |lines| && lines[index].text == texts[0]
  {
    assert lines[index + 0].text == texts[0];
  }

  lemma TripleJoined(lines: seq<SourceLine>, index: nat, key: string, w: Written)
    requires w.Triple? && SoundValue(w) && '=' !in key
    requires TextsAt(lines, index, Lay(key + "=" + (w.space + Thrice(w.quote)), w.parts, Thrice(w.quote) + w.tail))
    ensures JoinedTo(lines, index, key + "=" + WriteValue(w), index + |w.parts| - 1)
  {
    var d, end := Thrice(w.quote), Thrice(w.quote) + w.tail;
    var first := key + "=" + (w.space + d);
    FirstText(lines, index, Lay(first, w.parts, end));
    TripleFirstLine(key, w.space, d, w.parts, end);
    TripleWhole(key, w);
    TripleClosesAt(
      lines, index, key, w.space, d, first, w.parts[0] + (if |w.parts| == 1 then end else ""), w.parts, w.tail);
  }

  lemma JoinsToEnd(
    raw: string -> string, lines: seq<SourceLine>, index: nat, x: string, parts: seq<string>, body: string, end: string)
    requires (forall y :: y <= body ==> OpenAt(raw, y)) && !OpenAt(raw, body + end)
    requires (forall y, z :: AppendsAt(raw, y, z)) && SoFar(x, parts, body, end)
    requires index < |lines| && lines[index].text == raw(x)
    requires |parts| > 1 ==> TextsAt(lines, index + 1, Lay("", parts[1..], end))
    ensures JoinedTo(lines, index, raw(body + end), index + |parts| - 1)
  {
    forall i: nat, y ensures JoinsLike(Joining(lines), raw, Openness(raw), lines, i, y) {
      JoinStep(raw, lines, i, y);
    }
    forall y | y <= body ensures Openness(raw)(y) {
      assert OpenAt(raw, y);
    }
    JoinsOn(Joining(lines), raw, Openness(raw), lines, index, x, parts, body, end);
    MakesJoined(lines, index, raw(body + end), index + |parts| - 1);
  }

  lemma OpeningOpens(key: string, space: string, d: string, body: string, tail: string)
    requires '=' !in key && Blank(space) && (d == DOUBLE || d == SINGLE) && FirstAt(body + d, d, |body|)
    ensures var raw := Opening(key, space, d);
            && (forall y :: y <= body ==> OpenAt(raw, y)) && !OpenAt(raw, body + (d + tail))
            && forall y, z :: AppendsAt(raw, y, z)
  {
    var raw := Opening(key, space, d);
    forall y | y <= body ensures OpenAt(raw, y) {
      OpeningOpen(key, space, d, y, body);
    }
    Regroup(body, d, tail);
    OpeningClosed(key, space, d, body, tail);
    forall y, z ensures AppendsAt(raw, y, z) {
      OpeningAppends(key, space, d, y, z);
    }
  }

  lemma TripleClosesAt(
    lines: seq<SourceLine>, index: nat, key: string, space: string, d: string, first: string, x: string,
    parts: seq<string>, tail: string)
    requires '=' !in key && Blank(space) && (d == DOUBLE || d == SINGLE)
    requires parts != [] && FirstAt(Body(parts) + d, d, |Body(parts)|)
    requires x == parts[0] + (if |parts| == 1 then d + tail else "")
    requires TextsAt(lines, index, Lay(first, parts, d + tail)) && lines[index].text == Opening(key, space, d)(x)
    ensures JoinedTo(lines, index, Opening(key, space, d)(Body(parts) + (d + tail)), index + |parts| - 1)
  {
    OpeningOpens(key, space, d, Body(parts), tail);
    SoFarStarts(parts, d + tail);
    if |parts| > 1 {
      RestOfLay(lines, index, first, parts, d + tail);
    }
    JoinsToEnd(Opening(key, space, d), lines, index, x, parts, Body(parts), d + tail);
  }

  lemma RestOfLay(lines: seq<SourceLine>, index: nat, first: string, parts: seq<string>, last: string)
    requires |parts| > 1 && TextsAt(lines, index, Lay(first, parts, last))
    ensures TextsAt(lines, index + 1, Lay("", parts[1..], last))
  {
    FirstOfLay(first, parts, last);
    var all, rest := Lay(first, parts, last), Lay("", parts[1..], last);
    forall i | 0 <= i < |rest| ensures lines[index + 1 + i].text == rest[i] {
      assert lines[index + (i + 1)].text == all[i + 1];
    }
  }

  lemma ListedJoined(lines: seq<SourceLine>, index: nat, key: string, w: Written)
    requires w.Listed? && SoundValue(w) && '=' !in key && index < |lines|
    requires lines[index].text == key + "=" + WriteValue(w)
    ensures JoinedTo(lines, index, lines[index].text, index)
  {
    EqualsFound(key, WriteValue(w));
    ValueRead(w, 0);
    MakesJoined(lines, index, lines[index].text, index);
  }

  /** The key, the equals sign and the value of a pair. */
  predicate IsRaw(e: Entry, raw: string)
    requires e.Set?
  {
    raw == KeyPart(e.left, e.name, e.right) + "=" + WriteValue(e.value)
  }

  /** The raw text of a written pair is joined from its lines. */
  lemma SetJoined(lines: seq<SourceLine>, index: nat, e: Entry, texts: seq<string>) returns (raw: string)
    requires e.Set? && SoundEntry(e) && texts == Texts(e) && TextsAt(lines, index, texts)
    ensures IsRaw(e, raw) && JoinedTo(lines, index, raw, index + |texts| - 1)
  {
    var key := KeyPart(e.left, e.name, e.right);
    raw := key + "=" + WriteValue(e.value);
    KeyHasNoEquals(e.left, e.name, e.right);
    if e.value.Listed? {
      FirstText(lines, index, Texts(e));
      ListedJoined(lines, index, key, e.value);
    } else {
      TripleJoined(lines, index, key, e.value);
    }
  }

  /** A line that is not empty and starts neither a comment nor a header; behind a quantifier, like `JoinedTo`. */
  ghost predicate StartsKey(text: string) {
    forall way :: StartsBy(text, way)
  }

  ghost predicate StartsBy(text: string, way: Way) {
    way == Only && Trim(text) != "" && Trim(text)[0] != '#' && Trim(text)[0] != '['
  }

  lemma MakesStart(text: string)
    requires Trim(text) != "" && Trim(text)[0] != '#' && Trim(text)[0] != '['
    ensures StartsKey(text)
  {
    forall way ensures StartsBy(text, way) {
      match way {
        case Only =>
      }
    }
  }

  lemma SetStarts(e: Entry, text: string)
    requires e.Set? && SoundEntry(e) && text == Texts(e)[0]
    ensures StartsKey(text)
  {
    var key := KeyPart(e.left, e.name, e.right);
    match e.value {
      case Listed(_, _) => KeyStarts(e.left, e.name, e.right, WriteValue(e.value));
      case Triple(space, quote, parts, tail) =>
        var end := Thrice(quote) + tail;
        TripleFirstLine(key, space, Thrice(quote), parts, end);
        KeyStarts(e.left, e.name, e.right, space + (Thrice(quote) + (parts[0] + if |parts| == 1 then end else "")));
    }
    MakesStart(text);
  }

  lemma PairLine(lines: seq<SourceLine>, index: nat, raw: string, last: nat, key: string, value: Value)
    requires index < |lines| && JoinedTo(lines, index, raw, last) && StartsKey(lines[index].text)
    requires forall line :: KeyValue(raw, line) == Ok((key, value))
    ensures ReadsAs(lines, index, Pair(key, value, last))
  {
    assert JoinedBy(lines, index, raw, last, Only) && StartsBy(lines[index].text, Only);
    ReadsMeans(lines, index, Pair(key, value, last));
  }

  lemma SetLine(lines: seq<SourceLine>, index: nat, e: Entry, raw: string, last: nat)
    requires e.Set? && SoundEntry(e) && IsRaw(e, raw)
    requires index < |lines| && JoinedTo(lines, index, raw, last) && StartsKey(lines[index].text)
    ensures ReadsAs(lines, index, Pair(e.name.text, Meaning(e.value), last))
  {
    forall line ensures KeyValue(raw, line) == Ok((e.name.text, Meaning(e.value))) {
      PairRead(e.left, e.name, e.right, e.value, line);
    }
    PairLine(lines, index, raw, last, e.name.text, Meaning(e.value));
  }

  lemma SetLineStarts(lines: seq<SourceLine>, index: nat, e: Entry, texts: seq<string>)
    requires e.Set? && SoundEntry(e) && texts == Texts(e) && TextsAt(lines, index, texts)
    ensures index < |lines| && StartsKey(lines[index].text)
  {
    FirstText(lines, index, texts);
    SetStarts(e, lines[index].text);
  }

  /** The lines of a sound pair; behind a quantifier, like `JoinedTo`. */
  ghost predicate SetAt(lines: seq<SourceLine>, index: nat, e: Entry, texts: seq<string>) {
    forall way :: SetBy(lines, index, e, texts, way)
  }

  ghost predicate SetBy(lines: seq<SourceLine>, index: nat, e: Entry, texts: seq<string>, way: Way) {
    way == Only && e.Set? && SoundEntry(e) && texts == Texts(e) && TextsAt(lines, index, texts)
  }

  lemma JoinedAt(lines: seq<SourceLine>, index: nat, e: Entry, texts: seq<string>) returns (raw: string)
    requires e.Set? && SetAt(lines, index, e, texts) && texts != []
    ensures IsRaw(e, raw) && JoinedTo(lines, index, raw, index + |texts| - 1)
  {
    assert SetBy(lines, index, e, texts, Only);
    raw := SetJoined(lines, index, e, texts);
  }

  lemma LineAt(lines: seq<SourceLine>, index: nat, e: Entry, texts: seq<string>, raw: string, last: nat)
    requires e.Set? && SetAt(lines, index, e, texts) && IsRaw(e, raw)
    requires index < |lines| && JoinedTo(lines, index, raw, last) && StartsKey(lines[index].text)
    ensures ReadsAs(lines, index, Pair(e.name.text, Meaning(e.value), last))
  {
    assert SetBy(lines, index, e, texts, Only);
    SetLine(lines, index, e, raw, last);
  }

  lemma SetLineRead(lines: seq<SourceLine>, index: nat, e: Entry, texts: seq<string>)
    requires e.Set? && SetAt(lines, index, e, texts) && texts != []
    requires index < |lines| && StartsKey(lines[index].text)
    ensures ReadsAs(lines, index, Pair(e.name.text, Meaning(e.value), index + |texts| - 1))
  {
    var raw := JoinedAt(lines, index, e, texts);
    LineAt(lines, index, e, texts, raw, index + |texts| - 1);
  }

  lemma SetRead(lines: seq<SourceLine>, index: nat, e: Entry, texts: seq<string>)
    requires e.Set? && SoundEntry(e) && texts == Texts(e) && TextsAt(lines, index, texts)
    ensures ReadsAs(lines, index, Pair(e.name.text, Meaning(e.value), index + |texts| - 1))
  {
    SetLineStarts(lines, index, e, texts);
    forall way ensures SetBy(lines, index, e, texts, way) {
      match way {
        case Only =>
      }
    }
    SetLineRead(lines, index, e, texts);
  }

  lemma NoteTrims(left: string, text: string)
    requires Blank(left)
    ensures var trimmed := Trim(left + "#" + text); trimmed != "" && trimmed[0] == '#'
  {
    assert left + "#" + text == left + ("#" + text);
    TrimStartBlank(left, "#" + text);
    TrimEndAfter("#", text);
  }

  lemma PlainRead(lines: seq<SourceLine>, index: nat, e: Entry)
    requires !e.Set? && SoundEntry(e) && index < |lines| && lines[index].text == Texts(e)[0]
    ensures ReadsAs(lines, index, ItemOf(e, index))
  {
    match e {
      case Gap(space) => TrimmedEmptyIffBlank(space);
      case Note(left, text) => NoteTrims(left, text);
      case Head(heading) => HeadingRead(heading, lines[index].number);
    }
    ReadsMeans(lines, index, ItemOf(e, index));
  }

  /** Every sound entry is read as what it is. */
  lemma EntryRead(lines: seq<SourceLine>, index: nat, e: Entry)
    requires SoundEntry(e) && TextsAt(lines, index, Texts(e))
    ensures ReadsAs(lines, index, ItemOf(e, index))
  {
    if e.Set? {
      SetRead(lines, index, e, Texts(e));
    } else {
      FirstText(lines, index, Texts(e));
      PlainRead(lines, index, e);
    }
  }
}
