/** Every line a text may have, and what it is read as: the exact grammar of headers and pairs. */
module ConfigLines {
  import opened Sequences
  import opened Bytes
  import opened Text
  import opened ConfigValue
  import opened ConfigSyntax
  import opened ConfigGrammar
  import N = ConfigNotation
  import W = ConfigWriting

  // ----- labels

  lemma TrimmedAgain(s: string)
    requires s == "" || !IsWhitespace(s[0])
    ensures Trim(TrimEnd(s)) == TrimEnd(s)
  {
    TrimEndTwice(s);
    TrimEndPrefix(s);
  }

  lemma LabelOf(t: string) returns (name: W.Label)
    requires Trim(t) == t
    ensures W.SoundLabel(name) && W.WriteLabel(name) == t
  {
    if |t| >= 2 && IsQuote(t[0]) && t[|t| - 1] == t[0] {
      name := W.InQuotes(t[0], t[1..|t| - 1]);
    } else {
      name := W.Plain(t);
    }
  }

  /** Every text is a label with blanks around it. */
  lemma EveryLabel(s: string) returns (left: string, name: W.Label, right: string)
    ensures Blank(left) && Blank(right) && W.SoundLabel(name) && s == left + W.WriteLabel(name) + right
  {
    var more;
    left, more := SplitBlank(s);
    right := TrimEndSplit(more);
    TrimmedAgain(more);
    name := LabelOf(TrimEnd(more));
    Regroup(left, TrimEnd(more), right);
  }

  // ----- headers

  predicate HeadLine(text: string) {
    TrimStart(text) != "" && TrimStart(text)[0] == '['
  }

  /** Brackets that are never closed by as many. */
  ghost predicate Unclosed(text: string, left: string, depth: nat, inner: string) {
    && Blank(left) && depth >= 1 && (inner == "" || inner[0] != '[') && text == left + (Repeat('[', depth) + inner)
    && forall i :: 0 <= i <= |inner| ==> !Occurs(inner, Repeat(']', depth), i)
  }

  /** A header with something behind it that is no comment. */
  predicate Trailed(text: string, h: W.Heading, tail: string) {
    && W.SoundHeading(h) && h.comment.None? && tail != "" && !IsWhitespace(tail[0]) && tail[0] != '#'
    && text == W.WriteHeading(h) + tail
  }

  predicate Headed(text: string, h: W.Heading) {
    W.SoundHeading(h) && text == W.WriteHeading(h)
  }

  lemma RepeatIs(c: char, n: nat)
    requires n > 0
    ensures Repeat(c, n)[0] == c && Repeat(c, n)[n - 1] == c && Repeat(c, n)[1..] == Repeat(c, n - 1)
  {
  }

  lemma UnclosedRead(text: string, left: string, depth: nat, inner: string, line: nat)
    requires Unclosed(text, left, depth, inner)
    ensures SectionHeader(Trim(text), line) == Err(UnmatchedSectionBrackets(line))
  {
    var open, close := Repeat('[', depth), Repeat(']', depth);
    RepeatIs('[', depth);
    TrimStartBlank(left, open + inner);
    assert TrimStart(open + inner) == open + inner;
    TrimEndAfter(open, inner);
    TrimEndPrefix(inner);
    var after := TrimEnd(inner);
    W.BracketsCounted(depth, after);
    assert (open + after)[depth..] == after;
    forall i | 0 <= i <= |after| ensures !Occurs(after, close, i) {
      assert !Occurs(inner, close, i);
      assert i + depth <= |after| ==> after[i..i + depth] == inner[i..i + depth];
    }
    FindNothing(after, close);
  }

  lemma TrailedRead(text: string, h: W.Heading, tail: string, line: nat)
    requires Trailed(text, h, tail)
    ensures SectionHeader(Trim(text), line) == Err(UnmatchedSectionBrackets(line))
  {
    var end := TrimEnd(h.right + tail);
    TrailedTrims(text, h, tail);
    TailShows(h.right, tail);
    W.HeadingSplits(h.depth, W.Inner(h), Repeat(']', h.depth), end);
    TailRefused(Trim(text), h.depth, W.Inner(h), Repeat(']', h.depth), end, line);
  }

  lemma TrailedTrims(text: string, h: W.Heading, tail: string)
    requires Trailed(text, h, tail)
    ensures Trim(text) == Repeat('[', h.depth) + (W.Inner(h) + Repeat(']', h.depth) + TrimEnd(h.right + tail))
  {
    var front, rest := Repeat('[', h.depth) + W.Inner(h) + Repeat(']', h.depth), h.right + tail;
    RepeatIs('[', h.depth);
    RepeatIs(']', h.depth);
    TrailedIs(h, tail);
    TrimStartBlank(h.left, front + rest);
    assert (front + rest)[0] == '[' && TrimStart(front + rest) == front + rest;
    assert front[|front| - 1] == ']';
    TrimEndAfter(front, rest);
    Regroup(Repeat('[', h.depth), W.Inner(h), Repeat(']', h.depth));
    Regroup(Repeat('[', h.depth), W.Inner(h) + Repeat(']', h.depth), TrimEnd(rest));
  }

  lemma TailRefused(trimmed: string, depth: nat, inner: string, close: string, tail: string, line: nat)
    requires Brackets(trimmed) == depth && trimmed[depth..] == inner + close + tail && close == Repeat(']', depth)
    requires Find(inner + close + tail, close) == |inner|
    requires var t := TrimStart(tail); t != "" && t[0] != '#'
    ensures SectionHeader(trimmed, line) == Err(UnmatchedSectionBrackets(line))
  {
    assert (inner + close + tail)[|inner| + depth..] == tail;
  }

  lemma TrailedIs(h: W.Heading, tail: string)
    requires h.comment.None?
    ensures W.WriteHeading(h) + tail
         == h.left + (Repeat('[', h.depth) + W.Inner(h) + Repeat(']', h.depth) + (h.right + tail))
  {
  }

  lemma TailShows(right: string, tail: string)
    requires Blank(right) && tail != "" && !IsWhitespace(tail[0])
    ensures var t := TrimStart(TrimEnd(right + tail)); t != "" && t[0] == tail[0]
  {
    var front, rest := right + [tail[0]], tail[1..];
    assert right + tail == front + rest;
    TrimEndAfter(front, rest);
    assert front + TrimEnd(rest) == right + ([tail[0]] + TrimEnd(rest));
    TrimStartBlank(right, [tail[0]] + TrimEnd(rest));
  }

  // ----- every header

  lemma {:induction false} SplitBrackets(s: string) returns (depth: nat, rest: string)
    ensures s == Repeat('[', depth) + rest && (rest == "" || rest[0] != '[')
    ensures s != "" && s[0] == '[' ==> depth >= 1
  {
    if s == "" || s[0] != '[' {
      depth, rest := 0, s;
    } else {
      var n;
      n, rest := SplitBrackets(s[1..]);
      depth := n + 1;
      assert Repeat('[', depth) == ['['] + Repeat('[', n);
    }
  }

  /** How a line that starts with brackets goes on. */
  ghost predicate IsHeading(text: string, line: nat, r: Result<(string, nat), ConfigError>) {
    || (exists h :: Headed(text, h) && r == Ok((h.name.text, h.depth)))
    || (r == Err(UnmatchedSectionBrackets(line)) && exists left, depth, inner :: Unclosed(text, left, depth, inner))
    || (r == Err(UnmatchedSectionBrackets(line)) && exists h, tail :: Trailed(text, h, tail))
  }

  lemma HeadingIs(text: string, line: nat, r: Result<(string, nat), ConfigError>)
    requires IsHeading(text, line, r)
    ensures SectionHeader(Trim(text), line) == r
  {
    if h :| Headed(text, h) && r == Ok((h.name.text, h.depth)) {
      W.HeadingRead(h, line);
    } else if left, depth, inner :| Unclosed(text, left, depth, inner) && r == Err(UnmatchedSectionBrackets(line)) {
      UnclosedRead(text, left, depth, inner, line);
    } else {
      var h, tail :| Trailed(text, h, tail) && r == Err(UnmatchedSectionBrackets(line));
      TrailedRead(text, h, tail, line);
    }
  }

  /** A header and what follows its closing brackets. */
  lemma ClosedHeading(left: string, depth: nat, inner: string, tail: string) returns (h: W.Heading, rest: string)
    requires Blank(left) && depth >= 1 && (inner == "" || inner[0] != '[')
    requires FirstAt(inner + Repeat(']', depth), Repeat(']', depth), |inner|)
    ensures W.SoundHeading(h)
    ensures left + (Repeat('[', depth) + inner + Repeat(']', depth) + tail) == W.WriteHeading(h) + rest
    ensures rest == "" || (h.comment.None? && !IsWhitespace(rest[0]) && rest[0] != '#')
  {
    var before, name, after := EveryLabel(inner);
    var right, more := SplitBlank(tail);
    if more != "" && more[0] == '#' {
      h, rest := W.Heading(left, depth, before, name, after, right, Some(more[1..])), "";
      assert more == "#" + more[1..];
    } else {
      h, rest := W.Heading(left, depth, before, name, after, right, None), more;
    }
    assert W.Inner(h) == inner;
    HeadingWritten(h, inner, tail, rest);
  }

  lemma HeadingWritten(h: W.Heading, inner: string, tail: string, rest: string)
    requires W.Inner(h) == inner && tail == h.right + W.Remark(h.comment) + rest
    ensures h.left + (Repeat('[', h.depth) + inner + Repeat(']', h.depth) + tail) == W.WriteHeading(h) + rest
  {
  }

  lemma NotFound(s: string, needle: string)
    requires Find(s, needle) < 0
    ensures forall i :: 0 <= i <= |s| ==> !Occurs(s, needle, i)
  {
    forall i | 0 <= i <= |s| ensures !Occurs(s, needle, i) {
      if Occurs(s, needle, i) {
        N.FindComplete(s, needle, i);
      }
    }
  }

  lemma HeadingCloses(text: string, left: string, depth: nat, rest: string, k: nat, line: nat)
    returns (r: Result<(string, nat), ConfigError>)
    requires Blank(left) && depth >= 1 && (rest == "" || rest[0] != '[') && text == left + (Repeat('[', depth) + rest)
    requires FirstAt(rest, Repeat(']', depth), k)
    ensures IsHeading(text, line, r)
  {
    var close := Repeat(']', depth);
    CloseCuts(rest, close, k);
    var inner, tail := rest[..k], rest[k + depth..];
    var h, behind := ClosedHeading(left, depth, inner, tail);
    RegroupFour(Repeat('[', depth), inner, close, tail);
    assert text == W.WriteHeading(h) + behind;
    if behind == "" {
      assert Headed(text, h);
      r := Ok((h.name.text, h.depth));
    } else {
      assert Trailed(text, h, behind);
      r := Err(UnmatchedSectionBrackets(line));
    }
  }

  lemma EveryHeading(text: string, line: nat) returns (r: Result<(string, nat), ConfigError>)
    requires HeadLine(text)
    ensures IsHeading(text, line, r)
  {
    var left, more := SplitBlank(text);
    TrimStartBlank(left, more);
    var depth, rest := SplitBrackets(more);
    var close := Repeat(']', depth);
    if Find(rest, close) < 0 {
      NotFound(rest, close);
      assert Unclosed(text, left, depth, rest);
      r := Err(UnmatchedSectionBrackets(line));
    } else {
      FindIsFirst(rest, close);
      r := HeadingCloses(text, left, depth, rest, Find(rest, close), line);
    }
  }

  lemma CloseCuts(s: string, close: string, k: nat)
    requires close != "" && FirstAt(s, close, k)
    ensures k + |close| <= |s| && s == s[..k] + close + s[k + |close|..]
    ensures FirstAt(s[..k] + close, close, k)
    ensures s[..k] == "" || s[0] == s[..k][0]
  {
    var front := s[..k] + close;
    assert front == s[..k + |close|];
    assert front[k..k + |close|] == close;
    forall i | 0 <= i < k ensures !Occurs(front, close, i) {
      assert !Occurs(s, close, i);
      assert i + |close| <= |front| ==> front[i..i + |close|] == s[i..i + |close|];
    }
  }

  /** Every line that starts with brackets is read as it is written. */
  lemma HeadingExact(text: string, line: nat, r: Result<(string, nat), ConfigError>)
    requires HeadLine(text)
    ensures SectionHeader(Trim(text), line) == r <==> IsHeading(text, line, r)
  {
    var q := EveryHeading(text, line);
    HeadingIs(text, line, q);
    if IsHeading(text, line, r) {
      HeadingIs(text, line, r);
    }
  }

  // ----- pairs

  /** A label, the first equals sign and what follows it. */
  predicate PairWritten(raw: string, left: string, name: W.Label, right: string, v: string) {
    && Blank(left) && Blank(right) && W.SoundLabel(name) && '=' !in W.KeyPart(left, name, right)
    && raw == W.KeyPart(left, name, right) + "=" + v
  }

  /** A pair is read as its label and its value, unless the label is empty or the value malformed. */
  ghost predicate PairReadAs(name: W.Label, v: string, line: nat, r: Result<(string, Value), ConfigError>) {
    if name.text == "" then r == Err(EmptyKey(line))
    else if r.Err? then IsRead(v, line, Err(r.error))
    else r.value.0 == name.text && IsRead(v, line, Ok(r.value.1))
  }

  ghost predicate IsPair(raw: string, line: nat, r: Result<(string, Value), ConfigError>) {
    if '=' !in raw then r == Err(MissingEquals(line))
    else exists left, name, right, v :: PairWritten(raw, left, name, right, v) && PairReadAs(name, v, line, r)
  }

  lemma PairIs(raw: string, left: string, name: W.Label, right: string, v: string, line: nat)
    requires PairWritten(raw, left, name, right, v)
    ensures KeyValue(raw, line) ==
            if name.text == "" then Err(EmptyKey(line))
            else if ValueOf(v, line).Err? then Err(ValueOf(v, line).error)
            else Ok((name.text, ValueOf(v, line).value))
  {
    W.EqualsFound(W.KeyPart(left, name, right), v);
    W.LabelRead(left, name, right);
  }

  lemma PairReadIff(name: W.Label, v: string, line: nat, r: Result<(string, Value), ConfigError>)
    ensures PairReadAs(name, v, line, r) <==>
            r == if name.text == "" then Err(EmptyKey(line))
                 else if ValueOf(v, line).Err? then Err(ValueOf(v, line).error)
                 else Ok((name.text, ValueOf(v, line).value))
  {
    if r.Err? {
      ValueExact(v, line, Err(r.error));
    } else {
      ValueExact(v, line, Ok(r.value.1));
    }
  }

  lemma EveryPair(raw: string) returns (left: string, name: W.Label, right: string, v: string)
    requires '=' in raw
    ensures PairWritten(raw, left, name, right, v)
  {
    var key, rest := SplitWhile((c: char) => c != '=', raw);
    left, name, right := EveryLabel(key);
    v := rest[1..];
    assert '=' !in key && rest == "=" + v;
  }

  lemma NoEquals(raw: string)
    requires '=' !in raw
    ensures Find(raw, "=") < 0
  {
    forall i | 0 <= i <= |raw| ensures !Occurs(raw, "=", i) {
      if i < |raw| {
        assert raw[i..i + 1] == [raw[i]] && raw[i] in raw;
      }
    }
    FindNothing(raw, "=");
  }

  /** Every pair is read as it is written. */
  lemma PairExact(raw: string, line: nat, r: Result<(string, Value), ConfigError>)
    ensures KeyValue(raw, line) == r <==> IsPair(raw, line, r)
  {
    if '=' in raw {
      var left, name, right, v := EveryPair(raw);
      PairIs(raw, left, name, right, v, line);
      PairReadIff(name, v, line, r);
      if IsPair(raw, line, r) {
        var l, n, m, w :| PairWritten(raw, l, n, m, w) && PairReadAs(n, w, line, r);
        PairIs(raw, l, n, m, w, line);
        PairReadIff(n, w, line, r);
      }
    } else {
      NoEquals(raw);
    }
  }

  // ----- values that go on over several lines

  /** Triple quotes are opened and not closed. */
  ghost predicate LeftOpen(v: string, space: string, quote: char, rest: string) {
    && Blank(space) && IsQuote(quote) && v == space + (W.Thrice(quote) + rest)
    && forall i :: 0 <= i <= |rest| ==> !Occurs(rest, W.Thrice(quote), i)
  }

  /** What follows the first equals sign, or everything if there is none. */
  predicate Follows(raw: string, key: string, v: string) {
    '=' !in key && (raw == key + "=" + v || (key == "" && v == raw && '=' !in raw))
  }

  ghost predicate OpenText(raw: string) {
    exists key, v, space, quote, rest :: Follows(raw, key, v) && LeftOpen(v, space, quote, rest)
  }

  lemma FollowsIs(raw: string, key: string, v: string)
    requires Follows(raw, key, v)
    ensures ValuePart(raw) == v
  {
    if raw == key + "=" + v {
      W.EqualsFound(key, v);
    } else {
      NoEquals(raw);
    }
  }

  lemma LeftOpenIs(v: string, space: string, quote: char, rest: string)
    requires LeftOpen(v, space, quote, rest)
    ensures UnterminatedTriple(v).Some?
  {
    var d := W.Thrice(quote);
    assert d == DOUBLE || d == SINGLE;
    W.QuotesTrim(space, d, rest);
    FindNothing(rest, d);
    W.TripleOpens(v, d, rest);
  }

  lemma EveryValuePart(raw: string) returns (key: string)
    ensures Follows(raw, key, ValuePart(raw))
  {
    if '=' in raw {
      var rest;
      key, rest := SplitWhile((c: char) => c != '=', raw);
      assert '=' !in key && raw == key + "=" + rest[1..];
      W.EqualsFound(key, rest[1..]);
    } else {
      key := "";
      NoEquals(raw);
    }
  }

  lemma OpensWith(v: string, d: string)
    requires UnterminatedTriple(v) == Some(d)
    ensures (d == DOUBLE || d == SINGLE) && StartsWith(TrimStart(v), d) && Find(TrimStart(v)[3..], d) < 0
  {
  }

  lemma LeftOpenFrom(v: string, space: string, more: string, d: string)
    requires Blank(space) && v == space + more && (d == DOUBLE || d == SINGLE)
    requires StartsWith(more, d) && Find(more[3..], d) < 0
    ensures LeftOpen(v, space, d[0], more[3..])
  {
    NotFound(more[3..], d);
    assert d == W.Thrice(d[0]) && more == d + more[3..];
  }

  lemma OpenIsLeft(v: string) returns (space: string, quote: char, rest: string)
    requires UnterminatedTriple(v).Some?
    ensures LeftOpen(v, space, quote, rest)
  {
    var d := UnterminatedTriple(v).value;
    OpensWith(v, d);
    var more;
    space, more := SplitBlank(v);
    TrimStartBlank(space, more);
    LeftOpenFrom(v, space, more, d);
    quote, rest := d[0], more[3..];
  }

  lemma OpenTextIff(raw: string)
    ensures UnterminatedTriple(ValuePart(raw)).Some? <==> OpenText(raw)
  {
    if OpenText(raw) {
      var key, v, space, quote, rest :| Follows(raw, key, v) && LeftOpen(v, space, quote, rest);
      FollowsIs(raw, key, v);
      LeftOpenIs(v, space, quote, rest);
    }
    if UnterminatedTriple(ValuePart(raw)).Some? {
      var key := EveryValuePart(raw);
      var space, quote, rest := OpenIsLeft(ValuePart(raw));
    }
  }

  /** The texts of the lines from one to another, joined. */
  function JoinedText(lines: seq<SourceLine>, first: nat, last: nat): string
    requires first <= last < |lines|
    decreases last
  {
    if first == last then lines[first].text else JoinedText(lines, first, last - 1) + "\n" + lines[last].text
  }

  ghost predicate OpenTo(lines: seq<SourceLine>, first: nat, last: nat)
    requires first <= last < |lines|
  {
    OpenText(JoinedText(lines, first, last))
  }

  /** A pair goes on to the first line on which no triple quotes are left open. */
  ghost predicate GoesOnTo(lines: seq<SourceLine>, first: nat, last: nat) {
    && first <= last < |lines| && !OpenTo(lines, first, last)
    && forall j :: first <= j < last ==> OpenTo(lines, first, j)
  }

  ghost predicate StaysOpen(lines: seq<SourceLine>, first: nat) {
    forall j :: first <= j < |lines| ==> OpenTo(lines, first, j)
  }

  /** One more line is joined while quotes are left open, and none after that. */
  ghost predicate JoinsLike(
    join: (nat, string) -> Option<(string, nat)>, lines: seq<SourceLine>, index: nat, raw: string)
  {
    index < |lines| ==>
      join(index, raw) == if !OpenText(raw) then Some((raw, index))
                          else if index + 1 == |lines| then None
                          else join(index + 1, raw + "\n" + lines[index + 1].text)
  }

  lemma JoinStep(lines: seq<SourceLine>, index: nat, raw: string)
    ensures JoinsLike(W.Joining(lines), lines, index, raw)
  {
    OpenTextIff(raw);
  }

  /** Where a pair ends, if it does. */
  ghost predicate EndsRight(lines: seq<SourceLine>, first: nat, joined: Option<(string, nat)>) {
    if joined.None? then StaysOpen(lines, first)
    else GoesOnTo(lines, first, joined.value.1) && joined.value.0 == JoinedText(lines, first, joined.value.1)
  }

  lemma {:induction false} JoinsRight(
    join: (nat, string) -> Option<(string, nat)>, lines: seq<SourceLine>, first: nat, index: nat, raw: string)
    requires forall i, s :: JoinsLike(join, lines, i, s)
    requires first <= index < |lines| && raw == JoinedText(lines, first, index)
    requires forall j :: first <= j < index ==> OpenTo(lines, first, j)
    ensures EndsRight(lines, first, join(index, raw))
    decreases |lines| - index
  {
    assert JoinsLike(join, lines, index, raw);
    if OpenText(raw) {
      assert OpenTo(lines, first, index);
      if index + 1 < |lines| {
        JoinsRight(join, lines, first, index + 1, raw + "\n" + lines[index + 1].text);
      }
    }
  }

  lemma JoinedIs(lines: seq<SourceLine>, first: nat)
    requires first < |lines|
    ensures EndsRight(lines, first, Joined(lines, first, lines[first].text))
  {
    forall i: nat, s ensures JoinsLike(W.Joining(lines), lines, i, s) {
      JoinStep(lines, i, s);
    }
    JoinsRight(W.Joining(lines), lines, first, first, lines[first].text);
  }

  // ----- lines

  /** What the first line of a text is read as, with the lines it goes on over. */
  ghost predicate LineIs(lines: seq<SourceLine>, index: nat, r: Result<Item, ConfigError>)
    requires index < |lines|
  {
    var text, line := TrimStart(lines[index].text), lines[index].number;
    if text == "" || text[0] == '#' then r == Ok(Nothing)
    else if text[0] == '[' then HeaderIs(lines[index].text, line, r)
    else PairLineIs(lines, index, line, r)
  }

  ghost predicate PairLineIs(lines: seq<SourceLine>, index: nat, line: nat, r: Result<Item, ConfigError>)
    requires index < |lines|
  {
    if StaysOpen(lines, index) then r == Err(UnterminatedQuote(line))
    else exists last :: GoesOnTo(lines, index, last) && KeyIs(JoinedText(lines, index, last), line, last, r)
  }

  ghost predicate HeaderIs(text: string, line: nat, r: Result<Item, ConfigError>) {
    if r.Err? then IsHeading(text, line, Err(r.error))
    else r.value.Header? && IsHeading(text, line, Ok((r.value.name, r.value.depth)))
  }

  ghost predicate KeyIs(raw: string, line: nat, last: nat, r: Result<Item, ConfigError>) {
    if r.Err? then IsPair(raw, line, Err(r.error))
    else r.value.Pair? && r.value.last == last && IsPair(raw, line, Ok((r.value.key, r.value.value)))
  }

  lemma TrimmedStart(s: string)
    ensures Trim(s) == "" <==> TrimStart(s) == ""
    ensures Trim(s) != "" ==> Trim(s)[0] == TrimStart(s)[0]
  {
    TrimEndPrefix(TrimStart(s));
    if TrimStart(s) != "" {
      TrimStartVisible(s);
      TrimEndEmpty(TrimStart(s));
    }
  }

  function AsHeader(r: Result<(string, nat), ConfigError>): Result<Item, ConfigError> {
    if r.Err? then Err(r.error) else Ok(Header(r.value.0, r.value.1))
  }

  function AsPair(r: Result<(string, Value), ConfigError>, last: nat): Result<Item, ConfigError> {
    if r.Err? then Err(r.error) else Ok(Pair(r.value.0, r.value.1, last))
  }

  lemma HeaderIff(text: string, line: nat, r: Result<Item, ConfigError>)
    requires HeadLine(text)
    ensures HeaderIs(text, line, r) <==> r == AsHeader(SectionHeader(Trim(text), line))
  {
    if r.Err? {
      HeadingExact(text, line, Err(r.error));
    } else if r.value.Header? {
      HeadingExact(text, line, Ok((r.value.name, r.value.depth)));
    }
  }

  lemma KeyIff(raw: string, line: nat, last: nat, r: Result<Item, ConfigError>)
    ensures KeyIs(raw, line, last, r) <==> r == AsPair(KeyValue(raw, line), last)
  {
    if r.Err? {
      PairExact(raw, line, Err(r.error));
    } else if r.value.Pair? {
      PairExact(raw, line, Ok((r.value.key, r.value.value)));
    }
  }

  lemma SameEnd(lines: seq<SourceLine>, first: nat, last: nat, other: nat)
    requires GoesOnTo(lines, first, last) && GoesOnTo(lines, first, other)
    ensures last == other
  {
  }

  function PairRead(joined: Option<(string, nat)>, line: nat): Result<Item, ConfigError> {
    if joined.None? then Err(UnterminatedQuote(line))
    else AsPair(KeyValue(joined.value.0, line), joined.value.1)
  }

  lemma PairLineExact(
    lines: seq<SourceLine>, index: nat, line: nat, joined: Option<(string, nat)>, r: Result<Item, ConfigError>)
    requires index < |lines| && EndsRight(lines, index, joined)
    ensures PairLineIs(lines, index, line, r) <==> r == PairRead(joined, line)
  {
    if joined.Some? {
      var (raw, last) := joined.value;
      KeyIff(raw, line, last, r);
      forall j | GoesOnTo(lines, index, j) ensures j == last {
        SameEnd(lines, index, last, j);
      }
      assert !OpenTo(lines, index, last);
    }
  }

  lemma ReadItemIs(lines: seq<SourceLine>, index: nat)
    requires index < |lines|
    ensures var text, line := TrimStart(lines[index].text), lines[index].number;
            ReadItem(lines, index)
            == if text == "" || text[0] == '#' then Ok(Nothing)
               else if text[0] == '[' then AsHeader(SectionHeader(Trim(lines[index].text), line))
               else PairRead(Joined(lines, index, lines[index].text), line)
  {
    TrimmedStart(lines[index].text);
  }

  /** Every line of every text is read as it is written, and as nothing else. */
  lemma LineExact(lines: seq<SourceLine>, index: nat, r: Result<Item, ConfigError>)
    requires index < |lines|
    ensures ReadItem(lines, index) == r <==> LineIs(lines, index, r)
  {
    var text, line := lines[index].text, lines[index].number;
    ReadItemIs(lines, index);
    if HeadLine(text) {
      HeaderIff(text, line, r);
    } else {
      JoinedIs(lines, index);
      PairLineExact(lines, index, line, Joined(lines, index, text), r);
    }
  }
}
