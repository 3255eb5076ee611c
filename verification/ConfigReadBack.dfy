/** A written configuration document parses to the sections, keys and values that were written. */
module ConfigReadBack {
  import opened Bytes
  import opened Text
  import opened ConfigValue
  import opened ConfigSyntax
  import opened ConfigTree
  import opened ConfigLayout
  import opened ConfigLookup
  import opened ConfigAgreement
  import opened ConfigParser
  import opened ConfigAcceptance
  import ConfigNotation
  import W = ConfigWriting

  // ----- writing a document

  function AllTexts(es: seq<W.Entry>): seq<string> {
    if es == [] then [] else W.Texts(es[0]) + AllTexts(es[1..])
  }

  function LineBreak(crlf: bool): string {
    if crlf then "\r\n" else "\n"
  }

  function WriteLines(texts: seq<string>, crlf: bool): string {
    if texts == [] then "" else texts[0] + LineBreak(crlf) + WriteLines(texts[1..], crlf)
  }

  /** A line has no line feed inside, and no carriage return at its end that would pass for part of its break. */
  predicate OneLine(text: string, crlf: bool) {
    '\n' !in text && (crlf || !EndsIn(text, '\r'))
  }

  predicate SoundDocument(es: seq<W.Entry>, crlf: bool) {
    && (forall i :: 0 <= i < |es| ==> W.SoundEntry(es[i]))
    && (forall i :: 0 <= i < |AllTexts(es)| ==> OneLine(AllTexts(es)[i], crlf))
  }

  function WriteDocument(es: seq<W.Entry>, crlf: bool): string {
    WriteLines(AllTexts(es), crlf)
  }

  // ----- what was written

  /** The path a heading opens: its name after as much of the current path as is above it. */
  function PathFrom(path: Path, e: W.Entry): Path {
    if e.Head? then (if e.heading.depth - 1 < |path| && e.heading.depth >= 1 then path[..e.heading.depth - 1] else path)
                    + [e.heading.name.text]
    else path
  }

  function SectionsWritten(es: seq<W.Entry>, path: Path): seq<Path> {
    if es == [] then []
    else (if es[0].Head? then [PathFrom(path, es[0])] else []) + SectionsWritten(es[1..], PathFrom(path, es[0]))
  }

  function KeyWritten(e: W.Entry, path: Path): seq<(Path, Value)> {
    if e.Set? then [(path + [e.name.text], W.Meaning(e.value))] else []
  }

  function KeysWritten(es: seq<W.Entry>, path: Path): seq<(Path, Value)> {
    if es == [] then []
    else KeyWritten(es[0], path) + KeysWritten(es[1..], PathFrom(path, es[0]))
  }

  /** No heading is more than one level deeper than the section it comes in. */
  predicate Nested(es: seq<W.Entry>, path: Path) {
    es != [] ==>
      (es[0].Head? ==> es[0].heading.depth <= |path| + 1) && Nested(es[1..], PathFrom(path, es[0]))
  }

  // ----- lines

  lemma {:induction false} LineEndAt(input: string, at: nat, k: nat)
    requires at + k < |input| && input[at + k] == '\n' && '\n' !in input[at..at + k]
    ensures LineEnd(input, at) == at + k + 1
    decreases k
  {
    if k > 0 {
      assert input[at] == input[at..at + k][0];
      assert input[at + 1..at + 1 + (k - 1)] == input[at..at + k][1..];
      LineEndAt(input, at + 1, k - 1);
    }
  }

  lemma BreakStripped(text: string, crlf: bool)
    requires OneLine(text, crlf)
    ensures StripSuffix(StripSuffix(text + LineBreak(crlf), '\n'), '\r') == text
  {
    if crlf {
      var whole := text + "\r\n";
      assert whole[..|whole| - 1] == text + "\r" && (text + "\r")[..|text|] == text;
    } else {
      assert (text + "\n")[..|text|] == text;
    }
  }

  lemma FirstLine(input: string, start: nat, text: string, crlf: bool, rest: string)
    requires start <= |input| && input[start..] == text + LineBreak(crlf) + rest && OneLine(text, crlf)
    ensures var e := start + |text| + |LineBreak(crlf)|;
            && start < e <= |input| && LineEnd(input, start) == e && input[start..e] == text + LineBreak(crlf)
            && input[e..] == rest
  {
    var whole := text + LineBreak(crlf);
    var k := |whole| - 1;
    assert input[start..start + |whole|] == input[start..][..|whole|] == whole;
    assert input[start + k] == input[start..][k] == '\n';
    assert input[start..start + k] == whole[..k];
    assert whole[..k] == if crlf then text + "\r" else text;
    LineEndAt(input, start, k);
    assert input[start + |whole|..] == input[start..][|whole|..];
  }

  lemma LineRead(input: string, start: nat, number: nat, text: string, crlf: bool, rest: string)
    requires start <= |input| && input[start..] == text + LineBreak(crlf) + rest && OneLine(text, crlf)
    ensures var e, lines := LineEnd(input, start), LinesFrom(input, start, number);
            && start < e <= |input| && input[e..] == rest
            && lines != [] && lines[0].text == text && lines[1..] == LinesFrom(input, e, number + 1)
  {
    FirstLine(input, start, text, crlf, rest);
    LinesCons(input, start, number, LineEnd(input, start), text + LineBreak(crlf));
    BreakStripped(text, crlf);
  }

  lemma LinesCons(input: string, start: nat, number: nat, e: nat, whole: string)
    requires start < |input| && e == LineEnd(input, start) && input[start..e] == whole
    ensures var lines := LinesFrom(input, start, number);
            && lines != [] && lines[0].text == StripSuffix(StripSuffix(whole, '\n'), '\r')
            && lines[1..] == LinesFrom(input, e, number + 1)
  {
  }

  lemma {:induction false} WrittenLines(input: string, start: nat, number: nat, texts: seq<string>, crlf: bool)
    requires start <= |input| && input[start..] == WriteLines(texts, crlf)
    requires forall i :: 0 <= i < |texts| ==> OneLine(texts[i], crlf)
    ensures var lines := LinesFrom(input, start, number);
            |lines| == |texts| && forall i :: 0 <= i < |texts| ==> lines[i].text == texts[i]
    decreases |texts|
  {
    if texts != [] {
      var rest, lines := texts[1..], LinesFrom(input, start, number);
      LineRead(input, start, number, texts[0], crlf, WriteLines(rest, crlf));
      WrittenLines(input, LineEnd(input, start), number + 1, rest, crlf);
      forall i | 0 < i < |texts| ensures lines[i].text == texts[i] {
        assert lines[1..][i - 1].text == rest[i - 1];
      }
    }
  }

  // ----- items

  function ItemsOf(es: seq<W.Entry>, index: nat): seq<(nat, Item)> {
    if es == [] then [] else [(index, W.ItemOf(es[0], index))] + ItemsOf(es[1..], index + W.Height(es[0]))
  }

  lemma EntryAt(lines: seq<SourceLine>, index: nat, first: seq<string>, rest: seq<string>)
    requires W.TextsAt(lines, index, first + rest)
    ensures W.TextsAt(lines, index, first) && W.TextsAt(lines, index + |first|, rest)
  {
    var all := first + rest;
    forall i | 0 <= i < |first| ensures lines[index + i].text == first[i] {
      assert lines[index + i].text == all[i];
    }
    forall i | 0 <= i < |rest| ensures lines[index + |first| + i].text == rest[i] {
      assert lines[index + (|first| + i)].text == all[|first| + i];
    }
  }

  /** A line that reads as an item is walked as that item, ahead of the walk from the line after it. */
  ghost predicate WalksLike(
    walk: nat -> Option<seq<(nat, Item)>>, lines: seq<SourceLine>, index: nat, item: Item)
  {
    W.ReadsAs(lines, index, item) && walk(NextIndex(item, index)).Some? ==>
      walk(index) == Some([(index, item)] + walk(NextIndex(item, index)).value)
  }

  function Walking(lines: seq<SourceLine>): nat -> Option<seq<(nat, Item)>> {
    (index: nat) => if index <= |lines| then Walk(lines, index) else None
  }

  lemma WalkStep(lines: seq<SourceLine>, index: nat, item: Item)
    ensures WalksLike(Walking(lines), lines, index, item)
  {
    W.ReadsMeans(lines, index, item);
    if W.ReadsAs(lines, index, item) && Walking(lines)(NextIndex(item, index)).Some? {
      WalkUnfolds(lines, index, item, Walk(lines, NextIndex(item, index)).value);
    }
  }

  /** The items follow one another, from one line to another. */
  predicate Chained(items: seq<(nat, Item)>, index: nat, end: nat) {
    if items == [] then index == end
    else items[0].0 == index && Chained(items[1..], NextIndex(items[0].1, index), end)
  }

  lemma {:induction false} ChainWalks(
    walk: nat -> Option<seq<(nat, Item)>>, lines: seq<SourceLine>, items: seq<(nat, Item)>, index: nat, end: nat)
    requires forall i, item :: WalksLike(walk, lines, i, item)
    requires Chained(items, index, end) && walk(end) == Some([])
    requires forall i :: 0 <= i < |items| ==> W.ReadsAs(lines, items[i].0, items[i].1)
    ensures walk(index) == Some(items)
    decreases |items|
  {
    if items != [] {
      var item := items[0].1;
      assert items == [(index, item)] + items[1..];
      ChainWalks(walk, lines, items[1..], NextIndex(item, index), end);
      assert WalksLike(walk, lines, index, item);
    }
  }

  lemma EntrySpans(e: W.Entry, index: nat)
    ensures NextIndex(W.ItemOf(e, index), index) == index + W.Height(e)
  {
  }

  lemma {:induction false} EntriesChain(es: seq<W.Entry>, index: nat)
    ensures Chained(ItemsOf(es, index), index, index + |AllTexts(es)|)
    decreases |es|
  {
    if es != [] {
      EntrySpans(es[0], index);
      ItemsCons(es, index);
      EntriesChain(es[1..], index + W.Height(es[0]));
    }
  }

  lemma {:induction false} EntriesRead(
    es: seq<W.Entry>, lines: seq<SourceLine>, index: nat, items: seq<(nat, Item)>, k: nat)
    requires forall i :: 0 <= i < |es| ==> W.SoundEntry(es[i])
    requires W.TextsAt(lines, index, AllTexts(es)) && items == ItemsOf(es, index) && k < |items|
    ensures W.ReadsAs(lines, items[k].0, items[k].1)
    decreases |es|
  {
    var first := W.Texts(es[0]);
    EntryAt(lines, index, first, AllTexts(es[1..]));
    ItemsCons(es, index);
    if k == 0 {
      W.EntryRead(lines, index, es[0]);
    } else {
      EntriesRead(es[1..], lines, index + |first|, items[1..], k - 1);
    }
  }

  /** The entries are all read. */
  lemma AllRead(es: seq<W.Entry>, lines: seq<SourceLine>, items: seq<(nat, Item)>)
    requires forall i :: 0 <= i < |es| ==> W.SoundEntry(es[i])
    requires W.TextsAt(lines, 0, AllTexts(es)) && items == ItemsOf(es, 0)
    ensures forall i :: 0 <= i < |items| ==> W.ReadsAs(lines, items[i].0, items[i].1)
  {
    forall i | 0 <= i < |items| ensures W.ReadsAs(lines, items[i].0, items[i].1) {
      EntriesRead(es, lines, 0, items, i);
    }
  }

  lemma ItemsWalk(lines: seq<SourceLine>, items: seq<(nat, Item)>)
    requires Chained(items, 0, |lines|)
    requires forall i :: 0 <= i < |items| ==> W.ReadsAs(lines, items[i].0, items[i].1)
    ensures Walk(lines, 0) == Some(items)
  {
    forall i: nat, item ensures WalksLike(Walking(lines), lines, i, item) {
      WalkStep(lines, i, item);
    }
    ChainWalks(Walking(lines), lines, items, 0, |lines|);
  }

  // ----- the outline

  lemma ItemsCons(es: seq<W.Entry>, index: nat)
    requires es != []
    ensures ItemsOf(es, index)[0] == (index, W.ItemOf(es[0], index))
    ensures ItemsOf(es, index)[1..] == ItemsOf(es[1..], index + W.Height(es[0]))
  {
  }

  lemma PathIs(path: Path, e: W.Entry, index: nat)
    requires W.SoundEntry(e)
    ensures PathAfter(path, W.ItemOf(e, index)) == PathFrom(path, e)
  {
  }

  lemma {:induction false} SkipsAre(es: seq<W.Entry>, index: nat, path: Path)
    requires forall i :: 0 <= i < |es| ==> W.SoundEntry(es[i])
    ensures NoSkip(ItemsOf(es, index), path) <==> Nested(es, path)
    decreases |es|
  {
    if es != [] {
      ItemsCons(es, index);
      PathIs(path, es[0], index);
      SkipsAre(es[1..], index + W.Height(es[0]), PathFrom(path, es[0]));
    }
  }

  lemma {:induction false} HeadersAre(es: seq<W.Entry>, index: nat, path: Path)
    requires forall i :: 0 <= i < |es| ==> W.SoundEntry(es[i])
    ensures HeaderPaths(ItemsOf(es, index), path) == SectionsWritten(es, path)
    decreases |es|
  {
    if es != [] {
      ItemsCons(es, index);
      PathIs(path, es[0], index);
      HeadersAre(es[1..], index + W.Height(es[0]), PathFrom(path, es[0]));
    }
  }

  lemma {:induction false} PairsAre(es: seq<W.Entry>, index: nat, path: Path)
    requires forall i :: 0 <= i < |es| ==> W.SoundEntry(es[i])
    ensures PairPaths(ItemsOf(es, index), path) == Firsts(KeysWritten(es, path))
    decreases |es|
  {
    if es != [] {
      ItemsCons(es, index);
      PathIs(path, es[0], index);
      PairsAre(es[1..], index + W.Height(es[0]), PathFrom(path, es[0]));
      FirstsConcat(KeyWritten(es[0], path), KeysWritten(es[1..], PathFrom(path, es[0])));
    }
  }

  lemma OutlineIs(es: seq<W.Entry>)
    requires forall i :: 0 <= i < |es| ==> W.SoundEntry(es[i])
    ensures NoSkip(ItemsOf(es, 0), []) <==> Nested(es, [])
    ensures HeaderPaths(ItemsOf(es, 0), []) == SectionsWritten(es, [])
    ensures PairPaths(ItemsOf(es, 0), []) == Firsts(KeysWritten(es, []))
  {
    SkipsAre(es, 0, []);
    HeadersAre(es, 0, []);
    PairsAre(es, 0, []);
  }

  lemma FirstsConcat(a: seq<(Path, Value)>, b: seq<(Path, Value)>)
    ensures Firsts(a + b) == Firsts(a) + Firsts(b)
  {
  }

  function ValueIn(item: Item): seq<Value> {
    if item.Pair? then [item.value] else []
  }

  function ValuesOf(items: seq<(nat, Item)>): seq<Value> {
    if items == [] then [] else ValueIn(items[0].1) + ValuesOf(items[1..])
  }

  predicate HoldsValues(keys: seq<WrittenKey>, values: seq<Value>) {
    |keys| == |values| && forall i :: 0 <= i < |keys| ==> keys[i].value == values[i]
  }

  /** Pairs that end within the text are recorded with their values. */
  lemma {:induction false} ValuesRecorded(lines: seq<SourceLine>, items: seq<(nat, Item)>, index: nat)
    requires Chained(items, index, |lines|)
    requires forall i :: 0 <= i < |items| ==> W.ReadsAs(lines, items[i].0, items[i].1)
    ensures HoldsValues(WrittenKeys(lines, items), ValuesOf(items))
    decreases |items|
  {
    if items != [] {
      var item := items[0].1;
      ReadsWithin(lines, index, item);
      ValuesRecorded(lines, items[1..], NextIndex(item, index));
    }
  }

  lemma ReadsWithin(lines: seq<SourceLine>, index: nat, item: Item)
    requires W.ReadsAs(lines, index, item)
    ensures index < |lines| && (item.Pair? ==> item.last < |lines|)
  {
    W.ReadsMeans(lines, index, item);
  }

  function Seconds(entries: seq<(Path, Value)>): (r: seq<Value>)
    ensures |r| == |entries|
  {
    seq(|entries|, i requires 0 <= i < |entries| => entries[i].1)
  }

  lemma SecondsConcat(a: seq<(Path, Value)>, b: seq<(Path, Value)>)
    ensures Seconds(a + b) == Seconds(a) + Seconds(b)
  {
  }

  /** The values read are those that were written. */
  lemma {:induction false} ValuesAre(es: seq<W.Entry>, index: nat, path: Path)
    ensures ValuesOf(ItemsOf(es, index)) == Seconds(KeysWritten(es, path))
    decreases |es|
  {
    if es != [] {
      ItemsCons(es, index);
      ValuesAre(es[1..], index + W.Height(es[0]), PathFrom(path, es[0]));
      SecondsConcat(KeyWritten(es[0], path), KeysWritten(es[1..], PathFrom(path, es[0])));
    }
  }

  // ----- the whole document

  lemma WrittenItems(es: seq<W.Entry>, lines: seq<SourceLine>, items: seq<(nat, Item)>)
    requires forall i :: 0 <= i < |es| ==> W.SoundEntry(es[i])
    requires W.TextsAt(lines, 0, AllTexts(es)) && |AllTexts(es)| == |lines| && items == ItemsOf(es, 0)
    ensures Walk(lines, 0) == Some(items) && HoldsValues(WrittenKeys(lines, items), ValuesOf(items))
  {
    EntriesChain(es, 0);
    AllRead(es, lines, items);
    ItemsWalk(lines, items);
    ValuesRecorded(lines, items, 0);
  }

  lemma DocumentLines(es: seq<W.Entry>, crlf: bool)
    requires SoundDocument(es, crlf)
    ensures var lines := LinesFrom(WriteDocument(es, crlf), 0, 1);
            && Walk(lines, 0) == Some(ItemsOf(es, 0))
            && HoldsValues(WrittenKeys(lines, ItemsOf(es, 0)), ValuesOf(ItemsOf(es, 0)))
  {
    var input := WriteDocument(es, crlf);
    var lines := LinesFrom(input, 0, 1);
    assert input[0..] == input;
    WrittenLines(input, 0, 1, AllTexts(es), crlf);
    WrittenItems(es, lines, ItemsOf(es, 0));
  }

  /**
   * A written document parses if and only if its headings skip no depth and neither a section path nor a key path
   * is written twice.
   */
  lemma WrittenParsesIff(es: seq<W.Entry>, crlf: bool)
    requires SoundDocument(es, crlf)
    ensures Parse(WriteDocument(es, crlf)).Ok? <==>
            && Nested(es, []) && Distinct(SectionsWritten(es, [])) && Distinct(Firsts(KeysWritten(es, [])))
  {
    DocumentLines(es, crlf);
    ParsesIff(WriteDocument(es, crlf));
    OutlineIs(es);
  }

  lemma EntriesAre(keys: seq<DocumentKey>, entries: seq<(Path, Value)>, written: seq<(Path, Value)>)
    requires |keys| == |entries| && HoldsValues(KeysAsWritten(keys, entries), Seconds(written))
    requires Firsts(entries) == Firsts(written)
    ensures entries == written
  {
    forall i | 0 <= i < |entries| ensures entries[i] == written[i] {
      assert Firsts(entries)[i] == Firsts(written)[i];
      assert KeysAsWritten(keys, entries)[i].value == Seconds(written)[i];
    }
  }

  /**
   * And then its tree holds exactly the sections that were written, in order, and the keys with the values that were
   * written for them: bare or in quotes, listed or over several lines, with comments and blanks anywhere between.
   */
  lemma WrittenReadsBack(es: seq<W.Entry>, crlf: bool)
    requires SoundDocument(es, crlf) && Parse(WriteDocument(es, crlf)).Ok?
    ensures var d := Parse(WriteDocument(es, crlf)).value;
            && PathsOf(d.sections) == ChildSections(d.root.sections, []) == SectionsWritten(es, [])
            && KeyPathsOf(d.keys) == Firsts(KeysWritten(es, []))
            && Keys(d.root, []) == KeysWritten(es, [])
  {
    var input := WriteDocument(es, crlf);
    var d := Parse(input).value;
    DocumentLines(es, crlf);
    OutlineIs(es);
    PathsAreListed(input);
    DocumentAgrees(input);
    EverythingIsRecorded(input);
    ValuesAre(es, 0, []);
    EntriesAre(d.keys, Keys(d.root, []), KeysWritten(es, []));
  }

  predicate BreakAt(input: string, i: nat) {
    i + 1 < |input| && input[i] == '\r' && input[i + 1] == '\n'
  }

  lemma BreakOccurs(input: string, i: nat)
    requires BreakAt(input, i)
    ensures Find(input, "\r\n") >= 0
  {
    assert input[i..i + 2] == "\r\n";
    ConfigNotation.FindComplete(input, "\r\n", i);
  }

  lemma OccurrenceBreaks(input: string, k: nat)
    requires k + 2 <= |input| && input[k..k + 2] == "\r\n"
    ensures BreakAt(input, k)
  {
    assert input[k] == input[k..k + 2][0] && input[k + 1] == input[k..k + 2][1];
  }

  /** A document keeps the line breaks of its text: it uses CR LF exactly if the text has one anywhere. */
  lemma BreaksAreKept(input: string)
    requires Parse(input).Ok?
    ensures Parse(input).value.crlf <==> exists i: nat :: BreakAt(input, i)
  {
    forall i: nat | BreakAt(input, i) ensures Find(input, "\r\n") >= 0 {
      BreakOccurs(input, i);
    }
    if Find(input, "\r\n") >= 0 {
      OccurrenceBreaks(input, Find(input, "\r\n"));
    }
  }
}
