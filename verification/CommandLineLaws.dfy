/** Reading the printed command line by the published rules gives the arguments back. */
module CommandLineLaws {
  import opened CommandLine
  import opened Sequences

  /** What follows an argument on the line: nothing, or a blank. */
  predicate Separated(tail: seq<Unit>) {
    tail == [] || IsBlank(tail[0])
  }

  lemma {:induction false} CountSlashes(n: nat, tail: seq<Unit>)
    requires tail == [] || tail[0] != BACKSLASH
    ensures LeadingSlashes(Slashes(n) + tail) == n
    ensures (Slashes(n) + tail)[n..] == tail
  {
    if n > 0 {
      assert (Slashes(n) + tail)[1..] == Slashes(n - 1) + tail;
      CountSlashes(n - 1, tail);
    }
  }

  lemma MoreSlashes(current: seq<Unit>, n: nat, rest: seq<Unit>)
    ensures current + Slashes(n + 1) + rest == current + Slashes(n) + ([BACKSLASH] + rest)
  {
    assert Slashes(n + 1) == Slashes(n) + [BACKSLASH];
  }

  // ----- single steps of the reader

  type Reader = (seq<Unit>, bool, seq<Unit>) -> (seq<Unit>, seq<Unit>)

  /** An odd run of backslashes makes a quote literal. */
  predicate LiteralQuote(read: Reader, n: nat, tail: seq<Unit>, current: seq<Unit>) {
    read(Slashes(2 * n + 1) + ([QUOTE] + tail), true, current) == read(tail, true, current + Slashes(n) + [QUOTE])
  }

  /** An even run before a quote that no other quote follows closes the quoted part. */
  predicate ClosingQuote(read: Reader, n: nat, tail: seq<Unit>, current: seq<Unit>) {
    Separated(tail) ==>
      read(Slashes(2 * n) + ([QUOTE] + tail), true, current) == read(tail, false, current + Slashes(n))
  }

  /** Before anything else backslashes are literal. */
  predicate LiteralSlashes(read: Reader, n: nat, c: Unit, tail: seq<Unit>, quoted: bool, current: seq<Unit>) {
    c != QUOTE && c != BACKSLASH && (quoted || !IsBlank(c)) ==>
      read(Slashes(n) + ([c] + tail), quoted, current) == read(tail, quoted, current + Slashes(n) + [c])
  }

  /** A blank or the end, outside quoted parts, ends the argument. */
  predicate Ends(read: Reader, n: nat, tail: seq<Unit>, current: seq<Unit>) {
    Separated(tail) ==> read(Slashes(n) + tail, false, current) == (current + Slashes(n), tail)
  }

  ghost predicate Rules(read: Reader) {
    && (forall n, tail, current :: LiteralQuote(read, n, tail, current))
    && (forall n, tail, current :: ClosingQuote(read, n, tail, current))
    && (forall n, c, tail, quoted, current :: LiteralSlashes(read, n, c, tail, quoted, current))
    && (forall n, tail, current :: Ends(read, n, tail, current))
  }

  lemma LiteralQuoteRule(n: nat, tail: seq<Unit>, current: seq<Unit>)
    ensures LiteralQuote(ReadArgument, n, tail, current)
  {
    var s := Slashes(2 * n + 1) + ([QUOTE] + tail);
    CountSlashes(2 * n + 1, [QUOTE] + tail);
    assert LeadingSlashes(s) == 2 * n + 1 && s[2 * n + 1..] == [QUOTE] + tail;
    assert (2 * n + 1) % 2 == 1 && (2 * n + 1) / 2 == n && ([QUOTE] + tail)[1..] == tail;
  }

  lemma ClosingQuoteRule(n: nat, tail: seq<Unit>, current: seq<Unit>)
    ensures ClosingQuote(ReadArgument, n, tail, current)
  {
    var s := Slashes(2 * n) + ([QUOTE] + tail);
    CountSlashes(2 * n, [QUOTE] + tail);
    assert LeadingSlashes(s) == 2 * n && s[2 * n..] == [QUOTE] + tail;
    assert 2 * n % 2 == 0 && 2 * n / 2 == n && ([QUOTE] + tail)[1..] == tail;
  }

  lemma LiteralSlashesRule(n: nat, c: Unit, tail: seq<Unit>, quoted: bool, current: seq<Unit>)
    ensures LiteralSlashes(ReadArgument, n, c, tail, quoted, current)
  {
    if c != BACKSLASH {
      CountSlashes(n, [c] + tail);
      CountSlashes(0, [c] + tail);
      assert Slashes(0) + ([c] + tail) == [c] + tail && ([c] + tail)[1..] == tail;
      assert n == 0 ==> current + Slashes(n) == current;
    }
  }

  lemma EndsRule(n: nat, tail: seq<Unit>, current: seq<Unit>)
    ensures Ends(ReadArgument, n, tail, current)
  {
    if Separated(tail) {
      CountSlashes(n, tail);
      CountSlashes(0, tail);
      assert Slashes(0) + tail == tail;
      assert n == 0 ==> current + Slashes(n) == current;
    }
  }

  lemma ReaderRules()
    ensures Rules(ReadArgument)
  {
    forall n: nat, tail, current ensures LiteralQuote(ReadArgument, n, tail, current) {
      LiteralQuoteRule(n, tail, current);
    }
    forall n: nat, tail, current ensures ClosingQuote(ReadArgument, n, tail, current) {
      ClosingQuoteRule(n, tail, current);
    }
    forall n: nat, c, tail, quoted, current ensures LiteralSlashes(ReadArgument, n, c, tail, quoted, current) {
      LiteralSlashesRule(n, c, tail, quoted, current);
    }
    forall n: nat, tail, current ensures Ends(ReadArgument, n, tail, current) {
      EndsRule(n, tail, current);
    }
  }

  // ----- quoted and bare arguments

  lemma Rejoin(current: seq<Unit>, slashes: seq<Unit>, c: Unit, rest: seq<Unit>)
    ensures current + slashes + [c] + Slashes(0) + rest == current + slashes + ([c] + rest)
  {
  }

  /** Between the quotes every argument reads back, whatever backslashes it holds and ends in. */
  lemma {:induction false} InsideQuotes(read: Reader, units: seq<Unit>, n: nat, current: seq<Unit>, tail: seq<Unit>)
    requires Rules(read) && Separated(tail)
    ensures read(Escaped(units, n) + ([QUOTE] + tail), true, current) == read(tail, false, current + Slashes(n) + units)
    decreases |units|
  {
    if units == [] {
      assert ClosingQuote(read, n, tail, current);
      assert current + Slashes(n) + [] == current + Slashes(n);
    } else {
      var c, rest := units[0], units[1..];
      assert units == [c] + rest;
      if c == BACKSLASH {
        InsideQuotes(read, rest, n + 1, current, tail);
        MoreSlashes(current, n, rest);
      } else {
        var after := Escaped(rest, 0) + ([QUOTE] + tail);
        RegroupFour(Slashes(if c == QUOTE then n * 2 + 1 else n), [c], Escaped(rest, 0), [QUOTE] + tail);
        assert LiteralQuote(read, n, after, current);
        assert LiteralSlashes(read, n, c, after, true, current);
        InsideQuotes(read, rest, 0, current + Slashes(n) + [c], tail);
        Rejoin(current, Slashes(n), c, rest);
      }
    }
  }

  predicate IsBare(argument: seq<Unit>) {
    forall i :: 0 <= i < |argument| ==> !IsBlank(argument[i]) && argument[i] != QUOTE
  }

  /** Without blanks or quotes an argument is read as it stands. */
  lemma {:induction false} Bare(read: Reader, argument: seq<Unit>, n: nat, current: seq<Unit>, tail: seq<Unit>)
    requires Rules(read) && Separated(tail) && IsBare(argument)
    ensures read(Slashes(n) + (argument + tail), false, current) == (current + Slashes(n) + argument, tail)
    decreases |argument|
  {
    if argument == [] {
      assert Ends(read, n, tail, current);
      assert argument + tail == tail && current + Slashes(n) + argument == current + Slashes(n);
    } else {
      var c, rest := argument[0], argument[1..];
      assert argument == [c] + rest && argument + tail == [c] + (rest + tail);
      if c == BACKSLASH {
        Bare(read, rest, n + 1, current, tail);
        MoreSlashes([], n, rest + tail);
        assert [] + Slashes(n + 1) + (rest + tail) == Slashes(n + 1) + (rest + tail);
        assert [] + Slashes(n) + ([BACKSLASH] + (rest + tail)) == Slashes(n) + ([BACKSLASH] + (rest + tail));
        MoreSlashes(current, n, rest);
      } else {
        assert LiteralSlashes(read, n, c, rest + tail, false, current);
        Bare(read, rest, 0, current + Slashes(n) + [c], tail);
        assert Slashes(0) + (rest + tail) == rest + tail;
        Rejoin(current, Slashes(n), c, rest);
      }
    }
  }

  lemma OpeningQuote(inside: seq<Unit>)
    ensures ReadArgument([QUOTE] + inside, false, []) == ReadArgument(inside, true, [])
  {
    CountSlashes(0, [QUOTE] + inside);
    assert Slashes(0) + ([QUOTE] + inside) == [QUOTE] + inside && ([QUOTE] + inside)[1..] == inside;
    assert [] + Slashes(0) == [];
  }

  lemma QuotedReadsBack(read: Reader, argument: seq<Unit>, tail: seq<Unit>)
    requires Rules(read) && Separated(tail)
    ensures read(Escaped(argument, 0) + ([QUOTE] + tail), true, []) == (argument, tail)
  {
    InsideQuotes(read, argument, 0, [], tail);
    assert [] + Slashes(0) + argument == argument;
    assert Ends(read, 0, tail, argument);
    assert Slashes(0) + tail == tail && argument + Slashes(0) == argument;
  }

  lemma BareReadsBack(read: Reader, argument: seq<Unit>, tail: seq<Unit>)
    requires Rules(read) && Separated(tail) && IsBare(argument)
    ensures read(argument + tail, false, []) == (argument, tail)
  {
    Bare(read, argument, 0, [], tail);
    assert Slashes(0) + (argument + tail) == argument + tail && [] + Slashes(0) + argument == argument;
  }

  lemma RenderedReadsBack(argument: seq<Unit>, tail: seq<Unit>)
    requires Separated(tail)
    ensures ReadArgument(Rendered(argument) + tail, false, []) == (argument, tail)
  {
    ReaderRules();
    if NeedsQuotes(argument) {
      var inside := Escaped(argument, 0) + ([QUOTE] + tail);
      assert Rendered(argument) + tail == [QUOTE] + inside;
      OpeningQuote(inside);
      QuotedReadsBack(ReadArgument, argument, tail);
    } else {
      BareReadsBack(ReadArgument, argument, tail);
    }
  }

  lemma RenderedStarts(argument: seq<Unit>, tail: seq<Unit>)
    ensures var s := Rendered(argument) + tail; s != [] && !IsBlank(s[0])
  {
    if !NeedsQuotes(argument) {
      assert argument[0] in argument;
    }
  }

  lemma ListedSeparated(arguments: seq<seq<Unit>>)
    ensures Separated(Listed(arguments))
  {
  }

  /** Every list of arguments reads back: empty ones, embedded quotes and trailing backslashes included. */
  lemma {:induction false} ArgumentsReadBack(arguments: seq<seq<Unit>>)
    ensures ReadArguments(Listed(arguments)) == arguments
  {
    if arguments != [] {
      var tail := Listed(arguments[1..]);
      var s := Rendered(arguments[0]) + tail;
      assert Listed(arguments) == [SPACE] + s && ([SPACE] + s)[1..] == s;
      ListedSeparated(arguments[1..]);
      RenderedStarts(arguments[0], tail);
      RenderedReadsBack(arguments[0], tail);
      ArgumentsReadBack(arguments[1..]);
    }
  }

  // ----- the program name

  /** The backslashes an argument's closing quote doubles, given those held back before it. */
  function Doubled(units: seq<Unit>, held: nat): nat {
    if units == [] then held else Doubled(units[1..], if units[0] == BACKSLASH then held + 1 else 0)
  }

  lemma {:induction false} EscapedWithoutQuotes(units: seq<Unit>, held: nat)
    requires QUOTE !in units
    ensures Escaped(units, held) == Slashes(held) + units + Slashes(Doubled(units, held))
    decreases |units|
  {
    if units == [] {
      assert Slashes(held * 2) == Slashes(held) + [] + Slashes(held);
    } else if units[0] == BACKSLASH {
      var rest := units[1..];
      EscapedWithoutQuotes(rest, held + 1);
      MoreSlashes([], held, rest + Slashes(Doubled(rest, held + 1)));
      assert units == [BACKSLASH] + rest;
    } else {
      EscapedWithoutQuotes(units[1..], 0);
    }
  }

  lemma {:induction false} DoubledNothing(units: seq<Unit>, held: nat)
    ensures Doubled(units, held) == 0 <==> if units == [] then held == 0 else units[|units| - 1] != BACKSLASH
    decreases |units|
  {
    if units != [] {
      DoubledNothing(units[1..], if units[0] == BACKSLASH then held + 1 else 0);
    }
  }

  lemma {:induction false} NameSpan(units: seq<Unit>, quoted: bool, current: seq<Unit>, tail: seq<Unit>)
    requires QUOTE !in units && (quoted || forall c :: c in units ==> !IsBlank(c))
    ensures ReadName(units + tail, quoted, current) == ReadName(tail, quoted, current + units)
    decreases |units|
  {
    if units == [] {
      assert units + tail == tail && current + units == current;
    } else {
      assert units[0] in units;
      assert (units + tail)[1..] == units[1..] + tail;
      NameSpan(units[1..], quoted, current + [units[0]], tail);
      assert current + [units[0]] + units[1..] == current + units;
    }
  }

  lemma {:induction false} NameHasNoQuote(s: seq<Unit>, quoted: bool, current: seq<Unit>)
    requires QUOTE !in current
    ensures QUOTE !in ReadName(s, quoted, current).0
    decreases |s|
  {
    if s != [] && (quoted || !IsBlank(s[0])) {
      NameHasNoQuote(s[1..], if s[0] == QUOTE then !quoted else quoted,
                     if s[0] == QUOTE then current else current + [s[0]]);
    }
  }

  /** The program name reads back: no quotation mark, and no backslash before the closing one. */
  predicate NameSurvives(binary: seq<Unit>) {
    QUOTE !in binary && (NeedsQuotes(binary) && binary != [] ==> binary[|binary| - 1] != BACKSLASH)
  }

  lemma QuotedNameReads(binary: seq<Unit>, tail: seq<Unit>)
    requires QUOTE !in binary && NeedsQuotes(binary) && Separated(tail)
    ensures ReadName(Rendered(binary) + tail, false, []) == (binary + Slashes(Doubled(binary, 0)), tail)
  {
    var inside := binary + Slashes(Doubled(binary, 0));
    EscapedWithoutQuotes(binary, 0);
    assert Escaped(binary, 0) == inside;
    assert Rendered(binary) + tail == [QUOTE] + (inside + ([QUOTE] + tail));
    assert ([QUOTE] + (inside + ([QUOTE] + tail)))[1..] == inside + ([QUOTE] + tail);
    NameSpan(inside, true, [], [QUOTE] + tail);
    assert [] + inside == inside && ([QUOTE] + tail)[1..] == tail;
  }

  lemma NameReadsBackIff(binary: seq<Unit>, tail: seq<Unit>)
    requires Separated(tail)
    ensures ReadName(Rendered(binary) + tail, false, []).0 == binary <==> NameSurvives(binary)
    ensures NameSurvives(binary) ==> ReadName(Rendered(binary) + tail, false, []).1 == tail
  {
    if QUOTE in binary {
      NameHasNoQuote(Rendered(binary) + tail, false, []);
    } else if NeedsQuotes(binary) {
      QuotedNameReads(binary, tail);
      DoubledNothing(binary, 0);
      assert |binary + Slashes(Doubled(binary, 0))| == |binary| + Doubled(binary, 0);
      assert Doubled(binary, 0) == 0 ==> binary + Slashes(0) == binary;
    } else {
      NameSpan(binary, false, [], tail);
      assert [] + binary == binary;
    }
  }

  // ----- the whole line

  lemma {:induction false} CutAtNul(s: seq<Unit>)
    requires NUL !in s
    ensures UpToNul(s + [NUL]) == s
  {
    if s != [] {
      assert (s + [NUL])[1..] == s[1..] + [NUL];
      CutAtNul(s[1..]);
    }
  }

  lemma {:induction false} EscapedFreeOfNul(units: seq<Unit>, held: nat)
    requires NUL !in units
    ensures NUL !in Escaped(units, held)
    decreases |units|
  {
    if units != [] {
      EscapedFreeOfNul(units[1..], if units[0] == BACKSLASH then held + 1 else 0);
    }
  }

  lemma {:induction false} ListedFreeOfNul(arguments: seq<seq<Unit>>)
    requires forall a :: a in arguments ==> NUL !in a
    ensures NUL !in Listed(arguments)
  {
    if arguments != [] {
      assert arguments[0] in arguments;
      EscapedFreeOfNul(arguments[0], 0);
      ListedFreeOfNul(arguments[1..]);
    }
  }

  /**
   * The started process sees exactly this program name and these arguments, if and only if the name
   * survives its own, simpler rules.
   */
  lemma LineReadsBackIff(binary: seq<Unit>, arguments: seq<seq<Unit>>)
    requires NUL !in binary && forall a :: a in arguments ==> NUL !in a
    ensures ReadLine(Rendered(binary) + Listed(arguments) + [NUL]) == [binary] + arguments <==> NameSurvives(binary)
  {
    var tail := Listed(arguments);
    EscapedFreeOfNul(binary, 0);
    ListedFreeOfNul(arguments);
    CutAtNul(Rendered(binary) + tail);
    ListedSeparated(arguments);
    NameReadsBackIff(binary, tail);
    ArgumentsReadBack(arguments);
    assert ReadLine(Rendered(binary) + tail + [NUL])[0] == ReadName(Rendered(binary) + tail, false, []).0;
  }

  /** A path with a blank that ends in a backslash reads back with one backslash too many. */
  lemma TrailingBackslashGrows()
    ensures var path: seq<Unit> := [97, SPACE, 98, BACKSLASH];
            ReadLine(Rendered(path) + Listed([]) + [NUL]) == [path + [BACKSLASH]]
  {
    var path: seq<Unit> := [97, SPACE, 98, BACKSLASH];
    assert path[1] == SPACE && path[1..] == [SPACE, 98, BACKSLASH] && path[1..][1..] == [98, BACKSLASH];
    assert Doubled([BACKSLASH], 0) == Doubled([], 1) == 1 && [98, BACKSLASH][1..] == [BACKSLASH];
    assert Doubled([98, BACKSLASH], 0) == 1;
    assert Doubled(path, 0) == 1 && Slashes(1) == [BACKSLASH];
    EscapedFreeOfNul(path, 0);
    CutAtNul(Rendered(path) + []);
    assert path[1] in path && IsBlank(path[1]) && QUOTE !in path;
    QuotedNameReads(path, []);
  }

  /** A path with a quotation mark never reads back. */
  lemma QuotationMarkIsDropped()
    ensures var path: seq<Unit> := [97, QUOTE];
            QUOTE !in ReadLine(Rendered(path) + Listed([]) + [NUL])[0] && QUOTE in path
  {
    var path: seq<Unit> := [97, QUOTE];
    assert path[1] == QUOTE;
    EscapedFreeOfNul(path, 0);
    CutAtNul(Rendered(path) + []);
    NameHasNoQuote(Rendered(path) + [], false, []);
  }

  // ----- what is printed

  lemma {:induction false} EscapedIsLonger(units: seq<Unit>, backslashes: nat)
    ensures |Escaped(units, backslashes)| >= |units| + backslashes
    decreases |units|
  {
    if units != [] {
      EscapedIsLonger(units[1..], if units[0] == BACKSLASH then backslashes + 1 else 0);
    }
  }

  /** An argument is passed as it is exactly when it is not empty and holds no tab, space or quotation mark. */
  lemma PassedAsIsIff(argument: seq<Unit>)
    ensures Rendered(argument) == argument <==>
            && argument != []
            && forall i :: 0 <= i < |argument| ==> argument[i] != 9 && argument[i] != 32 && argument[i] != 34
  {
    EscapedIsLonger(argument, 0);
    if NeedsQuotes(argument) {
      assert |Rendered(argument)| > |argument|;
      if argument != [] {
        var c :| c in argument && (IsBlank(c) || c == QUOTE);
        var i :| 0 <= i < |argument| && argument[i] == c;
      }
    } else {
      forall i | 0 <= i < |argument| ensures argument[i] != 9 && argument[i] != 32 && argument[i] != 34 {
        assert argument[i] in argument;
      }
    }
  }

  lemma EscapedStep(units: seq<Unit>, rest: seq<Unit>, backslashes: nat)
    requires units != [] && units[1..] == rest
    ensures units[0] == 92 ==> Escaped(units, backslashes) == Escaped(rest, backslashes + 1)
    ensures units[0] != 92 && units[0] != 34 && backslashes == 0 ==> Escaped(units, 0) == [units[0]] + Escaped(rest, 0)
    ensures units[0] == 34 && backslashes == 1 ==> Escaped(units, 1) == [92, 92, 92, 34] + Escaped(rest, 0)
  {
    assert Slashes(3) == [BACKSLASH, BACKSLASH, BACKSLASH];
  }

  lemma EscapedPath()
    ensures Escaped([97, 32, 92], 0) == [97, 32, 92, 92]
  {
    EscapedStep([97, 32, 92], [32, 92], 0);
    EscapedStep([32, 92], [92], 0);
    EscapedStep([92], [], 0);
    assert Slashes(2) == [BACKSLASH, BACKSLASH];
  }

  lemma EscapedMark()
    ensures Escaped([92, 34], 0) == [92, 92, 92, 34]
  {
    EscapedStep([92, 34], [34], 0);
    EscapedStep([34], [], 1);
  }

  lemma ListedFirst(argument: seq<Unit>, inside: seq<Unit>, rest: seq<seq<Unit>>)
    requires NeedsQuotes(argument) && Escaped(argument, 0) == inside
    ensures Listed([argument] + rest) == [32, 34] + inside + [34] + Listed(rest)
  {
    assert ([argument] + rest)[1..] == rest;
  }

  lemma ListedTwo(a: seq<Unit>, inA: seq<Unit>, b: seq<Unit>, inB: seq<Unit>)
    requires NeedsQuotes(a) && Escaped(a, 0) == inA && NeedsQuotes(b) && Escaped(b, 0) == inB
    ensures Listed([a, b]) == [32, 34] + inA + [34] + ([32, 34] + inB + [34])
  {
    ListedFirst(b, inB, []);
    ListedFirst(a, inA, [b]);
    assert [a] + [b] == [a, b] && [b] + [] == [b];
  }

  /** A path with a blank and a backslash at its end, then a backslash before a quotation mark. */
  lemma PrintedExample(path: seq<Unit>, mark: seq<Unit>)
    requires path == [97, 32, 92] && mark == [92, 34]
    ensures Listed([path, mark]) == [32, 34, 97, 32, 92, 92, 34, 32, 34, 92, 92, 92, 34, 34]
  {
    EscapedPath();
    EscapedMark();
    assert path[1] in path && mark[1] in mark;
    ListedTwo(path, [97, 32, 92, 92], mark, [92, 92, 92, 34]);
  }
}
