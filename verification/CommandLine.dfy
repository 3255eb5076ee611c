/**
 * The Windows command line a detached process is started with (`prns-ffi/src/detached_spawn.rs`),
 * against the rules published as "Parsing C command-line arguments" in the Microsoft C runtime
 * documentation.
 */
module CommandLine {
  import opened Sequences

  /** A UTF-16 code unit. */
  type Unit = n: int | 0 <= n < 0x1_0000

  const NUL: Unit := 0
  const TAB: Unit := 9
  const SPACE: Unit := 32
  const QUOTE: Unit := 34
  const BACKSLASH: Unit := 92

  predicate IsBlank(c: Unit) {
    c == SPACE || c == TAB
  }

  function Slashes(n: nat): (r: seq<Unit>)
    ensures |r| == n && forall i :: 0 <= i < n ==> r[i] == BACKSLASH
  {
    seq(n, _ => BACKSLASH)
  }

  // ----- printing

  predicate NeedsQuotes(argument: seq<Unit>) {
    argument == [] || exists c :: c in argument && (IsBlank(c) || c == QUOTE)
  }

  /** The inside of the quotes, after that many backslashes held back. */
  function Escaped(units: seq<Unit>, backslashes: nat): seq<Unit> {
    if units == [] then Slashes(backslashes * 2)
    else if units[0] == BACKSLASH then Escaped(units[1..], backslashes + 1)
    else Slashes(if units[0] == QUOTE then backslashes * 2 + 1 else backslashes) + [units[0]] + Escaped(units[1..], 0)
  }

  function Rendered(argument: seq<Unit>): seq<Unit> {
    if NeedsQuotes(argument) then [QUOTE] + Escaped(argument, 0) + [QUOTE] else argument
  }

  /** The arguments, each after a space. */
  function Listed(arguments: seq<seq<Unit>>): seq<Unit> {
    if arguments == [] then [] else [SPACE] + Rendered(arguments[0]) + Listed(arguments[1..])
  }

  method AppendArgument(line: seq<Unit>, argument: seq<Unit>) returns (extended: seq<Unit>)
    ensures extended == line + Rendered(argument)
  {
    if !NeedsQuotes(argument) {
      return line + argument;
    }
    extended := line + [QUOTE];
    var backslashes := 0;
    for i := 0 to |argument|
      invariant extended + Escaped(argument[i..], backslashes) == line + [QUOTE] + Escaped(argument, 0)
    {
      var unit := argument[i];
      assert argument[i..][1..] == argument[i + 1..];
      if unit == BACKSLASH {
        backslashes := backslashes + 1;
        continue;
      }
      var slashes := Slashes(if unit == QUOTE then backslashes * 2 + 1 else backslashes);
      RegroupFour(extended, slashes, [unit], Escaped(argument[i + 1..], 0));
      extended := extended + slashes;
      backslashes := 0;
      extended := extended + [unit];
    }
    extended := extended + Slashes(backslashes * 2);
    extended := extended + [QUOTE];
    RegroupFour(line, [QUOTE], Escaped(argument, 0), [QUOTE]);
  }

  method BuildCommandLine(binary: seq<Unit>, arguments: seq<seq<Unit>>) returns (line: seq<Unit>)
    ensures line == Rendered(binary) + Listed(arguments) + [0]
  {
    line := AppendArgument([], binary);
    for i := 0 to |arguments|
      invariant line + Listed(arguments[i..]) == Rendered(binary) + Listed(arguments)
    {
      assert arguments[i..][1..] == arguments[i + 1..];
      RegroupFour(line, [SPACE], Rendered(arguments[i]), Listed(arguments[i + 1..]));
      line := line + [SPACE];
      line := AppendArgument(line, arguments[i]);
    }
    assert line + [] == line;
    line := line + [NUL];
  }

  // ----- the published rules

  function LeadingSlashes(s: seq<Unit>): (n: nat)
    ensures n <= |s| && (n < |s| ==> s[n] != BACKSLASH) && forall i :: 0 <= i < n ==> s[i] == BACKSLASH
  {
    if s == [] || s[0] != BACKSLASH then 0 else 1 + LeadingSlashes(s[1..])
  }

  /**
   * One argument and what follows it. Backslashes are literal unless a quotation mark follows: then
   * each pair stands for one, and a spare one makes the mark literal. An unescaped mark opens or
   * closes a quoted part, except that two in a row inside a quoted part are one literal mark. Blanks
   * end the argument outside quoted parts only.
   */
  function ReadArgument(s: seq<Unit>, quoted: bool, current: seq<Unit>): (r: (seq<Unit>, seq<Unit>))
    ensures |r.1| <= |s|
    ensures s != [] && (quoted || !IsBlank(s[0])) ==> |r.1| < |s|
    decreases |s|
  {
    var n := LeadingSlashes(s);
    var after := s[n..];
    if after != [] && after[0] == QUOTE then
      if n % 2 == 1 then ReadArgument(after[1..], quoted, current + Slashes(n / 2) + [QUOTE])
      else if quoted && |after| > 1 && after[1] == QUOTE then
        ReadArgument(after[2..], quoted, current + Slashes(n / 2) + [QUOTE])
      else ReadArgument(after[1..], !quoted, current + Slashes(n / 2))
    else if n > 0 then ReadArgument(after, quoted, current + Slashes(n))
    else if s == [] || (!quoted && IsBlank(s[0])) then (current, s)
    else ReadArgument(s[1..], quoted, current + [s[0]])
  }

  /** The arguments after the program name. */
  function ReadArguments(s: seq<Unit>): seq<seq<Unit>>
    decreases |s|
  {
    if s == [] then []
    else if IsBlank(s[0]) then ReadArguments(s[1..])
    else
      var (argument, rest) := ReadArgument(s, false, []);
      [argument] + ReadArguments(rest)
  }

  /** The program name: marks open and close quoted parts, and backslashes mean nothing special. */
  function ReadName(s: seq<Unit>, quoted: bool, current: seq<Unit>): (r: (seq<Unit>, seq<Unit>))
    ensures |r.1| <= |s|
    decreases |s|
  {
    if s == [] || (!quoted && IsBlank(s[0])) then (current, s)
    else if s[0] == QUOTE then ReadName(s[1..], !quoted, current)
    else ReadName(s[1..], quoted, current + [s[0]])
  }

  /** A line is read up to its terminator. */
  function UpToNul(s: seq<Unit>): seq<Unit> {
    if s == [] || s[0] == NUL then [] else [s[0]] + UpToNul(s[1..])
  }

  /** The whole argument vector, the program name first. */
  function ReadLine(line: seq<Unit>): seq<seq<Unit>> {
    var (name, rest) := ReadName(UpToNul(line), false, []);
    [name] + ReadArguments(rest)
  }
}
