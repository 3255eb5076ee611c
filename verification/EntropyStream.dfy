/**
 * When a fill may be split, and when failed attempts do not show: for ciphers that hand out whole words, as
 * `ChaCha20Rng` does (`prns-core/src/entropy.rs`).
 */
module EntropyStream {
  import opened Sequences
  import opened Bytes
  import opened Entropy
  import opened EntropyLaws

  /** A word-based block generator drops the rest of a partly used word, so it splits at words only. */
  const WORD := 4

  predicate SplitsAt<G(==)>(lib: Library<G>, g: G, a: nat, b: nat) {
    && lib.output(g, a + b) == lib.output(g, a) + lib.output(lib.advance(g, a), b)
    && lib.advance(g, a + b) == lib.advance(lib.advance(g, a), b)
  }

  ghost predicate SplitsAtWords<G(!new)>(lib: Library<G>) {
    && (forall g, a: nat, b: nat :: a % WORD == 0 ==> SplitsAt(lib, g, a, b))
    && (forall g :: lib.output(g, 0) == [] && lib.advance(g, 0) == g)
  }

  /** The first `a` bytes end on a word of the window they end in. */
  predicate EndsOnWord(budget: nat, a: nat) {
    (if a < budget then a else a - budget) % WORD == 0
  }

  ghost predicate SameStream<G>(s: State<G>, t: State<G>) {
    s == t.(log := s.log)
  }

  // The proofs below speak of any fill that proceeds chunk by chunk, and of what its chunks are like.

  datatype Chunk<+G> = Chunk(state: State<G>, bytes: seq<Byte>, size: nat)

  type Fill<!G> = (State<G>, nat) -> (State<G>, seq<Byte>)

  type Turn<!G> = (State<G>, nat) -> Chunk<G>

  function Turned<G>(lib: Library<G>, s: State<G>, n: nat): Chunk<G> {
    var t := Refreshed(lib, s);
    var size := Least(n, t.budget);
    Chunk(Emitted(lib, t, size), lib.output(t.csprng, size), size)
  }

  function Turning<G>(lib: Library<G>): Turn<G> {
    (s: State<G>, n: nat) => Turned(lib, s, n)
  }

  function Filling<G>(lib: Library<G>): Fill<G> {
    (s: State<G>, n: nat) => Filled(lib, s, n)
  }

  /** What the next chunk may use up. */
  function Window<G>(s: State<G>): nat {
    if s.budget > 0 then s.budget else INTERVAL
  }

  ghost predicate UnfoldsAt<G>(fill: Fill<G>, turn: Turn<G>, s: State<G>, n: nat) {
    if n == 0 then fill(s, n) == (s, [])
    else
      var c := turn(s, n);
      && c.size == Least(n, Window(s)) && c.state.budget == Window(s) - c.size
      && fill(s, n) == (fill(c.state, n - c.size).0, c.bytes + fill(c.state, n - c.size).1)
  }

  /** The log makes no difference to a chunk. */
  ghost predicate BlindAt<G>(turn: Turn<G>, s: State<G>, t: State<G>, n: nat) {
    SameStream(s, t) ==>
      turn(s, n) == turn(t, n).(state := turn(s, n).state) && SameStream(turn(s, n).state, turn(t, n).state)
  }

  /** A chunk that uses up its window does not depend on what is wanted after it. */
  ghost predicate LongAt<G>(turn: Turn<G>, s: State<G>, a: nat, b: nat) {
    a >= Window(s) ==> turn(s, a + b) == turn(s, a)
  }

  /** A chunk may be taken in two where the first ends on a word. */
  ghost predicate ShortAt<G>(turn: Turn<G>, s: State<G>, a: nat, b: nat) {
    0 < a < Window(s) && a % WORD == 0 && b > 0 ==>
      var first, whole := turn(s, a), turn(s, a + b);
      var second := turn(first.state, b);
      && whole.size == a + second.size && whole.bytes == first.bytes + second.bytes
      && SameStream(whole.state, second.state)
  }

  ghost predicate Proceeds<G(!new)>(fill: Fill<G>, turn: Turn<G>) {
    forall s, n :: UnfoldsAt(fill, turn, s, n)
  }

  ghost predicate SplitsCleanly<G(!new)>(turn: Turn<G>) {
    && (forall s, t, n :: BlindAt(turn, s, t, n))
    && (forall s, a, b :: LongAt(turn, s, a, b))
    && (forall s, a, b :: ShortAt(turn, s, a, b))
  }

  lemma {:induction false} FillIgnoresLog<G(!new)>(fill: Fill<G>, turn: Turn<G>, s: State<G>, t: State<G>, n: nat)
    requires Proceeds(fill, turn) && SplitsCleanly(turn) && SameStream(s, t)
    ensures SameStream(fill(s, n).0, fill(t, n).0) && fill(s, n).1 == fill(t, n).1
    decreases n
  {
    assert UnfoldsAt(fill, turn, s, n) && UnfoldsAt(fill, turn, t, n);
    if n > 0 {
      assert BlindAt(turn, s, t, n);
      FillIgnoresLog(fill, turn, turn(s, n).state, turn(t, n).state, n - turn(s, n).size);
    }
  }

  /** A whole fill is its first part and then a fill of `b` bytes: the same bytes, the same stream left. */
  ghost predicate SplitAt<G>(fill: Fill<G>, s: State<G>, a: nat, b: nat) {
    var (whole, bytes) := fill(s, a + b);
    var (first, left) := fill(s, a);
    var (split, right) := fill(first, b);
    SameStream(whole, split) && bytes == left + right
  }

  lemma SplitInsideWindow<G(!new)>(fill: Fill<G>, turn: Turn<G>, s: State<G>, a: nat, b: nat)
    requires Proceeds(fill, turn) && SplitsCleanly(turn) && 0 < a < Window(s) && a % WORD == 0 && b > 0
    ensures SplitAt(fill, s, a, b)
  {
    var first, whole := turn(s, a), turn(s, a + b);
    var second := turn(first.state, b);
    assert UnfoldsAt(fill, turn, s, a) && UnfoldsAt(fill, turn, s, a + b) && UnfoldsAt(fill, turn, first.state, b);
    assert UnfoldsAt(fill, turn, first.state, 0) && first.bytes + [] == first.bytes;
    assert ShortAt(turn, s, a, b);
    FillIgnoresLog(fill, turn, whole.state, second.state, b - second.size);
    Regroup(first.bytes, second.bytes, fill(second.state, b - second.size).1);
  }

  lemma SplitAfterWindow<G(!new)>(fill: Fill<G>, turn: Turn<G>, s: State<G>, a: nat, b: nat)
    requires Proceeds(fill, turn) && SplitsCleanly(turn) && a >= Window(s)
    requires SplitAt(fill, turn(s, a).state, a - Window(s), b)
    ensures SplitAt(fill, s, a, b)
  {
    var c := turn(s, a);
    assert UnfoldsAt(fill, turn, s, a) && UnfoldsAt(fill, turn, s, a + b) && LongAt(turn, s, a, b);
    var (first, left) := fill(c.state, a - c.size);
    Regroup(c.bytes, left, fill(first, b).1);
  }

  lemma {:induction false} AnyFillSplits<G(!new)>(fill: Fill<G>, turn: Turn<G>, s: State<G>, a: nat, b: nat)
    requires Proceeds(fill, turn) && SplitsCleanly(turn) && EndsOnWord(s.budget, a) && b > 0
    ensures SplitAt(fill, s, a, b)
    decreases a
  {
    assert UnfoldsAt(fill, turn, s, a) && UnfoldsAt(fill, turn, s, 0);
    WindowsAreWords(s.budget, a);
    if a == 0 {
      assert [] + fill(s, b).1 == fill(s, b).1;
    } else if a < Window(s) {
      SplitInsideWindow(fill, turn, s, a, b);
    } else {
      AnyFillSplits(fill, turn, turn(s, a).state, a - Window(s), b);
      SplitAfterWindow(fill, turn, s, a, b);
    }
  }

  /** Where the words of a window lie does not depend on the windows before it. */
  lemma WindowsAreWords(budget: nat, a: nat)
    requires EndsOnWord(budget, a)
    ensures 0 < budget <= a ==> EndsOnWord(0, a - budget)
    ensures budget == 0 && a >= INTERVAL ==> EndsOnWord(0, a - INTERVAL)
    ensures a < budget || budget == 0 ==> a % WORD == 0
  {
    assert INTERVAL % WORD == 0;
  }

  lemma ChunkSplits<G(!new)>(lib: Library<G>, s: State<G>, a: nat, b: nat)
    requires SplitsAtWords(lib)
    ensures ShortAt(Turning(lib), s, a, b)
  {
    if 0 < a < Window(s) && a % WORD == 0 && b > 0 {
      var t := Refreshed(lib, s);
      var second := Least(b, t.budget - a);
      assert SplitsAt(lib, t.csprng, a, second);
      assert Least(a + b, t.budget) == a + second && Refreshed(lib, Emitted(lib, t, a)) == Emitted(lib, t, a);
    }
  }

  lemma FillProceeds<G(!new)>(lib: Library<G>)
    ensures Proceeds(Filling(lib), Turning(lib))
  {
    forall s, n: nat ensures UnfoldsAt(Filling(lib), Turning(lib), s, n) {
    }
  }

  lemma ChunksSplitCleanly<G(!new)>(lib: Library<G>)
    requires SplitsAtWords(lib)
    ensures SplitsCleanly(Turning(lib))
  {
    var turn := Turning(lib);
    forall s, t, n: nat ensures BlindAt(turn, s, t, n) {
    }
    forall s, a: nat, b: nat ensures LongAt(turn, s, a, b) {
    }
    forall s, a: nat, b: nat ensures ShortAt(turn, s, a, b) {
      ChunkSplits(lib, s, a, b);
    }
  }

  lemma SplitAtEnd<G(!new)>(fill: Fill<G>, turn: Turn<G>, s: State<G>, a: nat)
    requires Proceeds(fill, turn)
    ensures SplitAt(fill, s, a, 0)
  {
    assert UnfoldsAt(fill, turn, fill(s, a).0, 0);
    assert fill(s, a).1 + [] == fill(s, a).1;
  }

  /**
   * For such a cipher a fill may be split where the first part ends on a word, and anywhere if the second
   * is empty: neither the bytes nor the stream that remains change.
   */
  lemma FillSplits<G(!new)>(lib: Library<G>, s: State<G>, a: nat, b: nat)
    requires SplitsAtWords(lib) && (b == 0 || EndsOnWord(s.budget, a))
    ensures SplitAt(Filling(lib), s, a, b)
  {
    FillProceeds(lib);
    if b == 0 {
      SplitAtEnd(Filling(lib), Turning(lib), s, a);
    } else {
      ChunksSplitCleanly(lib);
      AnyFillSplits(Filling(lib), Turning(lib), s, a, b);
    }
  }

  predicate AllFail(source: Source, from: nat, attempts: nat) {
    forall k :: from <= k < from + attempts ==> source(k).None?
  }

  /** The attempts of a fill all fail, and the first window holds whole words or is not left. */
  predicate Deferring<G>(s: State<G>, n: nat) {
    && s.budget <= INTERVAL && AllFail(s.source, s.calls, Attempts(n, s.budget))
    && (n <= s.budget || s.budget % WORD == 0)
  }

  /** Then a chunk goes on with the cipher as it is, and so does the rest. */
  ghost predicate ContinuesAt<G>(turn: Turn<G>, lib: Library<G>, s: State<G>, n: nat) {
    n > 0 && Deferring(s, n) ==>
      var c := turn(s, n);
      && c.bytes == lib.output(s.csprng, c.size) && c.state.csprng == lib.advance(s.csprng, c.size)
      && (c.size < n ==> c.size % WORD == 0 && Deferring(c.state, n - c.size))
  }

  lemma ChunkContinues<G>(lib: Library<G>, s: State<G>, n: nat)
    ensures ContinuesAt(Turning(lib), lib, s, n)
  {
    if n > 0 && Deferring(s, n) {
      ChunkSchedule(lib, s, n);
      assert INTERVAL % WORD == 0;
    }
  }

  lemma {:induction false} AnyFillContinues<G(!new)>(fill: Fill<G>, turn: Turn<G>, lib: Library<G>, s: State<G>, n: nat)
    requires Proceeds(fill, turn) && SplitsAtWords(lib) && forall s, n :: ContinuesAt(turn, lib, s, n)
    requires Deferring(s, n)
    ensures fill(s, n).1 == lib.output(s.csprng, n) && fill(s, n).0.csprng == lib.advance(s.csprng, n)
    decreases n
  {
    assert UnfoldsAt(fill, turn, s, n);
    if n > 0 {
      var c := turn(s, n);
      assert ContinuesAt(turn, lib, s, n);
      if c.size < n {
        AnyFillContinues(fill, turn, lib, c.state, n - c.size);
        assert SplitsAt(lib, s.csprng, c.size, n - c.size);
      } else {
        assert UnfoldsAt(fill, turn, c.state, 0) && c.bytes + [] == c.bytes;
      }
    }
  }

  /** While every attempt fails, the bytes are those of the one cipher stream, uninterrupted. */
  lemma DeferredStreamContinues<G(!new)>(lib: Library<G>, s: State<G>, n: nat)
    requires SplitsAtWords(lib) && Deferring(s, n)
    ensures Filled(lib, s, n).1 == lib.output(s.csprng, n) && Filled(lib, s, n).0.csprng == lib.advance(s.csprng, n)
  {
    FillProceeds(lib);
    forall s, n: nat ensures ContinuesAt(Turning(lib), lib, s, n) {
      ChunkContinues(lib, s, n);
    }
    AnyFillContinues(Filling(lib), Turning(lib), lib, s, n);
  }

  // ----- the ciphers that do: a keystream of words for every seed

  type Keystream = (seq<Byte>, nat) -> seq<Byte>

  type Derivation = (seq<Byte>, seq<Byte>) -> seq<Byte>

  /** The seed in use and the next unused word of its keystream. */
  datatype Position = Position(seed: seq<Byte>, word: nat)

  function ByteAt(words: Keystream, p: Position, i: nat): Byte {
    var word := words(p.seed, p.word + i / WORD);
    if i % WORD < |word| then word[i % WORD] else 0
  }

  function Read(words: Keystream, p: Position, n: nat): (r: seq<Byte>)
    ensures |r| == n
  {
    seq(n, i requires 0 <= i < n => ByteAt(words, p, i))
  }

  function Skip(p: Position, n: nat): Position {
    p.(word := p.word + (n + WORD - 1) / WORD)
  }

  /** Reads the seed's keystream from its first word on; what is left of the last word used is skipped. */
  function WordCipher(words: Keystream, derive: Derivation): Library<Position> {
    Library(
      (seed: seq<Byte>) => Position(seed, 0),
      (p: Position, n: nat) => Read(words, p, n),
      (p: Position, n: nat) => Skip(p, n),
      derive)
  }

  lemma SkipSplits(p: Position, a: nat, b: nat)
    requires a % WORD == 0
    ensures Skip(p, a + b) == Skip(Skip(p, a), b) && Skip(p, a) == p.(word := p.word + a / WORD)
  {
  }

  lemma WordsApart(a: nat, i: nat)
    requires a % WORD == 0
    ensures (a + i) / WORD == a / WORD + i / WORD && (a + i) % WORD == i % WORD
  {
  }

  lemma ReadSplits(words: Keystream, p: Position, a: nat, b: nat)
    requires a % WORD == 0
    ensures Read(words, p, a + b) == Read(words, p, a) + Read(words, Skip(p, a), b)
  {
    SkipSplits(p, a, b);
    var left, right := Read(words, p, a), Read(words, Skip(p, a), b);
    forall i | 0 <= i < a + b ensures Read(words, p, a + b)[i] == (left + right)[i] {
      if i >= a {
        WordsApart(a, i - a);
      }
    }
  }

  /** A cipher that reads keystreams word by word meets the hypothesis, whatever the keystreams. */
  lemma WordCipherSplitsAtWords(words: Keystream, derive: Derivation)
    ensures SplitsAtWords(WordCipher(words, derive))
  {
    var lib := WordCipher(words, derive);
    forall p, a: nat, b: nat | a % WORD == 0 ensures SplitsAt(lib, p, a, b) {
      ReadSplits(words, p, a, b);
      SkipSplits(p, a, b);
    }
  }

  // ----- the conditions are exact: the keystream that counts shows where its words begin

  const COUNTING: Keystream := (seed: seq<Byte>, word: nat) => [0, 1, 2, 3]

  /** Where in a word byte `i` of a fill lies. */
  function Offset(budget: nat, i: nat): nat {
    (if i < budget then i else i - budget) % WORD
  }

  /** Every chunk of such a cipher starts a word. */
  ghost predicate CountsAt<G>(turn: Turn<G>, s: State<G>, n: nat) {
    var c := turn(s, n);
    |c.bytes| == c.size && forall i :: 0 <= i < |c.bytes| ==> c.bytes[i] == i % WORD
  }

  lemma ChunkCounts(derive: Derivation, s: State<Position>, n: nat)
    ensures CountsAt(Turning(WordCipher(COUNTING, derive)), s, n)
  {
  }

  lemma {:induction false} FillCounts<G(!new)>(fill: Fill<G>, turn: Turn<G>, s: State<G>, n: nat, i: nat)
    requires Proceeds(fill, turn) && (forall s, n :: CountsAt(turn, s, n)) && i < n
    ensures |fill(s, n).1| == n && fill(s, n).1[i] == Offset(s.budget, i)
    decreases n
  {
    var c := turn(s, n);
    assert UnfoldsAt(fill, turn, s, n) && CountsAt(turn, s, n) && UnfoldsAt(fill, turn, c.state, 0);
    var rest := fill(c.state, n - c.size).1;
    OffsetsContinue(s.budget, i);
    if c.size < n {
      FillCounts(fill, turn, c.state, n - c.size, if i < c.size then 0 else i - c.size);
    }
    assert (c.bytes + rest)[i] == if i < c.size then c.bytes[i] else rest[i - c.size];
  }

  lemma OffsetsContinue(budget: nat, i: nat)
    ensures 0 < budget <= i ==> Offset(0, i - budget) == Offset(budget, i)
    ensures budget == 0 && i >= INTERVAL ==> Offset(0, i - INTERVAL) == Offset(0, i)
  {
    assert INTERVAL % WORD == 0;
  }

  /** A second fill starts a word, which the whole fill does not do there. */
  lemma SplitShows<G(!new)>(fill: Fill<G>, turn: Turn<G>, s: State<G>, a: nat, b: nat)
    requires Proceeds(fill, turn) && (forall s, n :: CountsAt(turn, s, n))
    requires b > 0 && Offset(s.budget, a) != 0
    ensures !SplitAt(fill, s, a, b)
  {
    var (first, left) := fill(s, a);
    var right := fill(first, b).1;
    assert UnfoldsAt(fill, turn, s, 0);
    if a > 0 {
      FillCounts(fill, turn, s, a, 0);
    }
    FillCounts(fill, turn, s, a + b, a);
    FillCounts(fill, turn, first, b, 0);
    assert (left + right)[a] == right[0];
  }

  /** Off a word every split shows, wherever it falls: for this keystream it changes the bytes. */
  lemma SplitInsideWordShows(derive: Derivation, s: State<Position>, a: nat, b: nat)
    requires b > 0 && !EndsOnWord(s.budget, a)
    ensures !SplitAt(Filling(WordCipher(COUNTING, derive)), s, a, b)
  {
    var lib := WordCipher(COUNTING, derive);
    FillProceeds(lib);
    forall s, n: nat ensures CountsAt(Turning(lib), s, n) {
      ChunkCounts(derive, s, n);
    }
    SplitShows(Filling(lib), Turning(lib), s, a, b);
  }

  /** A fill may be split, whatever the keystreams, exactly where a word ends or nothing is left to fill. */
  lemma FillSplitsIff(derive: Derivation, s: State<Position>, a: nat, b: nat)
    ensures (forall words :: SplitAt(Filling(WordCipher(words, derive)), s, a, b))
       <==> b == 0 || EndsOnWord(s.budget, a)
  {
    if b == 0 || EndsOnWord(s.budget, a) {
      forall words ensures SplitAt(Filling(WordCipher(words, derive)), s, a, b) {
        WordCipherSplitsAtWords(words, derive);
        FillSplits(WordCipher(words, derive), s, a, b);
      }
    } else {
      SplitInsideWordShows(derive, s, a, b);
    }
  }

  /** The bytes of a fill are the next ones of the keystream in use. */
  ghost predicate Uninterrupted(words: Keystream, derive: Derivation, s: State<Position>, n: nat) {
    Filled(WordCipher(words, derive), s, n).1 == Read(words, s.csprng, n)
  }

  /** Leaving a window off a word shows, for this keystream, in the first byte after it. */
  lemma WindowLeftInsideWordShows(derive: Derivation, s: State<Position>, n: nat)
    requires n > s.budget && s.budget % WORD != 0
    ensures !Uninterrupted(COUNTING, derive, s, n)
  {
    var lib := WordCipher(COUNTING, derive);
    FillProceeds(lib);
    forall s, n: nat ensures CountsAt(Turning(lib), s, n) {
      ChunkCounts(derive, s, n);
    }
    FillCounts(Filling(lib), Turning(lib), s, n, s.budget);
    assert Filling(lib)(s, n) == Filled(lib, s, n);
  }

  /**
   * When every attempt of a fill fails, its bytes are those of the keystream in use, uninterrupted, whatever
   * the keystreams, exactly if the first window is not left or holds whole words.
   */
  lemma DeferredStreamContinuesIff(derive: Derivation, s: State<Position>, n: nat)
    requires s.budget <= INTERVAL && AllFail(s.source, s.calls, Attempts(n, s.budget))
    ensures (forall words :: Uninterrupted(words, derive, s, n)) <==> n <= s.budget || s.budget % WORD == 0
  {
    if n <= s.budget || s.budget % WORD == 0 {
      forall words ensures Uninterrupted(words, derive, s, n) {
        WordCipherSplitsAtWords(words, derive);
        DeferredStreamContinues(WordCipher(words, derive), s, n);
      }
    } else {
      WindowLeftInsideWordShows(derive, s, n);
    }
  }
}
