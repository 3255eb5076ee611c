/**
 * The workload generator, which exists twice: on 64-bit words in Rust (`benchmarks/src/catalog.rs`)
 * and on masked unbounded integers in Python (`benchmarks/reference/workload_vectors.py`). A number is
 * its bits, the least significant first.
 */
module Workload {
  import opened Sequences

  const WIDTH := 64

  type Word = s: seq<bool> | |s| == WIDTH witness seq(WIDTH, _ => false)

  const ZERO: Word := seq(WIDTH, _ => false)

  function Value(bits: seq<bool>): nat {
    if bits == [] then 0 else (if bits[0] then 1 else 0) + 2 * Value(bits[1..])
  }

  function Bits(n: nat, width: nat): (r: seq<bool>)
    ensures |r| == width
  {
    if width == 0 then [] else [n % 2 == 1] + Bits(n / 2, width - 1)
  }

  // ----- Rust's words

  function Xor(x: Word, y: Word): Word {
    seq(WIDTH, i requires 0 <= i < WIDTH => x[i] != y[i])
  }

  function Shl(x: Word, k: nat): Word {
    seq(WIDTH, i requires 0 <= i < WIDTH => i >= k && x[i - k])
  }

  function Shr(x: Word, k: nat): Word {
    seq(WIDTH, i requires 0 <= i < WIDTH => i + k < WIDTH && x[i + k])
  }

  function XorShl(x: Word, k: nat): Word {
    Xor(x, Shl(x, k))
  }

  function XorShr(x: Word, k: nat): Word {
    Xor(x, Shr(x, k))
  }

  /** One step of the generator. */
  function Step(x: Word): Word {
    XorShl(XorShr(XorShl(x, 13), 7), 17)
  }

  // ----- Python's integers

  function Bit(x: seq<bool>, i: nat): bool {
    i < |x| && x[i]
  }

  function Longer(x: seq<bool>, y: seq<bool>): nat {
    if |x| < |y| then |y| else |x|
  }

  function PyXor(x: seq<bool>, y: seq<bool>): (r: seq<bool>)
    ensures |r| == Longer(x, y)
    ensures forall i :: 0 <= i < |r| ==> r[i] == (Bit(x, i) != Bit(y, i))
  {
    seq(Longer(x, y), i requires 0 <= i < Longer(x, y) => Bit(x, i) != Bit(y, i))
  }

  function PyShl(x: seq<bool>, k: nat): seq<bool> {
    seq(k, _ => false) + x
  }

  function PyShr(x: seq<bool>, k: nat): seq<bool> {
    if k <= |x| then x[k..] else []
  }

  /** `x & MASK64`. */
  function Mask(x: seq<bool>): (r: Word)
    ensures forall i :: 0 <= i < WIDTH ==> r[i] == Bit(x, i)
  {
    seq(WIDTH, i requires 0 <= i < WIDTH => Bit(x, i))
  }

  /** The step of `next_in`, which masks each whole term. */
  function PyNext(state: seq<bool>): Word {
    var a := Mask(PyXor(state, PyShl(state, 13)));
    var b := Mask(PyXor(a, PyShr(a, 7)));
    Mask(PyXor(b, PyShl(b, 17)))
  }

  /** The same, on states that are already masked. */
  function PyStep(state: Word): Word {
    PyNext(state)
  }

  /** The step of `deterministic_payload`, which masks the shifted part and the end. */
  function PyPayloadNext(state: seq<bool>): seq<bool> {
    var a := PyXor(state, Mask(PyShl(state, 13)));
    var b := PyXor(a, PyShr(a, 7));
    Mask(PyXor(b, Mask(PyShl(b, 17))))
  }

  lemma MaskedShl(x: Word, k: nat)
    ensures Mask(PyXor(x, PyShl(x, k))) == XorShl(x, k)
    ensures PyXor(x, Mask(PyShl(x, k))) == XorShl(x, k)
  {
    var shifted := PyShl(x, k);
    forall i | 0 <= i < WIDTH ensures Bit(shifted, i) == Shl(x, k)[i] {
    }
  }

  lemma MaskedShr(x: Word, k: nat)
    ensures Mask(PyXor(x, PyShr(x, k))) == XorShr(x, k)
    ensures PyXor(x, PyShr(x, k)) == XorShr(x, k)
  {
    var shifted := PyShr(x, k);
    forall i | 0 <= i < WIDTH ensures Bit(shifted, i) == Shr(x, k)[i] {
    }
  }

  lemma MaskKeeps(x: Word)
    ensures Mask(x) == x
  {
  }

  /** Both of Python's spellings are Rust's step. */
  lemma PythonStepsAgree(x: Word)
    ensures PyNext(x) == Step(x) && PyPayloadNext(x) == Step(x)
  {
    MaskedShl(x, 13);
    var a := XorShl(x, 13);
    MaskedShr(a, 7);
    var b := XorShr(a, 7);
    MaskedShl(b, 17);
    MaskKeeps(XorShl(b, 17));
  }

  // ----- shifts and masks as arithmetic

  function Pow2(k: nat): (r: nat)
    ensures r > 0
  {
    if k == 0 then 1 else 2 * Pow2(k - 1)
  }

  lemma ValueCons(bit: bool, bits: seq<bool>)
    ensures Value([bit] + bits) == (if bit then 1 else 0) + 2 * Value(bits)
  {
    assert ([bit] + bits)[1..] == bits;
  }

  lemma {:induction false} ShlMultiplies(x: seq<bool>, k: nat)
    ensures Value(PyShl(x, k)) == Value(x) * Pow2(k)
  {
    if k == 0 {
      assert PyShl(x, 0) == x;
    } else {
      assert PyShl(x, k) == [false] + PyShl(x, k - 1);
      ValueCons(false, PyShl(x, k - 1));
      ShlMultiplies(x, k - 1);
      Rearrange(2, Value(x), Pow2(k - 1));
    }
  }

  lemma Rearrange(a: nat, b: nat, c: nat)
    ensures a * (b * c) == b * (a * c)
  {
  }

  lemma AtLeast(d: int, m: int)
    requires d > 0
    ensures m >= 1 ==> m * d >= d
    ensures m <= -1 ==> m * d <= -d
  {
  }

  lemma Distribute(a: int, b: int, d: int)
    ensures (a - b) * d == a * d - b * d
  {
  }

  lemma Quotient(n: nat, d: nat, q: nat, r: nat)
    requires d > 0 && n == q * d + r && r < d
    ensures n / d == q && n % d == r
  {
    assert n == n / d * d + n % d;
    Distribute(n / d, q, d);
    AtLeast(d, n / d - q);
  }

  /** The lowest bits of a number. */
  function Low(x: seq<bool>, width: nat): (r: seq<bool>)
    ensures |r| == width
  {
    seq(width, i requires 0 <= i < width => Bit(x, i))
  }

  lemma Doubling(bit: nat, high: nat, power: nat, low: nat)
    ensures bit + 2 * (high * power + low) == high * (2 * power) + (bit + 2 * low)
  {
  }

  /** A number is its high bits, moved up, and its low bits. */
  lemma {:induction false} SplitAtBit(x: seq<bool>, k: nat)
    ensures Value(x) == Value(PyShr(x, k)) * Pow2(k) + Value(Low(x, k)) && Value(Low(x, k)) < Pow2(k)
    decreases k
  {
    if k == 0 {
      assert PyShr(x, 0) == x;
    } else {
      var bit, rest := Bit(x, 0), if x == [] then [] else x[1..];
      assert Low(x, k) == [bit] + Low(rest, k - 1) && PyShr(x, k) == PyShr(rest, k - 1);
      ValueCons(bit, Low(rest, k - 1));
      SplitAtBit(rest, k - 1);
      assert Value(x) == (if bit then 1 else 0) + 2 * Value(rest);
      Doubling(if bit then 1 else 0, Value(PyShr(rest, k - 1)), Pow2(k - 1), Value(Low(rest, k - 1)));
    }
  }

  lemma SplitIsDivision(x: seq<bool>, k: nat)
    ensures Value(PyShr(x, k)) == Value(x) / Pow2(k) && Value(Low(x, k)) == Value(x) % Pow2(k)
  {
    var whole, power, high, low := Value(x), Pow2(k), Value(PyShr(x, k)), Value(Low(x, k));
    assert whole == high * power + low && low < power by {
      SplitAtBit(x, k);
    }
    Quotient(whole, power, high, low);
  }

  /** Python's shifts and mask are multiplication, division and remainder by powers of two. */
  lemma PythonShiftsAreArithmetic(x: seq<bool>, k: nat)
    ensures Value(PyShl(x, k)) == Value(x) * Pow2(k)
    ensures Value(PyShr(x, k)) == Value(x) / Pow2(k)
    ensures Value(Mask(x)) == Value(x) % Pow2(WIDTH)
  {
    ShlMultiplies(x, k);
    SplitIsDivision(x, k);
    SplitIsDivision(x, WIDTH);
    assert Mask(x) == Low(x, WIDTH);
  }

  /** Zeros above a number do not change it. */
  lemma {:induction false} PaddingKeepsValue(x: seq<bool>, width: nat)
    requires |x| <= width
    ensures Value(Low(x, width)) == Value(x)
    decreases width
  {
    if width > 0 {
      var bit, rest := Bit(x, 0), if x == [] then [] else x[1..];
      assert Low(x, width) == [bit] + Low(rest, width - 1);
      ValueCons(bit, Low(rest, width - 1));
      PaddingKeepsValue(rest, width - 1);
    }
  }

  /** Rust's shifts are the same, wrapping at 64 bits. */
  lemma RustShiftsAreArithmetic(x: Word, k: nat)
    ensures Value(Shl(x, k)) == Value(x) * Pow2(k) % Pow2(WIDTH)
    ensures Value(Shr(x, k)) == Value(x) / Pow2(k)
  {
    RustShlWraps(x, k);
    RustShrDivides(x, k);
  }

  lemma RustShlWraps(x: Word, k: nat)
    ensures Value(Shl(x, k)) == Value(x) * Pow2(k) % Pow2(WIDTH)
  {
    ShlMultiplies(x, k);
    SplitIsDivision(PyShl(x, k), WIDTH);
    assert Low(PyShl(x, k), WIDTH) == Shl(x, k);
  }

  lemma RustShrDivides(x: Word, k: nat)
    ensures Value(Shr(x, k)) == Value(x) / Pow2(k)
  {
    SplitIsDivision(x, k);
    PaddingKeepsValue(PyShr(x, k), WIDTH);
    assert Low(PyShr(x, k), WIDTH) == Shr(x, k);
  }

  /** A constant that fits a width has the value it is written with. */
  lemma {:induction false} BitsHaveValue(n: nat, width: nat)
    requires n < Pow2(width)
    ensures Value(Bits(n, width)) == n
    decreases width
  {
    if width > 0 {
      ValueCons(n % 2 == 1, Bits(n / 2, width - 1));
      BitsHaveValue(n / 2, width - 1);
    }
  }

  // ----- each step is a permutation

  function UnshlBit(y: Word, k: nat, i: nat): bool
    requires k > 0 && i < WIDTH
  {
    y[i] != (i >= k && UnshlBit(y, k, i - k))
  }

  function Unshl(y: Word, k: nat): Word
    requires k > 0
  {
    seq(WIDTH, i requires 0 <= i < WIDTH => UnshlBit(y, k, i))
  }

  function UnshrBit(y: Word, k: nat, i: nat): bool
    requires k > 0 && i < WIDTH
    decreases WIDTH - i
  {
    y[i] != (i + k < WIDTH && UnshrBit(y, k, i + k))
  }

  function Unshr(y: Word, k: nat): Word
    requires k > 0
  {
    seq(WIDTH, i requires 0 <= i < WIDTH => UnshrBit(y, k, i))
  }

  lemma {:induction false} UnshlBitExact(x: Word, k: nat, i: nat)
    requires k > 0 && i < WIDTH
    ensures UnshlBit(XorShl(x, k), k, i) == x[i]
    decreases i
  {
    if i >= k {
      UnshlBitExact(x, k, i - k);
    }
  }

  lemma {:induction false} UnshrBitExact(x: Word, k: nat, i: nat)
    requires k > 0 && i < WIDTH
    ensures UnshrBit(XorShr(x, k), k, i) == x[i]
    decreases WIDTH - i
  {
    if i + k < WIDTH {
      UnshrBitExact(x, k, i + k);
    }
  }

  /** Adding a shifted copy can be undone, for every shift. */
  lemma ShlInverse(x: Word, k: nat)
    requires k > 0
    ensures Unshl(XorShl(x, k), k) == x && XorShl(Unshl(x, k), k) == x
  {
    forall i | 0 <= i < WIDTH ensures Unshl(XorShl(x, k), k)[i] == x[i] {
      UnshlBitExact(x, k, i);
    }
  }

  lemma ShrInverse(x: Word, k: nat)
    requires k > 0
    ensures Unshr(XorShr(x, k), k) == x && XorShr(Unshr(x, k), k) == x
  {
    forall i | 0 <= i < WIDTH ensures Unshr(XorShr(x, k), k)[i] == x[i] {
      UnshrBitExact(x, k, i);
    }
  }

  function Unstep(y: Word): Word {
    Unshl(Unshr(Unshl(y, 17), 7), 13)
  }

  /** A step has an inverse on both sides: it permutes the words. */
  lemma StepPermutes(x: Word)
    ensures Unstep(Step(x)) == x && Step(Unstep(x)) == x
  {
    ShlInverse(x, 13);
    ShrInverse(XorShl(x, 13), 7);
    ShlInverse(XorShr(XorShl(x, 13), 7), 17);
    ShlInverse(x, 17);
    ShrInverse(Unshl(x, 17), 7);
    ShlInverse(Unshr(Unshl(x, 17), 7), 13);
  }

  lemma ZeroSteps()
    ensures Step(ZERO) == ZERO
  {
    assert XorShl(ZERO, 13) == ZERO && XorShr(ZERO, 7) == ZERO && XorShl(ZERO, 17) == ZERO;
  }

  function After(step: Word -> Word, seed: Word, n: nat): Word {
    if n == 0 then seed else step(After(step, seed, n - 1))
  }

  lemma {:induction false} AfterAlike(f: Word -> Word, g: Word -> Word, seed: Word, n: nat)
    requires forall x: Word :: f(x) == g(x)
    ensures After(f, seed, n) == After(g, seed, n)
  {
    if n > 0 {
      AfterAlike(f, g, seed, n - 1);
    }
  }

  lemma {:induction false} AfterInjective(f: Word -> Word, seed: Word, other: Word, n: nat)
    requires forall x: Word, y: Word :: f(x) == f(y) ==> x == y
    ensures After(f, seed, n) == After(f, other, n) <==> seed == other
  {
    if n > 0 {
      AfterInjective(f, seed, other, n - 1);
    }
  }

  lemma {:induction false} AfterFixed(f: Word -> Word, fixed: Word, n: nat)
    requires f(fixed) == fixed
    ensures After(f, fixed, n) == fixed
  {
    if n > 0 {
      AfterFixed(f, fixed, n - 1);
    }
  }

  /** The two generators walk through the same states for ever. */
  lemma SameStatesForever(seed: Word, n: nat)
    ensures After(PyStep, seed, n) == After(Step, seed, n)
  {
    forall x: Word ensures PyStep(x) == Step(x) {
      PythonStepsAgree(x);
    }
    AfterAlike(PyStep, Step, seed, n);
  }

  lemma StepInjective(x: Word, y: Word)
    ensures Step(x) == Step(y) <==> x == y
  {
    StepPermutes(x);
    StepPermutes(y);
  }

  /** Different seeds never meet; in particular a nonzero seed never leads to zero. */
  lemma NeverMeetNeverZero(seed: Word, other: Word, n: nat)
    ensures After(Step, seed, n) == After(Step, other, n) <==> seed == other
    ensures After(Step, seed, n) == ZERO <==> seed == ZERO
  {
    forall x: Word, y: Word ensures Step(x) == Step(y) ==> x == y {
      StepInjective(x, y);
    }
    AfterInjective(Step, seed, other, n);
    AfterInjective(Step, seed, ZERO, n);
    ZeroSteps();
    AfterFixed(Step, ZERO, n);
  }

  // ----- sizes

  datatype Bounds = Bounds(low: nat, high: nat)

  function BoundsOf(min: nat, max: nat, fixed: nat): Bounds {
    if max > 0 then Bounds(min, max) else Bounds(fixed, fixed)
  }

  function Size(state: seq<bool>, b: Bounds): nat
    requires b.low <= b.high
  {
    b.low + Value(state) % (b.high - b.low + 1)
  }

  /** The Rust sequence. */
  class SizeSequence {
    var state: Word
    const bounds: Bounds

    constructor (seed: Word, min: nat, max: nat, fixed: nat)
      ensures state == seed && bounds == BoundsOf(min, max, fixed)
    {
      state := seed;
      bounds := if max > 0 then Bounds(min, max) else Bounds(fixed, fixed);
    }

    method NextIn(min: nat, max: nat) returns (size: nat)
      requires min <= max
      modifies this
      ensures state == Step(old(state))
      ensures size == Size(state, Bounds(min, max)) && min <= size <= max
    {
      state := Xor(state, Shl(state, 13));
      state := Xor(state, Shr(state, 7));
      state := Xor(state, Shl(state, 17));
      var span := max - min + 1;
      return min + Value(state) % span;
    }

    method NextLen() returns (size: nat)
      requires bounds.low <= bounds.high
      modifies this
      ensures state == Step(old(state))
      ensures size == Size(state, bounds) && bounds.low <= size <= bounds.high
    {
      size := NextIn(bounds.low, bounds.high);
    }
  }

  /** The Python sequence. */
  class PythonSizeSequence {
    var state: seq<bool>
    const bounds: Bounds

    constructor (seed: seq<bool>, lo: nat, hi: nat, fixed: nat)
      ensures state == Mask(seed) && bounds == BoundsOf(lo, hi, fixed)
    {
      state := Mask(seed);
      bounds := if hi == 0 then Bounds(fixed, fixed) else Bounds(lo, hi);
    }

    method NextIn(lo: nat, hi: nat) returns (size: nat)
      requires lo <= hi
      modifies this
      ensures state == PyNext(old(state)) && size == Size(state, Bounds(lo, hi))
    {
      var next := state;
      next := Mask(PyXor(next, PyShl(next, 13)));
      next := Mask(PyXor(next, PyShr(next, 7)));
      next := Mask(PyXor(next, PyShl(next, 17)));
      state := next;
      return lo + Value(next) % (hi - lo + 1);
    }
  }

  /** The n-th size, in either language. */
  lemma SizesAgreeForever(seed: Word, min: nat, max: nat, fixed: nat, n: nat)
    requires BoundsOf(min, max, fixed).low <= BoundsOf(min, max, fixed).high
    ensures var b := BoundsOf(min, max, fixed);
            && Size(After(Step, seed, n + 1), b) == Size(After(PyStep, Mask(seed), n + 1), b)
            && b.low <= Size(After(Step, seed, n + 1), b) <= b.high
  {
    MaskKeeps(seed);
    SameStatesForever(seed, n + 1);
  }

  // ----- payloads

  const PAYLOAD_SEED: Word := Bits(0x9E37_79B9_7F4A_7C15, WIDTH)

  lemma {:induction false} ZerosHaveNoValue(width: nat)
    ensures Value(seq(width, _ => false)) == 0
  {
    if width > 0 {
      assert seq(width, _ => false)[1..] == seq(width - 1, _ => false);
      ZerosHaveNoValue(width - 1);
    }
  }

  lemma {:induction false} Pow2Adds(a: nat, b: nat)
    ensures Pow2(a + b) == Pow2(a) * Pow2(b)
  {
    if a > 0 {
      Pow2Adds(a - 1, b);
      Rearrange(2, Pow2(a - 1), Pow2(b));
    }
  }

  lemma Pow2Squares(k: nat, power: nat)
    requires Pow2(k) == power
    ensures Pow2(2 * k) == power * power
  {
    Pow2Adds(k, k);
  }

  lemma Pow2OfWidth()
    ensures Pow2(WIDTH) == 0x1_0000_0000_0000_0000
  {
    Pow2Squares(1, 2);
    Pow2Squares(2, 4);
    Pow2Squares(4, 0x10);
    Pow2Squares(8, 0x100);
    Pow2Squares(16, 0x1_0000);
    Pow2Squares(32, 0x1_0000_0000);
  }

  /** The payload's seed is the number it is written as, so its states never get stuck at zero. */
  lemma PayloadNeverStalls(n: nat)
    ensures Value(PAYLOAD_SEED) == 0x9E37_79B9_7F4A_7C15 && After(Step, PAYLOAD_SEED, n) != ZERO
  {
    Pow2OfWidth();
    BitsHaveValue(0x9E37_79B9_7F4A_7C15, WIDTH);
    ZerosHaveNoValue(WIDTH);
    NeverMeetNeverZero(PAYLOAD_SEED, PAYLOAD_SEED, n);
  }

  /** The state's eight bytes, the least significant first. */
  function LeBytes(state: seq<bool>): (r: seq<nat>)
    requires |state| == WIDTH
    ensures |r| == 8
  {
    seq(8, j requires 0 <= j < 8 => Value(state[8 * j..8 * j + 8]))
  }

  function Blocks(state: Word, n: nat): (r: seq<nat>)
    ensures |r| == 8 * n
    decreases n
  {
    if n == 0 then [] else LeBytes(Step(state)) + Blocks(Step(state), n - 1)
  }

  function BlocksFor(len: nat): nat {
    (len + 7) / 8
  }

  function Payload(len: nat): (r: seq<nat>)
    ensures |r| == len
  {
    Blocks(PAYLOAD_SEED, BlocksFor(len))[..len]
  }

  /** One more block, and the blocks after it. */
  lemma NextBlock(data: seq<nat>, state: Word, next: Word, left: nat)
    requires left > 0 && next == Step(state)
    ensures data + Blocks(state, left) == data + LeBytes(next) + Blocks(next, left - 1)
  {
    Regroup(data, LeBytes(next), Blocks(next, left - 1));
  }

  method Advance(from: Word) returns (state: Word)
    ensures state == Step(from)
  {
    state := from;
    state := Xor(state, Shl(state, 13));
    state := Xor(state, Shr(state, 7));
    state := Xor(state, Shl(state, 17));
  }

  method PythonAdvance(from: Word) returns (state: seq<bool>)
    ensures state == Step(from)
  {
    PythonStepsAgree(from);
    state := from;
    state := PyXor(state, Mask(PyShl(state, 13)));
    state := PyXor(state, PyShr(state, 7));
    state := PyXor(state, Mask(PyShl(state, 17)));
    state := Mask(state);
  }

  method DeterministicPayload(len: nat) returns (data: seq<nat>)
    ensures data == Payload(len)
  {
    var state := PAYLOAD_SEED;
    data := [];
    ghost var all := Blocks(PAYLOAD_SEED, BlocksFor(len));
    ghost var left: nat := BlocksFor(len);
    while |data| < len
      invariant data + Blocks(state, left) == all
      decreases left
    {
      var next := Advance(state);
      NextBlock(data, state, next, left);
      state := next;
      data := data + LeBytes(state);
      left := left - 1;
    }
    assert data[..len] == (data + Blocks(state, left))[..len];
    data := data[..len];
  }

  method PythonPayload(len: nat) returns (data: seq<nat>)
    ensures data == Payload(len)
  {
    var state: seq<bool> := PAYLOAD_SEED;
    data := [];
    ghost var all := Blocks(PAYLOAD_SEED, BlocksFor(len));
    ghost var left: nat := BlocksFor(len);
    while |data| < len
      invariant |state| == WIDTH && data + Blocks(state, left) == all
      decreases left
    {
      var next := PythonAdvance(state);
      NextBlock(data, state, next, left);
      state := next;
      data := data + LeBytes(state);
      left := left - 1;
    }
    assert data[..len] == (data + Blocks(state, left))[..len];
    data := data[..len];
  }

  lemma {:induction false} BlocksExtend(state: Word, n: nat, more: nat)
    requires n <= more
    ensures Blocks(state, n) <= Blocks(state, more)
    decreases n
  {
    if n > 0 {
      BlocksExtend(Step(state), n - 1, more - 1);
    }
  }

  /** A shorter payload begins a longer one. */
  lemma PayloadsAreNested(len: nat, longer: nat)
    requires len <= longer
    ensures Payload(len) <= Payload(longer)
  {
    BlocksExtend(PAYLOAD_SEED, BlocksFor(len), BlocksFor(longer));
  }
}
