/**
 * The table-free CRC-16 of `prns-nrf-dfu/src/crc.rs`, against bit-by-bit division by the
 * CRC-16/CCITT-FALSE polynomial x^16 + x^12 + x^5 + 1.
 */
module Crc {
  const INITIAL: bv16 := 0xffff

  // ----- the definition

  /**
   * Eight steps of long division over GF(2), one message bit at a time, most significant first.
   * Each step shifts the register; when the bit that leaves differs from the message bit the
   * divisor is subtracted, whose coefficients below x^16 stand at bits 12, 5 and 0 (0x1021).
   */
  function DivideByte(r: bv16, b: bv8): bv16 {
    var c1 := (r >> 15) ^ ((b >> 7) as bv16);
    var r1 := (r << 1) ^ c1 ^ (c1 << 5) ^ (c1 << 12);
    var c2 := (r1 >> 15) ^ (((b >> 6) & 1) as bv16);
    var r2 := (r1 << 1) ^ c2 ^ (c2 << 5) ^ (c2 << 12);
    var c3 := (r2 >> 15) ^ (((b >> 5) & 1) as bv16);
    var r3 := (r2 << 1) ^ c3 ^ (c3 << 5) ^ (c3 << 12);
    var c4 := (r3 >> 15) ^ (((b >> 4) & 1) as bv16);
    var r4 := (r3 << 1) ^ c4 ^ (c4 << 5) ^ (c4 << 12);
    var c5 := (r4 >> 15) ^ (((b >> 3) & 1) as bv16);
    var r5 := (r4 << 1) ^ c5 ^ (c5 << 5) ^ (c5 << 12);
    var c6 := (r5 >> 15) ^ (((b >> 2) & 1) as bv16);
    var r6 := (r5 << 1) ^ c6 ^ (c6 << 5) ^ (c6 << 12);
    var c7 := (r6 >> 15) ^ (((b >> 1) & 1) as bv16);
    var r7 := (r6 << 1) ^ c7 ^ (c7 << 5) ^ (c7 << 12);
    var c8 := (r7 >> 15) ^ ((b & 1) as bv16);
    (r7 << 1) ^ c8 ^ (c8 << 5) ^ (c8 << 12)
  }

  /** A message fed byte by byte through some step function. */
  function Run(step: (bv16, bv8) -> bv16, register: bv16, bytes: seq<bv8>): bv16
    decreases |bytes|
  {
    if bytes == [] then register else Run(step, step(register, bytes[0]), bytes[1..])
  }

  /** The checksum: what the whole message leaves in the division register. */
  function Crc16(bytes: seq<bv8>): bv16 {
    Run(DivideByte, INITIAL, bytes)
  }

  // ----- the source's loop

  /** One iteration of the loop: a rotation and four xors. */
  function Step(crc: bv16, byte: bv8): bv16 {
    var a := ((crc >> 8) | (crc << 8)) ^ (byte as bv16);
    var b := a ^ ((a & 0x00ff) >> 4);
    var c := b ^ ((b << 8) << 4);
    c ^ (((c & 0x00ff) << 4) << 1)
  }

  lemma StepIsDivision(crc: bv16, byte: bv8)
    ensures Step(crc, byte) == DivideByte(crc, byte)
  {
  }

  method FirmwareCrc(bytes: seq<bv8>) returns (crc: bv16)
    ensures crc == Crc16(bytes)
  {
    crc := INITIAL;
    for i := 0 to |bytes|
      invariant Run(DivideByte, crc, bytes[i..]) == Crc16(bytes)
    {
      StepIsDivision(crc, bytes[i]);
      crc := Step(crc, bytes[i]);
      assert bytes[i..][1..] == bytes[i + 1..];
    }
  }

  // ----- the step, half by half

  function High(c: bv16): bv8 {
    (c >> 8) as bv8
  }

  function Low(c: bv16): bv8 {
    (c & 0xff) as bv8
  }

  /** The byte that leaves the upper half, met by the message byte. */
  function Met(c: bv16, b: bv8): bv8 {
    ((c >> 8) as bv8) ^ b
  }

  /** What it makes of the lower half of the next register. */
  function ToLow(x: bv8): bv8 {
    var y := x ^ (x >> 4);
    y ^ (y << 5)
  }

  /** And of the upper half, where the lower half moves. */
  function ToHigh(low: bv8, x: bv8): bv8 {
    var y := x ^ (x >> 4);
    low ^ (y << 4) ^ (y >> 3)
  }

  function Assembled(c: bv16, x: bv8): bv16 {
    var y := x ^ (x >> 4);
    (((((c & 0xff) as bv8) ^ (y << 4) ^ (y >> 3)) as bv16) << 8) | ((y ^ (y << 5)) as bv16)
  }

  lemma StepIsAssembled(c: bv16, b: bv8)
    ensures Step(c, b) == Assembled(c, ((c >> 8) as bv8) ^ b)
  {
  }

  lemma StepAssembles(c: bv16, b: bv8)
    ensures Step(c, b) == Assembled(c, Met(c, b))
  {
    StepIsAssembled(c, b);
  }

  lemma AssembledHalves(c: bv16, x: bv8)
    ensures Low(Assembled(c, x)) == ToLow(x)
    ensures High(Assembled(c, x)) == ToHigh(Low(c), x)
  {
  }

  lemma StepHalves(c: bv16, b: bv8)
    ensures Low(Step(c, b)) == ToLow(Met(c, b))
    ensures High(Step(c, b)) == ToHigh(Low(c), Met(c, b))
  {
    StepAssembles(c, b);
    AssembledHalves(c, Met(c, b));
  }

  lemma HalvesDecide(c: bv16, d: bv16, b: bv8)
    requires Met(c, b) == Met(d, b) && Low(c) == Low(d)
    ensures c == d
  {
  }

  lemma ToLowInjective(x: bv8, y: bv8)
    requires ToLow(x) == ToLow(y)
    ensures x == y
  {
  }

  lemma ToHighInjective(a: bv8, b: bv8, x: bv8)
    requires ToHigh(a, x) == ToHigh(b, x)
    ensures a == b
  {
  }

  lemma StepBack(c: bv16, d: bv16, p: bv8, q: bv8)
    requires Step(c, p) == Step(d, q)
    ensures Met(c, p) == Met(d, q) && Low(c) == Low(d)
  {
    StepHalves(c, p);
    StepHalves(d, q);
    ToLowInjective(Met(c, p), Met(d, q));
    ToHighInjective(Low(c), Low(d), Met(c, p));
  }

  lemma MetInjective(c: bv16, p: bv8, q: bv8)
    requires Met(c, p) == Met(c, q)
    ensures p == q
  {
  }

  lemma StepInjective(c: bv16, d: bv16, b: bv8)
    requires Step(c, b) == Step(d, b)
    ensures c == d
  {
    StepBack(c, d, b, b);
    HalvesDecide(c, d, b);
  }

  // ----- three bytes that differ within sixteen bits

  /** Where two bytes differ. */
  function Xor(x: bv8, y: bv8): bv8 {
    x ^ y
  }

  /** A run of ones at the low end: none, some or all of the bits. */
  predicate LowOnes(m: bv8) {
    m & (m + 1) == 0
  }

  predicate Within(x: bv8, m: bv8) {
    x & !m == 0
  }

  predicate Outside(x: bv8, m: bv8) {
    x & m == 0
  }

  /** A change confined to the low bits shows in them. */
  lemma LowBitsShow(x: bv8, y: bv8, m: bv8)
    requires LowOnes(m) && Within(Xor(x, y), m) && Outside(Xor(ToLow(x), ToLow(y)), m)
    ensures x == y
  {
  }

  lemma MetMoves(c: bv16, p: bv8, q: bv8)
    ensures Xor(Met(c, p), Met(c, q)) == Xor(p, q)
  {
  }

  lemma MetIs(c: bv16, b: bv8)
    ensures Met(c, b) == Xor(High(c), b)
  {
  }

  lemma ToHighSwaps(a: bv8, b: bv8, x: bv8, p: bv8, q: bv8)
    requires Xor(ToHigh(a, x), p) == Xor(ToHigh(b, x), q)
    ensures Xor(a, b) == Xor(p, q)
  {
  }

  lemma MetAfter(c: bv16, p: bv8, q: bv8)
    ensures Met(Step(c, p), q) == Xor(ToHigh(Low(c), Met(c, p)), q)
  {
    StepHalves(c, p);
    MetIs(Step(c, p), q);
  }

  /** If two steps meet, the lower halves before them differ as the last bytes do. */
  lemma TwoStepsBack(c: bv16, d: bv16, p: bv8, q: bv8, r: bv8, s: bv8)
    requires Step(Step(c, p), q) == Step(Step(d, r), s)
    ensures Met(c, p) == Met(d, r) && Xor(Low(c), Low(d)) == Xor(q, s)
  {
    StepBack(Step(c, p), Step(d, r), q, s);
    StepHalves(c, p);
    StepHalves(d, r);
    ToLowInjective(Met(c, p), Met(d, r));
    MetAfter(c, p, q);
    MetAfter(d, r, s);
    ToHighSwaps(Low(c), Low(d), Met(c, p), q, s);
  }

  lemma FirstByteBack(c: bv16, p: bv8, q: bv8, m: bv8)
    requires LowOnes(m) && Within(Xor(p, q), m) && Outside(Xor(Low(Step(c, p)), Low(Step(c, q))), m)
    ensures p == q
  {
    StepHalves(c, p);
    StepHalves(c, q);
    MetMoves(c, p, q);
    LowBitsShow(Met(c, p), Met(c, q), m);
    MetInjective(c, p, q);
  }

  /** Bytes that differ in the low bits of the first, the second, and the high bits of the third at most. */
  predicate Burst(x: seq<bv8>, y: seq<bv8>, m: bv8) {
    && |x| == 3 && |y| == 3 && LowOnes(m)
    && Within(Xor(x[0], y[0]), m) && Outside(Xor(x[2], y[2]), m)
  }

  lemma ThreeStepsBack(c: bv16, x: seq<bv8>, y: seq<bv8>, m: bv8)
    requires Burst(x, y, m) && Step(Step(Step(c, x[0]), x[1]), x[2]) == Step(Step(Step(c, y[0]), y[1]), y[2])
    ensures x == y
  {
    TwoStepsBack(Step(c, x[0]), Step(c, y[0]), x[1], x[2], y[1], y[2]);
    FirstByteBack(c, x[0], y[0], m);
    MetInjective(Step(c, x[0]), x[1], y[1]);
    StepBack(Step(Step(c, x[0]), x[1]), Step(Step(c, y[0]), y[1]), x[2], y[2]);
    MetInjective(Step(Step(c, x[0]), x[1]), x[2], y[2]);
  }

  // ----- whole messages

  lemma {:induction false} RunConcat(step: (bv16, bv8) -> bv16, register: bv16, a: seq<bv8>, b: seq<bv8>)
    ensures Run(step, register, a + b) == Run(step, Run(step, register, a), b)
    decreases |a|
  {
    if a == [] {
      assert a + b == b;
    } else {
      assert (a + b)[1..] == a[1..] + b;
      RunConcat(step, step(register, a[0]), a[1..], b);
    }
  }

  lemma {:induction false} RunsAgree(f: (bv16, bv8) -> bv16, g: (bv16, bv8) -> bv16, register: bv16, bytes: seq<bv8>)
    requires forall c, b :: f(c, b) == g(c, b)
    ensures Run(f, register, bytes) == Run(g, register, bytes)
    decreases |bytes|
  {
    if bytes != [] {
      RunsAgree(f, g, f(register, bytes[0]), bytes[1..]);
    }
  }

  /** Different registers stay different through any common suffix. */
  lemma {:induction false} RunInjective(step: (bv16, bv8) -> bv16, c: bv16, d: bv16, bytes: seq<bv8>)
    requires forall c, d, b :: c != d ==> step(c, b) != step(d, b)
    requires c != d
    ensures Run(step, c, bytes) != Run(step, d, bytes)
    decreases |bytes|
  {
    if bytes != [] {
      RunInjective(step, step(c, bytes[0]), step(d, bytes[0]), bytes[1..]);
    }
  }

  lemma RunThree(step: (bv16, bv8) -> bv16, c: bv16, x: seq<bv8>)
    requires |x| == 3
    ensures Run(step, c, x) == step(step(step(c, x[0]), x[1]), x[2])
  {
    assert x[1..][1..] == [x[2]] && [x[2]][1..] == [];
    assert Run(step, c, x) == Run(step, step(step(c, x[0]), x[1]), [x[2]]);
  }

  /** Messages alike before and after a part, with the same result, leave it with the same register. */
  lemma RunsMeet(step: (bv16, bv8) -> bv16, c: bv16, prefix: seq<bv8>, x: seq<bv8>, y: seq<bv8>, suffix: seq<bv8>)
    requires forall c, d, b :: c != d ==> step(c, b) != step(d, b)
    requires Run(step, c, prefix + x + suffix) == Run(step, c, prefix + y + suffix)
    ensures Run(step, Run(step, c, prefix), x) == Run(step, Run(step, c, prefix), y)
  {
    var d := Run(step, c, prefix);
    RunConcat(step, c, prefix + x, suffix);
    RunConcat(step, c, prefix, x);
    RunConcat(step, c, prefix + y, suffix);
    RunConcat(step, c, prefix, y);
    if Run(step, d, x) != Run(step, d, y) {
      RunInjective(step, Run(step, d, x), Run(step, d, y), suffix);
    }
  }

  lemma BurstBack(c: bv16, prefix: seq<bv8>, x: seq<bv8>, y: seq<bv8>, suffix: seq<bv8>, m: bv8)
    requires Burst(x, y, m) && Run(Step, c, prefix + x + suffix) == Run(Step, c, prefix + y + suffix)
    ensures x == y
  {
    forall c, d, b | c != d ensures Step(c, b) != Step(d, b) {
      if Step(c, b) == Step(d, b) {
        StepInjective(c, d, b);
      }
    }
    RunsMeet(Step, c, prefix, x, y, suffix);
    RunThree(Step, Run(Step, c, prefix), x);
    RunThree(Step, Run(Step, c, prefix), y);
    ThreeStepsBack(Run(Step, c, prefix), x, y, m);
  }

  lemma Crc16IsRunOfStep(bytes: seq<bv8>)
    ensures Crc16(bytes) == Run(Step, INITIAL, bytes)
  {
    forall c, b ensures DivideByte(c, b) == Step(c, b) {
      StepIsDivision(c, b);
    }
    RunsAgree(DivideByte, Step, INITIAL, bytes);
  }

  // ----- bursts by their bits

  /** The bits of a byte in the order they are sent, and the bits from each on. */
  const BIT: seq<bv8> := [0x80, 0x40, 0x20, 0x10, 0x08, 0x04, 0x02, 0x01]
  const FROM: seq<bv8> := [0xff, 0x7f, 0x3f, 0x1f, 0x0f, 0x07, 0x03, 0x01]

  predicate HasBit(b: bv8, j: nat)
    requires j < 8
  {
    b & BIT[j] != 0
  }

  predicate BitAt(bytes: seq<bv8>, i: nat)
    requires i < 8 * |bytes|
  {
    HasBit(bytes[i / 8], i % 8)
  }

  lemma FirstBitsSame(p: bv8, q: bv8, s: nat)
    requires s < 8 && forall j :: 0 <= j < s ==> HasBit(p, j) == HasBit(q, j)
    ensures LowOnes(FROM[s]) && Within(Xor(p, q), FROM[s])
  {
    assert s > 0 ==> HasBit(p, 0) == HasBit(q, 0);
    assert s > 1 ==> HasBit(p, 1) == HasBit(q, 1);
    assert s > 2 ==> HasBit(p, 2) == HasBit(q, 2);
    assert s > 3 ==> HasBit(p, 3) == HasBit(q, 3);
    assert s > 4 ==> HasBit(p, 4) == HasBit(q, 4);
    assert s > 5 ==> HasBit(p, 5) == HasBit(q, 5);
    assert s > 6 ==> HasBit(p, 6) == HasBit(q, 6);
  }

  lemma LastBitsSame(p: bv8, q: bv8, s: nat)
    requires s < 8 && forall j :: s <= j < 8 ==> HasBit(p, j) == HasBit(q, j)
    ensures Outside(Xor(p, q), FROM[s])
  {
    assert s <= 0 ==> HasBit(p, 0) == HasBit(q, 0);
    assert s <= 1 ==> HasBit(p, 1) == HasBit(q, 1);
    assert s <= 2 ==> HasBit(p, 2) == HasBit(q, 2);
    assert s <= 3 ==> HasBit(p, 3) == HasBit(q, 3);
    assert s <= 4 ==> HasBit(p, 4) == HasBit(q, 4);
    assert s <= 5 ==> HasBit(p, 5) == HasBit(q, 5);
    assert s <= 6 ==> HasBit(p, 6) == HasBit(q, 6);
    assert HasBit(p, 7) == HasBit(q, 7);
  }

  lemma AllBitsSame(p: bv8, q: bv8)
    requires Outside(Xor(p, q), FROM[0])
    ensures p == q
  {
  }

  /** The messages differ in no bit outside the sixteen from `at` on. */
  predicate DifferWithin(x: seq<bv8>, y: seq<bv8>, at: nat) {
    |x| == |y| && forall i :: 0 <= i < 8 * |x| && !(at <= i < at + 16) ==> BitAt(x, i) == BitAt(y, i)
  }

  lemma BitOf(bytes: seq<bv8>, t: nat, j: nat)
    requires t < |bytes| && j < 8
    ensures 8 * t + j < 8 * |bytes| && BitAt(bytes, 8 * t + j) == HasBit(bytes[t], j)
  {
  }

  lemma SameOutside(x: seq<bv8>, y: seq<bv8>, at: nat, t: nat, j: nat)
    requires DifferWithin(x, y, at) && t < |x| && j < 8 && !(at <= 8 * t + j < at + 16)
    ensures HasBit(x[t], j) == HasBit(y[t], j)
  {
    BitOf(x, t, j);
    BitOf(y, t, j);
    assert BitAt(x, 8 * t + j) == BitAt(y, 8 * t + j);
  }

  /** Three bytes hold the sixteen bits, and all others are the same. */
  lemma BytesDifferWithin(x: seq<bv8>, y: seq<bv8>, q: nat, s: nat, t: nat)
    requires s < 8 && DifferWithin(x, y, 8 * q + s) && t < |x|
    ensures !(q <= t <= q + 2) ==> x[t] == y[t]
    ensures t == q ==> Within(Xor(x[t], y[t]), FROM[s])
    ensures t == q + 2 ==> Outside(Xor(x[t], y[t]), FROM[s])
  {
    forall j | 0 <= j < 8 && !(8 * q + s <= 8 * t + j < 8 * q + s + 16) ensures HasBit(x[t], j) == HasBit(y[t], j) {
      SameOutside(x, y, 8 * q + s, t, j);
    }
    if t == q {
      FirstBitsSame(x[t], y[t], s);
    } else if t == q + 2 {
      LastBitsSame(x[t], y[t], s);
    } else if t != q + 1 {
      LastBitsSame(x[t], y[t], 0);
      AllBitsSame(x[t], y[t]);
    }
  }

  lemma SameBytes(b: bv8, m: bv8)
    ensures Within(Xor(b, b), m) && Outside(Xor(b, b), m)
  {
  }

  const PADDING: seq<bv8> := [0, 0]

  /** With two bytes more there is always a third byte, alike in both messages or at the end of the burst. */
  lemma PaddedBurst(x: seq<bv8>, y: seq<bv8>, q: nat, s: nat)
    requires s < 8 && DifferWithin(x, y, 8 * q + s) && q < |x|
    ensures var u, v := x + PADDING, y + PADDING;
            Burst(u[q..q + 3], v[q..q + 3], FROM[s]) && u[..q] == v[..q] && u[q + 3..] == v[q + 3..]
  {
    var u, v := x + PADDING, y + PADDING;
    forall t | 0 <= t < |x| && !(q <= t <= q + 2) ensures u[t] == v[t] {
      BytesDifferWithin(x, y, q, s, t);
    }
    BytesDifferWithin(x, y, q, s, q);
    FirstBitsSame(0, 0, s);
    if q + 2 < |x| {
      BytesDifferWithin(x, y, q, s, q + 2);
    } else {
      SameBytes(u[q + 2], FROM[s]);
    }
  }

  /**
   * A burst of up to sixteen bits, at any bit of a message of any length, changes the checksum: messages
   * that differ within sixteen bits have the same checksum only if they are the same.
   */
  lemma BurstDetected(x: seq<bv8>, y: seq<bv8>, at: nat)
    requires DifferWithin(x, y, at)
    ensures Crc16(x) == Crc16(y) <==> x == y
  {
    var q, s, u, v := at / 8, at % 8, x + PADDING, y + PADDING;
    if q >= |x| {
      forall t | 0 <= t < |x| ensures x[t] == y[t] {
        BytesDifferWithin(x, y, q, s, t);
      }
      assert x == y;
    } else if Crc16(x) == Crc16(y) {
      Crc16IsRunOfStep(x);
      Crc16IsRunOfStep(y);
      RunConcat(Step, INITIAL, x, PADDING);
      RunConcat(Step, INITIAL, y, PADDING);
      PaddedBurst(x, y, q, s);
      assert u == u[..q] + u[q..q + 3] + u[q + 3..] && v == v[..q] + v[q..q + 3] + v[q + 3..];
      BurstBack(INITIAL, u[..q], u[q..q + 3], v[q..q + 3], u[q + 3..], FROM[s]);
      assert x == u[..|x|] && y == v[..|x|];
    }
  }

  /** Sixteen is the most: the divisor itself, seventeen bits long, goes unnoticed. */
  lemma SeventeenBitsEscape()
    ensures Crc16([0x88, 0x10, 0x80]) == Crc16([0, 0, 0])
  {
    Crc16IsRunOfStep([0x88, 0x10, 0x80]);
    Crc16IsRunOfStep([0, 0, 0]);
    RunThree(Step, INITIAL, [0x88, 0x10, 0x80]);
    RunThree(Step, INITIAL, [0, 0, 0]);
  }

  /** The published check value of CRC-16/CCITT-FALSE: the checksum of the nine digits "123456789". */
  lemma CheckValue()
    ensures Crc16([0x31, 0x32, 0x33, 0x34, 0x35, 0x36, 0x37, 0x38, 0x39]) == 0x29b1
  {
    var a: seq<bv8>, b: seq<bv8>, c: seq<bv8> := [0x31, 0x32, 0x33], [0x34, 0x35, 0x36], [0x37, 0x38, 0x39];
    assert a + b + c == [0x31, 0x32, 0x33, 0x34, 0x35, 0x36, 0x37, 0x38, 0x39];
    Crc16IsRunOfStep(a + b + c);
    RunConcat(Step, INITIAL, a + b, c);
    RunConcat(Step, INITIAL, a, b);
    RunThree(Step, INITIAL, a);
    RunThree(Step, 0x5bce, b);
    RunThree(Step, 0x2ef4, c);
  }
}
