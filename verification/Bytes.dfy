/** Octets and the fixed-width integers stored in them, shared by every wire and flash format below. */
module Bytes {
  type Byte = b: int | 0 <= b < 0x100

  const U16_LIMIT := 0x1_0000
  const U32_LIMIT := 0x1_0000_0000

  datatype Option<+T> = None | Some(value: T)

  datatype Result<+T, +E> = Ok(value: T) | Err(error: E)

  /** `to_le_bytes` of a `u16`. */
  function Le16(n: int): seq<Byte>
    requires 0 <= n < U16_LIMIT
  {
    [n % 0x100, n / 0x100]
  }

  /** `to_le_bytes` of a `u32`. */
  function Le32(n: int): seq<Byte>
    requires 0 <= n < U32_LIMIT
  {
    [n % 0x100, n / 0x100 % 0x100, n / 0x1_0000 % 0x100, n / 0x100_0000]
  }

  /** `from_le_bytes` of the two bytes at `at`. */
  function ReadLe16(s: seq<Byte>, at: nat): (n: int)
    requires at + 2 <= |s|
    ensures 0 <= n < U16_LIMIT
  {
    var a: int, b: int := s[at], s[at + 1];
    a + 0x100 * b
  }

  /** `from_le_bytes` of the four bytes at `at`. */
  function ReadLe32(s: seq<Byte>, at: nat): (n: int)
    requires at + 4 <= |s|
    ensures 0 <= n < U32_LIMIT
  {
    var a: int, b: int, c: int, d: int := s[at], s[at + 1], s[at + 2], s[at + 3];
    a + 0x100 * b + 0x1_0000 * c + 0x100_0000 * d
  }

  lemma SplitLow(low: int, high: int)
    requires 0 <= low < 0x100
    ensures (low + 0x100 * high) % 0x100 == low && (low + 0x100 * high) / 0x100 == high
  {
  }

  lemma Halved(n: int)
    requires 0 <= n
    ensures n / 0x100 / 0x100 == n / 0x1_0000 && n / 0x1_0000 / 0x100 == n / 0x100_0000
  {
  }

  /** Reading and writing little-endian words are inverse, whatever surrounds the word. */
  lemma Le32RoundTrip(s: seq<Byte>, at: nat, n: int)
    requires at + 4 <= |s| && 0 <= n < U32_LIMIT
    ensures ReadLe32(s, at) == n <==> s[at..at + 4] == Le32(n)
  {
    var w := s[at..at + 4];
    assert w == [s[at], s[at + 1], s[at + 2], s[at + 3]];
    Halved(n);
    if ReadLe32(s, at) == n {
      ReadThenWrite(s[at], s[at + 1], s[at + 2], s[at + 3]);
    }
    if w == Le32(n) {
      assert w[0] == s[at] && w[1] == s[at + 1] && w[2] == s[at + 2] && w[3] == s[at + 3];
      WriteThenRead(n);
    }
  }

  lemma ReadThenWrite(a: int, b: int, c: int, d: int)
    requires 0 <= a < 0x100 && 0 <= b < 0x100 && 0 <= c < 0x100 && 0 <= d < 0x100
    ensures Le32(a + 0x100 * b + 0x1_0000 * c + 0x100_0000 * d) == [a, b, c, d]
  {
    var n := a + 0x100 * (b + 0x100 * (c + 0x100 * d));
    Halved(n);
    SplitLow(a, b + 0x100 * (c + 0x100 * d));
    SplitLow(b, c + 0x100 * d);
    SplitLow(c, d);
  }

  lemma WriteThenRead(n: int)
    requires 0 <= n < U32_LIMIT
    ensures n == n % 0x100 + 0x100 * (n / 0x100 % 0x100) + 0x1_0000 * (n / 0x1_0000 % 0x100)
          + 0x100_0000 * (n / 0x100_0000)
  {
    Halved(n);
  }

  lemma Le16RoundTrip(s: seq<Byte>, at: nat, n: int)
    requires at + 2 <= |s| && 0 <= n < U16_LIMIT
    ensures ReadLe16(s, at) == n <==> s[at..at + 2] == Le16(n)
  {
    var w := s[at..at + 2];
    assert w == [s[at], s[at + 1]];
    assert w[0] == s[at] && w[1] == s[at + 1];
  }

  /** The part lies in the bytes, starting there. */
  predicate HoldsAt(b: seq<Byte>, at: nat, part: seq<Byte>) {
    at + |part| <= |b| && b[at..at + |part|] == part
  }

  lemma HoldsConcat(b: seq<Byte>, at: nat, x: seq<Byte>, y: seq<Byte>)
    ensures HoldsAt(b, at, x + y) <==> HoldsAt(b, at, x) && HoldsAt(b, at + |x|, y)
  {
    if HoldsAt(b, at, x + y) {
      var w := b[at..at + |x + y|];
      assert w[..|x|] == b[at..at + |x|] && w[|x|..] == b[at + |x|..at + |x| + |y|];
      assert (x + y)[..|x|] == x && (x + y)[|x|..] == y;
    }
    if HoldsAt(b, at, x) && HoldsAt(b, at + |x|, y) {
      assert b[at..at + |x + y|] == b[at..at + |x|] + b[at + |x|..at + |x| + |y|];
    }
  }
}
