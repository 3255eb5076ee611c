/**
 * The MessagePack strings and binaries of the file-copy protocol (`prns-core/src/rncp.rs`,
 * `prns-napi/src/marshal.rs`).
 */
module MessagePack {
  import opened Bytes

  datatype CodecError = BufferTooShort | ValueTooLong | Malformed | InvalidUtf8

  // ----- big-endian lengths

  function Be16(n: int): (r: seq<Byte>)
    requires 0 <= n < U16_LIMIT
    ensures |r| == 2
  {
    [n / 0x100, n % 0x100]
  }

  function Be32(n: int): (r: seq<Byte>)
    requires 0 <= n < U32_LIMIT
    ensures |r| == 4
  {
    var le := Le32(n);
    [le[3], le[2], le[1], le[0]]
  }

  function ReadBe16(a: Byte, b: Byte): (n: nat)
    ensures n < U16_LIMIT
  {
    ReadLe16([b, a], 0)
  }

  function ReadBe32(a: Byte, b: Byte, c: Byte, d: Byte): (n: nat)
    ensures n < U32_LIMIT
  {
    ReadLe32([d, c, b, a], 0)
  }

  lemma Be16Exact(a: Byte, b: Byte, n: nat)
    requires n < U16_LIMIT
    ensures ReadBe16(a, b) == n <==> Be16(n) == [a, b]
  {
    var s: seq<Byte> := [b, a];
    Le16RoundTrip(s, 0, n);
    assert s[0..2] == s;
    if Le16(n) == s {
      assert Le16(n)[0] == b && Le16(n)[1] == a;
    }
    if Be16(n) == [a, b] {
      assert Be16(n)[0] == a && Be16(n)[1] == b;
    }
  }

  lemma Be32Exact(a: Byte, b: Byte, c: Byte, d: Byte, n: nat)
    requires n < U32_LIMIT
    ensures ReadBe32(a, b, c, d) == n <==> Be32(n) == [a, b, c, d]
  {
    var s, le := [d, c, b, a], Le32(n);
    Le32RoundTrip(s, 0, n);
    assert s[0..4] == s;
    if Be32(n) == [a, b, c, d] {
      assert Be32(n)[0] == a && Be32(n)[1] == b && Be32(n)[2] == c && Be32(n)[3] == d;
      assert le == s;
    }
    if le == s {
      assert le[0] == d && le[1] == c && le[2] == b && le[3] == a;
    }
  }

  // ----- writing

  /** The pieces the writers put one after another; a length beyond 32 bits has none. */
  function StringPieces(bytes: seq<Byte>): Option<seq<seq<Byte>>> {
    var n := |bytes|;
    if n <= 31 then Some([[0xa0 + n], bytes])
    else if n <= 255 then Some([[0xd9, n], bytes])
    else if n <= 65_535 then Some([[0xda], Be16(n), bytes])
    else if n < U32_LIMIT then Some([[0xdb], Be32(n), bytes])
    else None
  }

  function BinaryPieces(bytes: seq<Byte>): Option<seq<seq<Byte>>> {
    var n := |bytes|;
    if n <= 255 then Some([[0xc4, n], bytes])
    else if n <= 65_535 then Some([[0xc5], Be16(n), bytes])
    else if n < U32_LIMIT then Some([[0xc6], Be32(n), bytes])
    else None
  }

  function Joined(pieces: seq<seq<Byte>>): seq<Byte> {
    if pieces == [] then [] else pieces[0] + Joined(pieces[1..])
  }

  /** `put`: the buffer and the cursor, or the buffer as it was. */
  function Put(output: seq<Byte>, cursor: nat, bytes: seq<Byte>): (seq<Byte>, Result<nat, CodecError>) {
    if cursor + |bytes| > |output| then (output, Err(BufferTooShort))
    else (output[..cursor] + bytes + output[cursor + |bytes|..], Ok(cursor + |bytes|))
  }

  /** One `put` a piece; a failure leaves the pieces before it written. */
  function PutAll(output: seq<Byte>, cursor: nat, pieces: seq<seq<Byte>>): (seq<Byte>, Result<nat, CodecError>)
    decreases |pieces|
  {
    if pieces == [] then (output, Ok(cursor))
    else
      var (after, end) := Put(output, cursor, pieces[0]);
      if end.Err? then (after, end) else PutAll(after, end.value, pieces[1..])
  }

  function WriteAt(output: seq<Byte>, cursor: nat, pieces: Option<seq<seq<Byte>>>)
    : (seq<Byte>, Result<nat, CodecError>)
  {
    match pieces
    case None => (output, Err(ValueTooLong))
    case Some(ps) => PutAll(output, cursor, ps)
  }

  method PutBytes(output: array<Byte>, cursor: nat, bytes: seq<Byte>) returns (end: Result<nat, CodecError>)
    modifies output
    ensures (output[..], end) == Put(old(output[..]), cursor, bytes)
  {
    if cursor + |bytes| > output.Length {
      return Err(BufferTooShort);
    }
    ghost var was := output[..];
    forall k | 0 <= k < |bytes| {
      output[cursor + k] := bytes[k];
    }
    assert output[..] == was[..cursor] + bytes + was[cursor + |bytes|..];
    return Ok(cursor + |bytes|);
  }

  lemma PutFirst(output: seq<Byte>, cursor: nat, first: seq<Byte>, rest: seq<seq<Byte>>)
    ensures var (after, end) := Put(output, cursor, first);
            PutAll(output, cursor, [first] + rest) == if end.Err? then (after, end) else PutAll(after, end.value, rest)
  {
    assert ([first] + rest)[1..] == rest;
  }

  /** Two pieces, the second only after the first. */
  method PutTwo(output: array<Byte>, cursor: nat, first: seq<Byte>, second: seq<Byte>)
    returns (end: Result<nat, CodecError>)
    modifies output
    ensures (output[..], end) == PutAll(old(output[..]), cursor, [first, second])
  {
    PutFirst(output[..], cursor, first, [second]);
    assert [first] + [second] == [first, second];
    end := PutBytes(output, cursor, first);
    if end.Ok? {
      PutFirst(output[..], end.value, second, []);
      assert [second] + [] == [second];
      end := PutBytes(output, end.value, second);
    }
  }

  method PutThree(output: array<Byte>, cursor: nat, first: seq<Byte>, second: seq<Byte>, third: seq<Byte>)
    returns (end: Result<nat, CodecError>)
    modifies output
    ensures (output[..], end) == PutAll(old(output[..]), cursor, [first, second, third])
  {
    PutFirst(output[..], cursor, first, [second, third]);
    assert [first] + [second, third] == [first, second, third];
    end := PutBytes(output, cursor, first);
    if end.Ok? {
      end := PutTwo(output, end.value, second, third);
    }
  }

  method WriteString(bytes: seq<Byte>, output: array<Byte>) returns (end: Result<nat, CodecError>)
    modifies output
    ensures (output[..], end) == WriteAt(old(output[..]), 0, StringPieces(bytes))
  {
    var n := |bytes|;
    if n <= 31 {
      end := PutTwo(output, 0, [0xa0 + n], bytes);
    } else if n <= 255 {
      end := PutTwo(output, 0, [0xd9, n], bytes);
    } else if n <= 65_535 {
      end := PutThree(output, 0, [0xda], Be16(n), bytes);
    } else if n >= U32_LIMIT {
      end := Err(ValueTooLong);
    } else {
      end := PutThree(output, 0, [0xdb], Be32(n), bytes);
    }
  }

  method WriteBinaryAt(bytes: seq<Byte>, output: array<Byte>, cursor: nat) returns (end: Result<nat, CodecError>)
    modifies output
    ensures (output[..], end) == WriteAt(old(output[..]), cursor, BinaryPieces(bytes))
  {
    var n := |bytes|;
    if n <= 255 {
      end := PutTwo(output, cursor, [0xc4, n], bytes);
    } else if n <= 65_535 {
      end := PutThree(output, cursor, [0xc5], Be16(n), bytes);
    } else if n >= U32_LIMIT {
      end := Err(ValueTooLong);
    } else {
      end := PutThree(output, cursor, [0xc6], Be32(n), bytes);
    }
  }

  const METADATA_PREFIX: seq<Byte> := [0x81, 0xa4, 0x6e, 0x61, 0x6d, 0x65]

  function WriteMetadata(output: seq<Byte>, name: seq<Byte>): (seq<Byte>, Result<nat, CodecError>) {
    var (after, cursor) := Put(output, 0, METADATA_PREFIX);
    if cursor.Err? then (after, cursor) else WriteAt(after, cursor.value, BinaryPieces(name))
  }

  method WriteFileMetadata(name: seq<Byte>, output: array<Byte>) returns (end: Result<nat, CodecError>)
    modifies output
    ensures (output[..], end) == WriteMetadata(old(output[..]), name)
  {
    end := PutBytes(output, 0, METADATA_PREFIX);
    if end.Ok? {
      end := WriteBinaryAt(name, output, end.value);
    }
  }

  // ----- parsing

  /** Where the value starts and how long it is. */
  datatype Frame = Frame(offset: nat, len: nat)

  function StringFrame(input: seq<Byte>): Result<Frame, CodecError> {
    if input == [] then Err(Malformed)
    else if 0xa0 <= input[0] <= 0xbf then Ok(Frame(1, input[0] - 0xa0))
    else if input[0] == 0xd9 then if |input| < 2 then Err(Malformed) else Ok(Frame(2, input[1]))
    else if input[0] == 0xda then if |input| < 3 then Err(Malformed) else Ok(Frame(3, ReadBe16(input[1], input[2])))
    else if input[0] == 0xdb then
      if |input| < 5 then Err(Malformed) else Ok(Frame(5, ReadBe32(input[1], input[2], input[3], input[4])))
    else Err(Malformed)
  }

  function BinaryFrame(input: seq<Byte>): Result<Frame, CodecError> {
    if input == [] then Err(Malformed)
    else if input[0] == 0xc4 then if |input| < 2 then Err(Malformed) else Ok(Frame(2, input[1]))
    else if input[0] == 0xc5 then if |input| < 3 then Err(Malformed) else Ok(Frame(3, ReadBe16(input[1], input[2])))
    else if input[0] == 0xc6 then
      if |input| < 5 then Err(Malformed) else Ok(Frame(5, ReadBe32(input[1], input[2], input[3], input[4])))
    else Err(Malformed)
  }

  function Cut(input: seq<Byte>, frame: Result<Frame, CodecError>): Result<(seq<Byte>, nat), CodecError> {
    match frame
    case Err(e) => Err(e)
    case Ok(Frame(offset, len)) =>
      if offset + len > |input| then Err(Malformed) else Ok((input[offset..offset + len], offset + len))
  }

  function ParseString(input: seq<Byte>): Result<(seq<Byte>, nat), CodecError> {
    Cut(input, StringFrame(input))
  }

  function ParseBinary(input: seq<Byte>): Result<(seq<Byte>, nat), CodecError> {
    Cut(input, BinaryFrame(input))
  }

  /** `core::str::from_utf8`, which may refuse. */
  type Utf8 = seq<Byte> -> Option<string>

  function ParseFetchPath(utf8: Utf8, input: seq<Byte>): Result<string, CodecError> {
    match ParseString(input)
    case Err(e) => Err(e)
    case Ok((bytes, consumed)) =>
      if consumed != |input| then Err(Malformed)
      else if utf8(bytes).None? then Err(InvalidUtf8)
      else Ok(utf8(bytes).value)
  }

  function ParseFileMetadata(input: seq<Byte>): Result<seq<Byte>, CodecError> {
    if !(METADATA_PREFIX <= input) then Err(Malformed)
    else
      match ParseBinary(input[6..])
      case Err(e) => Err(e)
      case Ok((name, consumed)) => if consumed + 6 != |input| then Err(Malformed) else Ok(name)
  }

  /** `unwrap_packed_binary`. */
  function Unwrap(packed: seq<Byte>): Option<seq<Byte>> {
    if |packed| >= 2 && packed[0] == 0xc4 && |packed| - 2 == packed[1] then Some(packed[2..])
    else if |packed| >= 3 && packed[0] == 0xc5 && |packed| - 3 == ReadBe16(packed[1], packed[2]) then Some(packed[3..])
    else if |packed| >= 5 && packed[0] == 0xc6 && |packed| - 5 == ReadBe32(packed[1], packed[2], packed[3], packed[4])
      then Some(packed[5..])
    else None
  }
}
