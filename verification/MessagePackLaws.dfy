/** Every length class round-trips, encodings end themselves, and the two binary readers agree. */
module MessagePackLaws {
  import opened Bytes
  import opened MessagePack

  // ----- the format

  /** Every header that announces a string of this length; the writers use the shortest. */
  predicate StringHeader(h: seq<Byte>, n: nat) {
    || (n <= 31 && h == [0xa0 + n])
    || (n <= 255 && h == [0xd9, n])
    || (n < U16_LIMIT && h == [0xda] + Be16(n))
    || (n < U32_LIMIT && h == [0xdb] + Be32(n))
  }

  predicate BinaryHeader(h: seq<Byte>, n: nat) {
    || (n <= 255 && h == [0xc4, n])
    || (n < U16_LIMIT && h == [0xc5] + Be16(n))
    || (n < U32_LIMIT && h == [0xc6] + Be32(n))
  }

  function EncodeString(bytes: seq<Byte>): (r: seq<Byte>)
    requires |bytes| < U32_LIMIT
  {
    Joined(StringPieces(bytes).value)
  }

  function EncodeBinary(bytes: seq<Byte>): (r: seq<Byte>)
    requires |bytes| < U32_LIMIT
  {
    Joined(BinaryPieces(bytes).value)
  }

  lemma JoinedTwo(a: seq<Byte>, b: seq<Byte>)
    ensures Joined([a, b]) == a + b
  {
    assert [b][1..] == [] && b + [] == b;
    assert Joined([b]) == b;
    assert [a, b][1..] == [b];
  }

  lemma JoinedThree(a: seq<Byte>, b: seq<Byte>, c: seq<Byte>)
    ensures Joined([a, b, c]) == a + b + c
  {
    assert [a, b, c][1..] == [b, c];
    JoinedTwo(b, c);
    assert a + (b + c) == a + b + c;
  }

  /** The header the string writer picks. */
  lemma StringEncoding(bytes: seq<Byte>) returns (h: seq<Byte>)
    requires |bytes| < U32_LIMIT
    ensures StringHeader(h, |bytes|) && EncodeString(bytes) == h + bytes
  {
    var n := |bytes|;
    if n <= 31 {
      h := [0xa0 + n];
      JoinedTwo(h, bytes);
    } else if n <= 255 {
      h := [0xd9, n];
      JoinedTwo(h, bytes);
    } else if n <= 65_535 {
      h := [0xda] + Be16(n);
      JoinedThree([0xda], Be16(n), bytes);
    } else {
      h := [0xdb] + Be32(n);
      JoinedThree([0xdb], Be32(n), bytes);
    }
  }

  lemma BinaryEncoding(bytes: seq<Byte>) returns (h: seq<Byte>)
    requires |bytes| < U32_LIMIT
    ensures BinaryHeader(h, |bytes|) && EncodeBinary(bytes) == h + bytes
  {
    var n := |bytes|;
    if n <= 255 {
      h := [0xc4, n];
      JoinedTwo(h, bytes);
    } else if n <= 65_535 {
      h := [0xc5] + Be16(n);
      JoinedThree([0xc5], Be16(n), bytes);
    } else {
      h := [0xc6] + Be32(n);
      JoinedThree([0xc6], Be32(n), bytes);
    }
  }

  // ----- headers are read exactly

  lemma Marked16(marker: Byte, input: seq<Byte>, n: nat)
    requires |input| >= 3 && n < U16_LIMIT
    ensures input[0] == marker && ReadBe16(input[1], input[2]) == n <==> input[..3] == [marker] + Be16(n)
  {
    Be16Exact(input[1], input[2], n);
    assert input[..3] == [input[0]] + [input[1], input[2]];
    if input[..3] == [marker] + Be16(n) {
      assert input[..3][0] == marker && input[..3][1..] == Be16(n);
      assert input[..3][1..] == [input[1], input[2]];
    }
  }

  lemma Marked32(marker: Byte, input: seq<Byte>, n: nat)
    requires |input| >= 5 && n < U32_LIMIT
    ensures input[0] == marker && ReadBe32(input[1], input[2], input[3], input[4]) == n
       <==> input[..5] == [marker] + Be32(n)
  {
    Be32Exact(input[1], input[2], input[3], input[4], n);
    assert input[..5] == [input[0]] + [input[1], input[2], input[3], input[4]];
    if input[..5] == [marker] + Be32(n) {
      assert input[..5][0] == marker && input[..5][1..] == Be32(n);
      assert input[..5][1..] == [input[1], input[2], input[3], input[4]];
    }
  }

  lemma BinaryFrameExact(input: seq<Byte>, f: Frame)
    ensures BinaryFrame(input) == Ok(f) <==> f.offset <= |input| && BinaryHeader(input[..f.offset], f.len)
  {
    if |input| >= 3 && f.len < U16_LIMIT {
      Marked16(0xc5, input, f.len);
    }
    if |input| >= 5 && f.len < U32_LIMIT {
      Marked32(0xc6, input, f.len);
    }
    if |input| >= 2 && f.len <= 255 {
      assert input[..2] == [input[0], input[1]];
      assert input[..2] == [0xc4, f.len] ==> input[..2][0] == 0xc4 && input[..2][1] == f.len;
    }
  }

  lemma StringFrameExact(input: seq<Byte>, f: Frame)
    ensures StringFrame(input) == Ok(f) <==> f.offset <= |input| && StringHeader(input[..f.offset], f.len)
  {
    if |input| >= 3 && f.len < U16_LIMIT {
      Marked16(0xda, input, f.len);
    }
    if |input| >= 5 && f.len < U32_LIMIT {
      Marked32(0xdb, input, f.len);
    }
    if |input| >= 2 && f.len <= 255 {
      assert input[..2] == [input[0], input[1]];
      assert input[..2] == [0xd9, f.len] ==> input[..2][0] == 0xd9 && input[..2][1] == f.len;
    }
    if |input| >= 1 && f.len <= 31 {
      assert input[..1] == [input[0]];
      assert input[..1] == [0xa0 + f.len] ==> input[..1][0] == 0xa0 + f.len;
    }
  }

  // ----- values are read exactly

  /** A value behind one of its headers: the two readings differ in the headers they know. */
  predicate Begins(header: (seq<Byte>, nat) -> bool, input: seq<Byte>, value: seq<Byte>, end: nat) {
    && |value| <= end <= |input|
    && header(input[..end - |value|], |value|) && input[end - |value|..end] == value
  }

  predicate FrameAt(header: (seq<Byte>, nat) -> bool, frame: Result<Frame, CodecError>, input: seq<Byte>, f: Frame) {
    frame == Ok(f) <==> f.offset <= |input| && header(input[..f.offset], f.len)
  }

  lemma CutExact(
    header: (seq<Byte>, nat) -> bool, frame: Result<Frame, CodecError>, input: seq<Byte>, value: seq<Byte>, end: nat)
    requires forall f :: FrameAt(header, frame, input, f)
    requires frame.Err? ==> frame.error == Malformed
    ensures Cut(input, frame) == Ok((value, end)) <==> Begins(header, input, value, end)
    ensures Cut(input, frame).Err? ==> Cut(input, frame).error == Malformed
  {
    if frame.Ok? {
      assert FrameAt(header, frame, input, frame.value);
    }
    if |value| <= end {
      assert FrameAt(header, frame, input, Frame(end - |value|, |value|));
    }
  }

  /**
   * The parser accepts exactly a known header with as many bytes behind it as it announces, whatever follows, and
   * calls everything else malformed.
   */
  lemma ParseStringExact(input: seq<Byte>, value: seq<Byte>, end: nat)
    ensures ParseString(input) == Ok((value, end)) <==> Begins(StringHeader, input, value, end)
    ensures ParseString(input).Err? ==> ParseString(input) == Err(Malformed)
  {
    forall f ensures FrameAt(StringHeader, StringFrame(input), input, f) {
      StringFrameExact(input, f);
    }
    CutExact(StringHeader, StringFrame(input), input, value, end);
  }

  lemma ParseBinaryExact(input: seq<Byte>, value: seq<Byte>, end: nat)
    ensures ParseBinary(input) == Ok((value, end)) <==> Begins(BinaryHeader, input, value, end)
    ensures ParseBinary(input).Err? ==> ParseBinary(input) == Err(Malformed)
  {
    forall f ensures FrameAt(BinaryHeader, BinaryFrame(input), input, f) {
      BinaryFrameExact(input, f);
    }
    CutExact(BinaryHeader, BinaryFrame(input), input, value, end);
  }

  lemma BeginsWith(header: (seq<Byte>, nat) -> bool, h: seq<Byte>, value: seq<Byte>, suffix: seq<Byte>)
    requires header(h, |value|)
    ensures Begins(header, h + value + suffix, value, |h + value|)
  {
    var input := h + value + suffix;
    assert input[..|h|] == h && input[|h|..|h + value|] == value;
  }

  /** Every string of up to 32 bits of length round-trips, and its encoding ends itself. */
  lemma StringRoundTrip(bytes: seq<Byte>, suffix: seq<Byte>)
    requires |bytes| < U32_LIMIT
    ensures ParseString(EncodeString(bytes) + suffix) == Ok((bytes, |EncodeString(bytes)|))
  {
    var h := StringEncoding(bytes);
    BeginsWith(StringHeader, h, bytes, suffix);
    ParseStringExact(h + bytes + suffix, bytes, |h + bytes|);
  }

  lemma BinaryRoundTrip(bytes: seq<Byte>, suffix: seq<Byte>)
    requires |bytes| < U32_LIMIT
    ensures ParseBinary(EncodeBinary(bytes) + suffix) == Ok((bytes, |EncodeBinary(bytes)|))
  {
    var h := BinaryEncoding(bytes);
    BeginsWith(BinaryHeader, h, bytes, suffix);
    ParseBinaryExact(h + bytes + suffix, bytes, |h + bytes|);
  }

  // ----- writing

  /** The puts succeed if and only if everything fits; then they write everything and nothing else. */
  lemma {:induction false} PutAllExact(output: seq<Byte>, cursor: nat, pieces: seq<seq<Byte>>)
    requires cursor <= |output|
    ensures var (after, end) := PutAll(output, cursor, pieces);
            if cursor + |Joined(pieces)| <= |output|
            then end == Ok(cursor + |Joined(pieces)|) &&
                 after == output[..cursor] + Joined(pieces) + output[cursor + |Joined(pieces)|..]
            else end == Err(BufferTooShort)
    decreases |pieces|
  {
    if pieces == [] {
      assert output[..cursor] + [] + output[cursor..] == output;
    } else if cursor + |pieces[0]| <= |output| {
      var first, rest := pieces[0], pieces[1..];
      var (after, end) := Put(output, cursor, first);
      PutFirst(output, cursor, first, rest);
      assert pieces == [first] + rest && Joined(pieces) == first + Joined(rest);
      WrittenTogether(output, cursor, first, Joined(rest));
      PutAllExact(after, end.value, rest);
    }
  }

  lemma WrittenTogether(output: seq<Byte>, cursor: nat, first: seq<Byte>, rest: seq<Byte>)
    requires cursor + |first| <= |output|
    ensures var after, end := output[..cursor] + first + output[cursor + |first|..], cursor + |first|;
            && |after| == |output|
            && (end + |rest| <= |output| ==>
                  after[..end] + rest + after[end + |rest|..]
                  == output[..cursor] + (first + rest) + output[cursor + |first + rest|..])
  {
    var after, end := output[..cursor] + first + output[cursor + |first|..], cursor + |first|;
    assert after[..end] == output[..cursor] + first;
    if end + |rest| <= |output| {
      assert after[end + |rest|..] == output[end + |rest|..];
      assert output[..cursor] + first + rest == output[..cursor] + (first + rest);
    }
  }

  /** Writing a string fails exactly when it is too long to announce or the buffer is too short. */
  lemma WriteStringExact(output: seq<Byte>, bytes: seq<Byte>)
    ensures var (after, end) := WriteAt(output, 0, StringPieces(bytes));
            if |bytes| >= U32_LIMIT then end == Err(ValueTooLong) && after == output
            else if |EncodeString(bytes)| > |output| then end == Err(BufferTooShort)
            else end == Ok(|EncodeString(bytes)|) && after == EncodeString(bytes) + output[|EncodeString(bytes)|..]
  {
    if |bytes| < U32_LIMIT {
      PutAllExact(output, 0, StringPieces(bytes).value);
      assert [] + EncodeString(bytes) == EncodeString(bytes);
    }
  }

  /** The start of a map with one entry, and its key `name`. */
  function MapOfName(): (r: seq<Byte>)
    ensures |r| == 6
  {
    [0x81] + EncodeString([0x6e, 0x61, 0x6d, 0x65])
  }

  function EncodeMetadata(name: seq<Byte>): seq<Byte>
    requires |name| < U32_LIMIT
  {
    MapOfName() + EncodeBinary(name)
  }

  lemma PrefixIsMapOfName()
    ensures METADATA_PREFIX == MapOfName()
  {
  }

  /**
   * Writing metadata fails exactly when the buffer is too short or the name too long to announce; a
   * buffer that cannot hold the prefix is the first thing noticed.
   */
  lemma WriteMetadataExact(output: seq<Byte>, name: seq<Byte>)
    ensures var (after, end) := WriteMetadata(output, name);
            if |output| < 6 then end == Err(BufferTooShort) && after == output
            else if |name| >= U32_LIMIT then end == Err(ValueTooLong) && after == MapOfName() + output[6..]
            else if |EncodeMetadata(name)| > |output| then end == Err(BufferTooShort)
            else end == Ok(|EncodeMetadata(name)|) && after == EncodeMetadata(name) + output[|EncodeMetadata(name)|..]
  {
    PrefixIsMapOfName();
    if |METADATA_PREFIX| <= |output| {
      var (after, cursor) := Put(output, 0, METADATA_PREFIX);
      assert output[..0] + METADATA_PREFIX == METADATA_PREFIX;
      if |name| < U32_LIMIT {
        PutAllExact(after, cursor.value, BinaryPieces(name).value);
        WrittenTogether(output, 0, METADATA_PREFIX, EncodeBinary(name));
        assert output[..0] + (METADATA_PREFIX + EncodeBinary(name)) == EncodeMetadata(name);
      }
    }
  }

  // ----- whole messages

  /** A fetch path reads back as the text its bytes decode to. */
  lemma FetchPathRoundTrip(utf8: Utf8, bytes: seq<Byte>, path: string)
    requires |bytes| < U32_LIMIT && utf8(bytes) == Some(path)
    ensures ParseFetchPath(utf8, EncodeString(bytes)) == Ok(path)
  {
    StringRoundTrip(bytes, []);
    assert EncodeString(bytes) + [] == EncodeString(bytes);
  }

  /** A whole string and nothing else, of which only the decoding of its text may be refused. */
  lemma FetchPathExact(utf8: Utf8, input: seq<Byte>)
    ensures (forall bytes :: !Begins(StringHeader, input, bytes, |input|)) ==>
              ParseFetchPath(utf8, input) == Err(Malformed)
    ensures forall bytes :: Begins(StringHeader, input, bytes, |input|) ==>
              ParseFetchPath(utf8, input) == if utf8(bytes).Some? then Ok(utf8(bytes).value) else Err(InvalidUtf8)
  {
    forall bytes
      ensures ParseString(input) == Ok((bytes, |input|)) <==> Begins(StringHeader, input, bytes, |input|)
    {
      ParseStringExact(input, bytes, |input|);
    }
    ParseStringExact(input, [], 0);
  }

  /** File metadata is nothing but a map of `name` to one whole binary, and everything else is malformed. */
  lemma MetadataExact(input: seq<Byte>, name: seq<Byte>)
    ensures ParseFileMetadata(input) == Ok(name) <==>
            MapOfName() <= input && Begins(BinaryHeader, input[6..], name, |input| - 6)
    ensures ParseFileMetadata(input).Err? ==> ParseFileMetadata(input) == Err(Malformed)
  {
    PrefixIsMapOfName();
    if METADATA_PREFIX <= input {
      ParseBinaryExact(input[6..], name, |input| - 6);
    }
  }

  lemma MetadataRoundTrip(name: seq<Byte>)
    requires |name| < U32_LIMIT
    ensures ParseFileMetadata(EncodeMetadata(name)) == Ok(name)
  {
    BinaryRoundTrip(name, []);
    PrefixIsMapOfName();
    assert EncodeMetadata(name)[6..] == EncodeBinary(name) + [];
  }

  /** The unwrapper succeeds exactly when the parser consumes the whole input, with the same value. */
  lemma UnwrapAgrees(packed: seq<Byte>, value: seq<Byte>)
    ensures Unwrap(packed) == Some(value) <==> ParseBinary(packed) == Ok((value, |packed|))
  {
    assert |packed| >= 2 ==> packed[2..|packed|] == packed[2..];
    assert |packed| >= 3 ==> packed[3..|packed|] == packed[3..];
    assert |packed| >= 5 ==> packed[5..|packed|] == packed[5..];
  }
}
