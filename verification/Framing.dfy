/**
 * Reliable frames and acknowledgements of the Nordic serial link (`prns-nrf-dfu/src/framing.rs`).
 * The four-byte header is that of section 4 of Bluetooth Core Specification Vol 4 Part D; its bit
 * fields do not overlap, so the source's shifts and ors are written as sums.
 */
module Framing {
  import opened Bytes
  import opened Slip
  import Crc

  const HEADER_BYTES := 4
  const CRC_BYTES := 2
  const MAX_PAYLOAD_BYTES := 0x0fff
  const PACKET_TYPE_ACKNOWLEDGEMENT := 0
  const PACKET_TYPE_VENDOR_SPECIFIC := 14
  const DATA_INTEGRITY_PRESENT := 0x40
  const RELIABLE_PACKET := 0x80
  const SEQUENCE_MODULUS := 8
  const INITIAL_SEQUENCE_NUMBER := 1

  // ----- sending

  datatype EncodedFrame = EncodedFrame(sequenceNumber: nat, expectedAcknowledgement: nat, bytes: seq<Byte>)

  datatype FrameEncodeError = PayloadTooLong(actual: nat, maximum: nat)

  function Octets(s: seq<Byte>): seq<bv8> {
    seq(|s|, i requires 0 <= i < |s| => s[i] as bv8)
  }

  /** The checksum as it is sent, low byte first. */
  function CrcBytes(s: seq<Byte>): (r: seq<Byte>)
    ensures |r| == CRC_BYTES
  {
    Le16(Crc.Crc16(Octets(s)) as int)
  }

  function Header(sequence: nat, acknowledgement: nat, length: nat): (r: seq<Byte>)
    requires sequence < SEQUENCE_MODULUS && acknowledgement < SEQUENCE_MODULUS && length <= MAX_PAYLOAD_BYTES
    ensures |r| == HEADER_BYTES
  {
    var a := sequence + 8 * acknowledgement + DATA_INTEGRITY_PRESENT + RELIABLE_PACKET;
    var b := PACKET_TYPE_VENDOR_SPECIFIC + 16 * (length % 16);
    var c := length / 16;
    [a, b, c, -(a + b + c) % 0x100]
  }

  /** Header, payload and checksum, before stuffing. */
  function Packed(sequence: nat, payload: seq<Byte>): seq<Byte>
    requires sequence < SEQUENCE_MODULUS && |payload| <= MAX_PAYLOAD_BYTES
  {
    var covered := Header(sequence, (sequence + 1) % SEQUENCE_MODULUS, |payload|) + payload;
    covered + CrcBytes(covered)
  }

  function Frame(sequence: nat, payload: seq<Byte>): EncodedFrame
    requires sequence < SEQUENCE_MODULUS && |payload| <= MAX_PAYLOAD_BYTES
  {
    EncodedFrame(sequence, (sequence + 1) % SEQUENCE_MODULUS, [END] + Escape(Packed(sequence, payload)) + [END])
  }

  class ReliableFrameEncoder {
    var nextSequenceNumber: nat
    ghost var encoded: nat  // frames produced so far

    ghost predicate Valid()
      reads this
    {
      nextSequenceNumber == (INITIAL_SEQUENCE_NUMBER + encoded) % SEQUENCE_MODULUS
    }

    constructor ()
      ensures Valid() && encoded == 0
    {
      nextSequenceNumber := INITIAL_SEQUENCE_NUMBER;
      encoded := 0;
    }

    /** The n-th frame carries sequence (1 + n) mod 8; a payload that is too long changes nothing. */
    method Encode(payload: seq<Byte>) returns (r: Result<EncodedFrame, FrameEncodeError>)
      requires Valid()
      modifies this
      ensures Valid()
      ensures |payload| > MAX_PAYLOAD_BYTES ==>
                r == Err(PayloadTooLong(|payload|, MAX_PAYLOAD_BYTES)) && encoded == old(encoded)
                && nextSequenceNumber == old(nextSequenceNumber)
      ensures |payload| <= MAX_PAYLOAD_BYTES ==>
                r == Ok(Frame((1 + old(encoded)) % SEQUENCE_MODULUS, payload)) && encoded == old(encoded) + 1
    {
      if |payload| > MAX_PAYLOAD_BYTES {
        return Err(PayloadTooLong(|payload|, MAX_PAYLOAD_BYTES));
      }
      var sequenceNumber := nextSequenceNumber;
      var expected := (sequenceNumber + 1) % SEQUENCE_MODULUS;
      nextSequenceNumber := expected;
      encoded := encoded + 1;
      assert expected == (2 + old(encoded)) % SEQUENCE_MODULUS by { NextSequence(old(encoded)); }

      var unescaped := BuildHeader(sequenceNumber, expected, |payload|);
      unescaped := unescaped + payload;
      var checksum := Crc.FirmwareCrc(Octets(unescaped));
      unescaped := unescaped + Le16(checksum as int);

      var bytes := Stuff(unescaped);
      return Ok(EncodedFrame(sequenceNumber, expected, bytes));
    }
  }

  lemma NextSequence(n: nat)
    ensures ((1 + n) % SEQUENCE_MODULUS + 1) % SEQUENCE_MODULUS == (2 + n) % SEQUENCE_MODULUS
  {
  }

  method BuildHeader(sequence: nat, acknowledgement: nat, length: nat) returns (unescaped: seq<Byte>)
    requires sequence < SEQUENCE_MODULUS && acknowledgement < SEQUENCE_MODULUS && length <= MAX_PAYLOAD_BYTES
    ensures unescaped == Header(sequence, acknowledgement, length)
  {
    unescaped := [sequence + 8 * acknowledgement + DATA_INTEGRITY_PRESENT + RELIABLE_PACKET];
    unescaped := unescaped + [PACKET_TYPE_VENDOR_SPECIFIC + 16 * (length % 16)];
    unescaped := unescaped + [length / 16];
    var sum: int := unescaped[0] as int + unescaped[1] as int + unescaped[2] as int;
    unescaped := unescaped + [-sum % 0x100];
  }

  /** Delimits and escapes one packet. */
  method Stuff(unescaped: seq<Byte>) returns (bytes: seq<Byte>)
    ensures bytes == [END] + Escape(unescaped) + [END]
  {
    bytes := [END];
    for i := 0 to |unescaped|
      invariant bytes == [END] + Escape(unescaped[..i])
    {
      EscapeSnoc(unescaped[..i], unescaped[i]);
      assert unescaped[..i + 1] == unescaped[..i] + [unescaped[i]];
      bytes := bytes + EscapeByte(unescaped[i]);
    }
    assert unescaped[..|unescaped|] == unescaped;
    bytes := bytes + [END];
  }

  lemma {:induction false} EscapeSnoc(s: seq<Byte>, b: Byte)
    ensures Escape(s + [b]) == Escape(s) + EscapeByte(b)
  {
    if s == [] {
      assert s + [b] == [b] && [b][1..] == [];
    } else {
      assert (s + [b])[1..] == s[1..] + [b];
      EscapeSnoc(s[1..], b);
    }
  }

  /** What a receiver reads out of one frame. */
  datatype Packet = Packet(
    sequence: nat, acknowledgement: nat, integrity: bool, reliable: bool, kind: nat, payload: seq<Byte>)

  function ByteSum(s: seq<Byte>): int {
    if s == [] then 0 else s[0] as int + ByteSum(s[1..])
  }

  /** The receiving side: END at both edges only, unstuffed, header and checksum verified. */
  function Receive(bytes: seq<Byte>): Option<Packet> {
    if |bytes| < 2 || bytes[0] != 0xc0 || bytes[|bytes| - 1] != 0xc0 || 0xc0 in bytes[1..|bytes| - 1] then None
    else
      match Unescape(bytes[1..|bytes| - 1])
      case Dangling(_) => None
      case Invalid(_, _) => None
      case Whole(d) =>
        if |d| < 6 || ByteSum(d[..4]) % 0x100 != 0 then None
        else
          var length := d[1] as int / 16 + 16 * d[2] as int;
          var covered, checksum := d[..|d| - 2], d[|d| - 2] as int + 0x100 * d[|d| - 1] as int;
          if |d| != length + 6 || checksum != Crc.Crc16(Octets(covered)) as int then None
          else Some(Packet(d[0] as int % 8, d[0] as int / 8 % 8, d[0] as int / 64 % 2 == 1, d[0] >= 128,
                           d[1] as int % 16, covered[4..]))
  }

  /** Every frame is received as exactly what was sent, and END marks nothing but its edges. */
  lemma FrameIsReceived(sequence: nat, payload: seq<Byte>)
    requires sequence < SEQUENCE_MODULUS && |payload| <= MAX_PAYLOAD_BYTES
    ensures Receive(Frame(sequence, payload).bytes)
         == Some(Packet(sequence, (sequence + 1) % 8, true, true, 14, payload))
    ensures var bytes := Frame(sequence, payload).bytes;
            forall i :: 0 <= i < |bytes| ==> (bytes[i] == 0xc0 <==> i == 0 || i == |bytes| - 1)
  {
    var d := Packed(sequence, payload);
    var ack := (sequence + 1) % SEQUENCE_MODULUS;
    var header := Header(sequence, ack, |payload|);
    var bytes := Frame(sequence, payload).bytes;
    assert bytes[1..|bytes| - 1] == Escape(d);
    UnescapeInvertsEscape(d);
    assert d[..HEADER_BYTES] == header;
    HeaderChecks(sequence, ack, |payload|);
    assert d[..|d| - CRC_BYTES] == header + payload;
    assert (header + payload)[HEADER_BYTES..] == payload;
    assert d[0] == header[0] && d[1] == header[1] && d[2] == header[2];
    ChecksumAtEnd(d, header + payload);
    forall i | 0 <= i < |bytes| ensures bytes[i] == END <==> i == 0 || i == |bytes| - 1 {
      if 0 < i < |bytes| - 1 {
        assert bytes[i] == bytes[1..|bytes| - 1][i - 1];
      }
    }
  }

  lemma ChecksumAtEnd(d: seq<Byte>, covered: seq<Byte>)
    requires d == covered + CrcBytes(covered)
    ensures d[|d| - 2] as int + 0x100 * d[|d| - 1] as int == Crc.Crc16(Octets(covered)) as int
  {
    assert d[|d| - 2] == CrcBytes(covered)[0] && d[|d| - 1] == CrcBytes(covered)[1];
  }

  lemma HeaderChecks(sequence: nat, acknowledgement: nat, length: nat)
    requires sequence < SEQUENCE_MODULUS && acknowledgement < SEQUENCE_MODULUS && length <= MAX_PAYLOAD_BYTES
    ensures var h := Header(sequence, acknowledgement, length);
            && ByteSum(h) % 0x100 == 0
            && h[0] as int % 8 == sequence && h[0] as int / 8 % 8 == acknowledgement
            && h[0] as int / 64 % 2 == 1 && h[0] >= 128
            && h[1] as int % 16 == PACKET_TYPE_VENDOR_SPECIFIC
            && h[1] as int / 16 + 16 * h[2] as int == length
  {
    var h := Header(sequence, acknowledgement, length);
    SumOfFour(h);
    FirstByte(sequence, acknowledgement);
    LengthBytes(length);
    ChecksumCancels(h[0] as int + h[1] as int + h[2] as int);
  }

  lemma FirstByte(sequence: nat, acknowledgement: nat)
    requires sequence < SEQUENCE_MODULUS && acknowledgement < SEQUENCE_MODULUS
    ensures var a := sequence + 8 * acknowledgement + DATA_INTEGRITY_PRESENT + RELIABLE_PACKET;
            a % 8 == sequence && a / 8 % 8 == acknowledgement && a / 64 % 2 == 1 && a >= 128
  {
  }

  lemma LengthBytes(length: nat)
    ensures var b := PACKET_TYPE_VENDOR_SPECIFIC + 16 * (length % 16);
            b % 16 == PACKET_TYPE_VENDOR_SPECIFIC && b / 16 + 16 * (length / 16) == length
  {
  }

  lemma ChecksumCancels(sum: int)
    ensures (sum + -sum % 0x100) % 0x100 == 0
  {
  }

  lemma SumOfFour(h: seq<Byte>)
    requires |h| == 4
    ensures ByteSum(h) == h[0] as int + h[1] as int + h[2] as int + h[3] as int
  {
    assert h[1..][1..] == h[2..] && h[2..][1..] == h[3..] && h[3..][1..] == [];
    assert ByteSum(h[3..]) == h[3] as int;
    assert ByteSum(h[2..]) == h[2] as int + ByteSum(h[3..]);
    assert ByteSum(h[1..]) == h[1] as int + ByteSum(h[2..]);
  }

  // ----- hearing acknowledgements

  datatype AcknowledgementError =
    | InvalidEscape(byte: Byte)
    | IncompleteEscape
    | InvalidLength(actual: nat, expected: nat)
    | HeaderChecksum
    | PacketType(kind: nat)
    | UnsupportedFlags(flags: nat)
    | NonEmptyPayload

  /** What pushing one byte produces: nothing yet, an acknowledgement number, or an error. */
  datatype PushResult = Quiet | Reported(acknowledgement: nat) | Rejected(error: AcknowledgementError)

  /** The checks the source applies to the bytes of a closed frame, in its order. */
  function DecodeAcknowledgement(bytes: seq<Byte>): PushResult {
    if |bytes| != HEADER_BYTES then Rejected(InvalidLength(|bytes|, HEADER_BYTES))
    else if ByteSum(bytes) % 0x100 != 0 then Rejected(HeaderChecksum)
    else if bytes[1] as int % 16 != PACKET_TYPE_ACKNOWLEDGEMENT then Rejected(PacketType(bytes[1] as int % 16))
    else if bytes[0] as int / 64 != 0 then Rejected(UnsupportedFlags(bytes[0] as int / 64 * 64))
    else if bytes[1] as int / 16 != 0 || bytes[2] != 0 then Rejected(NonEmptyPayload)
    else Reported(bytes[0] as int / 8 % 8)
  }

  /** The one header that acknowledges `acknowledgement`, for each sequence number it may carry. */
  function AcknowledgementHeader(sequence: nat, acknowledgement: nat): (r: seq<Byte>)
    requires sequence < SEQUENCE_MODULUS && acknowledgement < SEQUENCE_MODULUS
    ensures |r| == HEADER_BYTES
  {
    var a := sequence + 8 * acknowledgement;
    [a, 0, 0, -a % 0x100]
  }

  lemma HeaderDecodes(sequence: nat, acknowledgement: nat)
    requires sequence < SEQUENCE_MODULUS && acknowledgement < SEQUENCE_MODULUS
    ensures DecodeAcknowledgement(AcknowledgementHeader(sequence, acknowledgement)) == Reported(acknowledgement)
  {
    SumOfFour(AcknowledgementHeader(sequence, acknowledgement));
  }

  lemma DecodedIsHeader(bytes: seq<Byte>, acknowledgement: nat)
    requires DecodeAcknowledgement(bytes) == Reported(acknowledgement)
    ensures acknowledgement < SEQUENCE_MODULUS && bytes == AcknowledgementHeader(bytes[0] as int % 8, acknowledgement)
  {
    SumOfFour(bytes);
  }

  lemma DecodesExactlyHeaders(bytes: seq<Byte>, acknowledgement: nat)
    ensures DecodeAcknowledgement(bytes) == Reported(acknowledgement)
       <==> acknowledgement < SEQUENCE_MODULUS
            && exists s: nat :: s < SEQUENCE_MODULUS && bytes == AcknowledgementHeader(s, acknowledgement)
  {
    if DecodeAcknowledgement(bytes) == Reported(acknowledgement) {
      DecodedIsHeader(bytes, acknowledgement);
    } else if acknowledgement < SEQUENCE_MODULUS {
      forall s: nat | s < SEQUENCE_MODULUS ensures bytes != AcknowledgementHeader(s, acknowledgement) {
        HeaderDecodes(s, acknowledgement);
      }
    }
  }

  /**
   * What a closed frame is refused for, by the fields of its header: sequence number, acknowledgement and flags in
   * the first byte, packet type and low length bits in the second.
   */
  lemma RefusesByField(bytes: seq<Byte>, sequence: nat, acknowledgement: nat, flags: nat, kind: nat, low: nat)
    requires |bytes| == 4 ==>
               && bytes[0] as int == sequence + 8 * acknowledgement + 64 * flags && sequence < 8 && acknowledgement < 8
               && bytes[1] as int == kind + 16 * low && kind < 16
    ensures DecodeAcknowledgement(bytes) ==
            if |bytes| != 4 then Rejected(InvalidLength(|bytes|, 4))
            else if (bytes[0] as int + bytes[1] as int + bytes[2] as int + bytes[3] as int) % 0x100 != 0 then
              Rejected(HeaderChecksum)
            else if kind != 0 then Rejected(PacketType(kind))
            else if flags != 0 then Rejected(UnsupportedFlags(64 * flags))
            else if low != 0 || bytes[2] != 0 then Rejected(NonEmptyPayload)
            else Reported(acknowledgement)
  {
    if |bytes| == 4 {
      SumOfFour(bytes);
    }
  }

  // The receiver's view of a whole byte history. END bytes cut it into bodies; a body counts only
  // when the END before it opened a frame.

  /** The bodies closed by an END so far, and the bytes since the last END. */
  datatype Cut = Cut(closed: seq<seq<Byte>>, current: seq<Byte>)

  function CutAtEnds(h: seq<Byte>): Cut {
    if h == [] then Cut([], [])
    else
      var Cut(closed, current) := CutAtEnds(h[..|h| - 1]);
      var b := h[|h| - 1];
      if b == END then Cut(closed + [current], []) else Cut(closed, current + [b])
  }

  function Join(closed: seq<seq<Byte>>): seq<Byte> {
    if closed == [] then [] else Join(closed[..|closed| - 1]) + closed[|closed| - 1] + [END]
  }

  /** Cutting loses nothing and leaves no END inside a body. */
  lemma {:induction false} CutIsExact(h: seq<Byte>)
    ensures var c := CutAtEnds(h);
            && Join(c.closed) + c.current == h
            && END !in c.current
            && forall body :: body in c.closed ==> END !in body
  {
    if h != [] {
      var front, b := h[..|h| - 1], h[|h| - 1];
      CutIsExact(front);
      var c := CutAtEnds(front);
      assert h == front + [b];
      if b == END {
        var closed := c.closed + [c.current];
        assert closed[..|closed| - 1] == c.closed;
      }
    }
  }

  /** A body that can no longer become a header: bad escape, or more bytes than a header has. */
  predicate Broken(body: Body) {
    body.Invalid? || |body.bytes| > HEADER_BYTES
  }

  /**
   * Whether the last END leaves a frame open. The first one does; a later one does too, unless it
   * cut an escape pair inside an open frame.
   */
  predicate Opened(closed: seq<seq<Byte>>) {
    closed != [] &&
    var last := Unescape(closed[|closed| - 1]);
    !(Opened(closed[..|closed| - 1]) && last.Dangling? && !Broken(last))
  }

  datatype Listening = Idle | Hearing(body: Body)

  /** The decoder's position after a history: outside any frame, or inside one with this body. */
  function Heard(h: seq<Byte>): (l: Listening)
    ensures l.Hearing? ==> !Broken(l.body)
  {
    var Cut(closed, current) := CutAtEnds(h);
    var body := Unescape(current);
    if !Opened(closed) || Broken(body) then Idle else Hearing(body)
  }

  /** What byte `b` produces after history `h`. */
  function Report(h: seq<Byte>, b: Byte): PushResult {
    match Heard(h)
    case Idle => Quiet
    case Hearing(body) =>
      if b == END then
        if body.Dangling? then Rejected(IncompleteEscape)
        else if body.bytes == [] then Quiet
        else DecodeAcknowledgement(body.bytes)
      else if !Broken(Extended(body, b)) then Quiet
      else if |body.bytes| == HEADER_BYTES then Rejected(InvalidLength(HEADER_BYTES + 1, HEADER_BYTES))
      else Rejected(InvalidEscape(b))
  }

  function Advanced(l: Listening, b: Byte): Listening {
    match l
    case Idle => if b == END then Hearing(Whole([])) else Idle
    case Hearing(body) =>
      if b == END then (if body.Dangling? then Idle else Hearing(Whole([])))
      else if Broken(Extended(body, b)) then Idle
      else Hearing(Extended(body, b))
  }

  /** The history view can be kept up a byte at a time. */
  lemma HeardAdvances(h: seq<Byte>, b: Byte)
    ensures Heard(h + [b]) == Advanced(Heard(h), b)
  {
    var g := h + [b];
    assert g[..|g| - 1] == h && g[|g| - 1] == b;
    var Cut(closed, current) := CutAtEnds(h);
    if b == END {
      assert (closed + [current])[..|closed|] == closed;
    } else {
      UnescapeExtends(current, b);
    }
  }

  /** What the next byte brings, byte by byte: only an open frame is heard, and never more than four bytes of it. */
  lemma ReportsByByte(h: seq<Byte>, b: Byte)
    ensures Heard(h).Idle? ==> Report(h, b) == Quiet
    ensures Heard(h).Hearing? ==>
              var body := Heard(h).body;
              Report(h, b) ==
                if b == 0xc0 then
                  if body.Dangling? then Rejected(IncompleteEscape)
                  else if body.bytes == [] then Quiet
                  else DecodeAcknowledgement(body.bytes)
                else if |body.bytes| == 4 && (body.Dangling? || b != 0xdb) then Rejected(InvalidLength(5, 4))
                else if body.Dangling? && b != 0xdc && b != 0xdd then Rejected(InvalidEscape(b))
                else Quiet
  {
  }

  class AcknowledgementDecoder {
    var frameStarted: bool
    var escapePending: bool
    var decoded: seq<Byte>
    ghost var history: seq<Byte>  // every byte pushed since construction

    /** The three fields are a function of the history: idle and clean, or inside a frame. */
    ghost predicate Valid()
      reads this
    {
      match Heard(history)
      case Idle => !frameStarted && !escapePending && decoded == []
      case Hearing(body) => frameStarted && escapePending == body.Dangling? && decoded == body.bytes
    }

    constructor ()
      ensures Valid() && history == []
    {
      frameStarted, escapePending, decoded := false, false, [];
      history := [];
    }

    /** At most four bytes are held, and an escape is pending only inside a frame. */
    lemma HoldsAtMostAHeader()
      requires Valid()
      ensures |decoded| <= HEADER_BYTES
      ensures escapePending ==> frameStarted
      ensures !frameStarted ==> decoded == []
    {
    }

    method Push(byte: Byte) returns (r: PushResult)
      requires Valid()
      modifies this
      ensures Valid() && history == old(history) + [byte]
      ensures r == Report(old(history), byte)
    {
      HeardAdvances(history, byte);
      history := history + [byte];
      if byte == END {
        if escapePending {
          escapePending, frameStarted, decoded := false, false, [];
          return Rejected(IncompleteEscape);
        }
        if !frameStarted {
          frameStarted, decoded := true, [];
          return Quiet;
        }
        if decoded == [] {
          return Quiet;
        }
        r := DecodeAcknowledgement(decoded);
        decoded := [];
        return;
      }
      if !frameStarted {
        return Quiet;
      }
      if escapePending {
        escapePending := false;
        if |decoded| == HEADER_BYTES {
          decoded, frameStarted := [], false;
          return Rejected(InvalidLength(HEADER_BYTES + 1, HEADER_BYTES));
        }
        if byte == ESCAPED_END {
          decoded := decoded + [END];
        } else if byte == ESCAPED_ESCAPE {
          decoded := decoded + [ESCAPE];
        } else {
          decoded, frameStarted := [], false;
          return Rejected(InvalidEscape(byte));
        }
        return Quiet;
      }
      if byte == ESCAPE {
        escapePending := true;
      } else {
        if |decoded| == HEADER_BYTES {
          decoded, frameStarted := [], false;
          return Rejected(InvalidLength(HEADER_BYTES + 1, HEADER_BYTES));
        }
        decoded := decoded + [byte];
      }
      return Quiet;
    }
  }

  /**
   * An acknowledgement is reported exactly when END closes an open frame whose bytes unstuff to a
   * valid header for that number.
   */
  lemma ReportsExactlyValidFrames(h: seq<Byte>, b: Byte, acknowledgement: nat)
    ensures Report(h, b) == Reported(acknowledgement)
       <==> && b == END
            && var Cut(closed, current) := CutAtEnds(h);
               && Opened(closed) && acknowledgement < SEQUENCE_MODULUS
               && exists s: nat :: s < SEQUENCE_MODULUS
                    && Unescape(current) == Whole(AcknowledgementHeader(s, acknowledgement))
  {
    var body := Unescape(CutAtEnds(h).current);
    DecodesExactlyHeaders(body.bytes, acknowledgement);
  }

  /** Two END bytes bring the decoder to a clean frame start from any history. */
  lemma TwoEndsResynchronize(h: seq<Byte>)
    ensures Heard(h + [END, END]) == Hearing(Whole([]))
  {
    HeardAdvances(h, END);
    HeardAdvances(h + [END], END);
    assert h + [END] + [END] == h + [END, END];
  }

  /** A well-formed acknowledgement after two END bytes is heard whatever noise came before. */
  lemma AcknowledgementHeardAfterNoise(noise: seq<Byte>, sequence: nat, acknowledgement: nat)
    requires sequence < SEQUENCE_MODULUS && acknowledgement < SEQUENCE_MODULUS
    ensures var frame := Escape(AcknowledgementHeader(sequence, acknowledgement));
            && (forall i :: 0 <= i < |frame| ==> Report(noise + [END, END] + frame[..i], frame[i]) == Quiet)
            && Report(noise + [END, END] + frame, END) == Reported(acknowledgement)
  {
    var header := AcknowledgementHeader(sequence, acknowledgement);
    var frame := Escape(header);
    var start := noise + [END, END];
    TwoEndsResynchronize(noise);
    AcknowledgementHeard(start, sequence, acknowledgement);
  }

  /** From a clean frame start an acknowledgement is heard at its closing END and not before. */
  lemma AcknowledgementHeard(start: seq<Byte>, sequence: nat, acknowledgement: nat)
    requires Heard(start) == Hearing(Whole([])) && sequence < SEQUENCE_MODULUS && acknowledgement < SEQUENCE_MODULUS
    ensures var frame := Escape(AcknowledgementHeader(sequence, acknowledgement));
            && (forall i :: 0 <= i < |frame| ==> Report(start + frame[..i], frame[i]) == Quiet)
            && Report(start + frame, END) == Reported(acknowledgement)
  {
    var header := AcknowledgementHeader(sequence, acknowledgement);
    var frame := Escape(header);
    UnescapeInvertsEscape(header);
    forall i | 0 <= i < |frame| ensures Report(start + frame[..i], frame[i]) == Quiet {
      QuietInsideFrame(start, frame, i);
    }
    UnescapePrefix(frame);
    HeardInFrame(start, frame);
    HeaderDecodes(sequence, acknowledgement);
  }

  lemma QuietInsideFrame(start: seq<Byte>, frame: seq<Byte>, i: nat)
    requires Heard(start) == Hearing(Whole([])) && i < |frame| && END !in frame && !Broken(Unescape(frame))
    ensures Report(start + frame[..i], frame[i]) == Quiet
  {
    UnescapePrefix(frame);
    var front := frame[..i];
    SteadyPrefix(frame, i);
    HeardInFrame(start, front);
    NextByteSteady(frame, i);
    QuietAt(start + front, frame[i], Unescape(front));
  }

  lemma NextByteSteady(frame: seq<Byte>, i: nat)
    requires i < |frame| && Steady(frame)
    ensures !Broken(Extended(Unescape(frame[..i]), frame[i]))
  {
    assert SteadyAt(frame, i + 1);
    assert frame[..i + 1] == frame[..i] + [frame[i]];
    UnescapeExtends(frame[..i], frame[i]);
  }

  lemma QuietAt(h: seq<Byte>, b: Byte, body: Body)
    requires Heard(h) == Hearing(body) && b != END && !Broken(Extended(body, b))
    ensures Report(h, b) == Quiet
  {
  }

  /** The body is not broken up to there. */
  predicate SteadyAt(body: seq<Byte>, i: nat)
    requires i <= |body|
  {
    !Broken(Unescape(body[..i]))
  }

  predicate Steady(body: seq<Byte>) {
    forall i :: 0 <= i <= |body| ==> SteadyAt(body, i)
  }

  lemma SteadyPrefix(body: seq<Byte>, n: nat)
    requires Steady(body) && n <= |body|
    ensures Steady(body[..n])
  {
    forall i | 0 <= i <= n ensures SteadyAt(body[..n], i) {
      assert SteadyAt(body, i);
      assert body[..n][..i] == body[..i];
    }
  }

  lemma {:induction false} HeardInFrame(start: seq<Byte>, body: seq<Byte>)
    requires Heard(start) == Hearing(Whole([])) && END !in body && Steady(body)
    ensures Heard(start + body) == Hearing(Unescape(body))
    decreases |body|
  {
    if body == [] {
      assert start + body == start;
    } else {
      var n := |body| - 1;
      var front := body[..n];
      SteadyPrefix(body, n);
      HeardInFrame(start, front);
      assert SteadyAt(body, n + 1);
      assert body == front + [body[n]] && body[..|body|] == body;
      assert start + body == start + front + [body[n]];
      HeardAdvances(start + front, body[n]);
      UnescapeExtends(front, body[n]);
    }
  }

  /** Prefixes of a complete body are never broken if the body is not. */
  lemma {:induction false} UnescapePrefix(s: seq<Byte>)
    requires !Broken(Unescape(s))
    ensures Steady(s)
    decreases |s|
  {
    assert s[..|s|] == s;
    if s != [] {
      var n := |s| - 1;
      var front := s[..n];
      assert s == front + [s[n]];
      UnescapeExtends(front, s[n]);
      UnescapePrefix(front);
      forall i | 0 <= i <= n ensures SteadyAt(s, i) {
        assert SteadyAt(front, i);
        assert front[..i] == s[..i];
      }
    }
  }
}
