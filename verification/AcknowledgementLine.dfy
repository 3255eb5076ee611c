/**
 * Acknowledgement frames on their way to the session's decoder, which hears their bytes in chunks cut
 * anywhere: inside a frame, between frames, or across several.
 */
module AcknowledgementLine {
  import opened Bytes
  import opened Slip
  import opened Framing
  import opened Session

  /** An answer on its way: how many payloads the device had taken when it sent it, and its bytes. */
  datatype Reply = Reply(count: nat, bytes: seq<Byte>)

  /** The sequence number a device asks for next. */
  function Wanted(count: nat): nat {
    (1 + count) % SEQUENCE_MODULUS
  }

  function ReplyFor(count: nat): Reply {
    Reply(count, [END] + Escape(AcknowledgementHeader(0, Wanted(count))) + [END])
  }

  /** The answers on their way; the first `sent` bytes of the first have arrived. */
  datatype Line = Line(replies: seq<Reply>, sent: nat)

  predicate Wired(line: Line) {
    if line.replies == [] then line.sent == 0 else line.sent < |line.replies[0].bytes|
  }

  predicate LastByte(line: Line) {
    line.replies != [] && line.sent == |line.replies[0].bytes| - 1
  }

  function NextByte(line: Line): Byte
    requires Wired(line) && line.replies != []
  {
    line.replies[0].bytes[line.sent]
  }

  /** The line after its next byte. */
  function Onward(line: Line): Line
    requires Wired(line) && line.replies != []
  {
    if LastByte(line) then Line(line.replies[1..], 0) else line.(sent := line.sent + 1)
  }

  /** The next `n` bytes, or as many as there are, and the line after them. */
  function Arriving(line: Line, n: nat): (seq<Byte>, Line)
    decreases n
  {
    if n == 0 || line.replies == [] || !Wired(line) then ([], line)
    else
      var (bytes, past) := Arriving(Onward(line), n - 1);
      ([NextByte(line)] + bytes, past)
  }

  // ----- one byte

  /**
   * Before a frame the decoder is outside any or at the start of one; inside a frame it has heard the body
   * so far, or nothing if it was replaced meanwhile.
   */
  predicate TunedTo(body: seq<Byte>, sent: nat, heard: Listening)
    requires sent <= |body| + 1
  {
    || heard == Idle
    || heard == Hearing(if sent == 0 then Whole([]) else Unescape(body[..sent - 1]))
  }

  ghost predicate Acknowledges(body: seq<Byte>, acknowledgement: nat) {
    && END !in body && Steady(body)
    && Unescape(body).Whole? && DecodeAcknowledgement(Unescape(body).bytes) == Reported(acknowledgement)
  }

  lemma ReplyAcknowledges(count: nat)
    ensures var body := Escape(AcknowledgementHeader(0, Wanted(count)));
            Acknowledges(body, Wanted(count)) && ReplyFor(count).bytes == [END] + body + [END]
  {
    var header := AcknowledgementHeader(0, Wanted(count));
    UnescapeInvertsEscape(header);
    HeaderDecodes(0, Wanted(count));
    UnescapePrefix(Escape(header));
  }

  lemma FirstByteHeard(body: seq<Byte>, heard: seq<Byte>)
    requires TunedTo(body, 0, Heard(heard))
    ensures Report(heard, END) == Quiet && TunedTo(body, 1, Heard(heard + [END]))
  {
    HeardAdvances(heard, END);
    assert body[..0] == [];
  }

  lemma NextBody(body: seq<Byte>, k: nat)
    requires Steady(body) && k < |body|
    ensures Unescape(body[..k + 1]) == Extended(Unescape(body[..k]), body[k]) && !Broken(Unescape(body[..k + 1]))
  {
    NextByteSteady(body, k);
    UnescapeExtends(body[..k], body[k]);
    assert body[..k] + [body[k]] == body[..k + 1];
  }

  lemma BodyByteHeard(heard: seq<Byte>, b: Byte, was: Body)
    requires b != END && !Broken(Extended(was, b)) && (Heard(heard) == Idle || Heard(heard) == Hearing(was))
    ensures Report(heard, b) == Quiet
    ensures Heard(heard + [b]) == Idle || Heard(heard + [b]) == Hearing(Extended(was, b))
  {
    HeardAdvances(heard, b);
  }

  /** A byte inside a frame says nothing, and keeps the decoder tuned. */
  lemma InnerByteHeard(body: seq<Byte>, acknowledgement: nat, heard: seq<Byte>, k: nat)
    requires Acknowledges(body, acknowledgement) && k < |body| && TunedTo(body, k + 1, Heard(heard))
    ensures Report(heard, body[k]) == Quiet && TunedTo(body, k + 2, Heard(heard + [body[k]]))
  {
    NextBody(body, k);
    BodyByteHeard(heard, body[k], Unescape(body[..k]));
  }

  /** The last byte reports the acknowledgement, or says nothing and leaves the decoder at a clean start. */
  lemma LastByteHeard(body: seq<Byte>, acknowledgement: nat, heard: seq<Byte>)
    requires Acknowledges(body, acknowledgement) && TunedTo(body, |body| + 1, Heard(heard))
    ensures if Heard(heard).Hearing? then Report(heard, END) == Reported(acknowledgement)
            else Report(heard, END) == Quiet && Heard(heard + [END]) == Hearing(Whole([]))
  {
    HeardAdvances(heard, END);
    assert body[..|body|] == body;
  }

  // ----- chunks

  /** The body of the frame that is arriving. */
  function Current(line: Line): seq<Byte> {
    if line.replies == [] || |line.replies[0].bytes| < 2 then []
    else line.replies[0].bytes[1..|line.replies[0].bytes| - 1]
  }

  ghost predicate AllAnswers(replies: seq<Reply>) {
    forall k :: 0 <= k < |replies| ==> replies[k] == ReplyFor(replies[k].count)
  }

  ghost predicate Tuned(line: Line, heard: seq<Byte>) {
    && AllAnswers(line.replies) && Wired(line)
    && line.sent <= |Current(line)| + 1 && TunedTo(Current(line), line.sent, Heard(heard))
  }

  /** What the next byte of a line does: nothing, or a report at the end of a frame. */
  ghost predicate HearsAt(
    report: (seq<Byte>, Byte) -> PushResult, tuned: (Line, seq<Byte>) -> bool, line: Line, heard: seq<Byte>)
  {
    tuned(line, heard) ==>
      && Wired(line)
      && (line.replies != [] ==>
            || (report(heard, NextByte(line)) == Quiet && tuned(Onward(line), heard + [NextByte(line)]))
            || (LastByte(line) && report(heard, NextByte(line)) == Reported(Wanted(line.replies[0].count))))
  }

  lemma HeadFrame(line: Line)
    requires AllAnswers(line.replies) && Wired(line) && line.replies != []
    ensures line.sent <= |Current(line)| + 1 && (LastByte(line) <==> line.sent == |Current(line)| + 1)
    ensures NextByte(line) == if 0 < line.sent <= |Current(line)| then Current(line)[line.sent - 1] else END
    ensures Acknowledges(Current(line), Wanted(line.replies[0].count))
  {
    var reply := line.replies[0];
    ReplyAcknowledges(reply.count);
    assert reply == ReplyFor(reply.count);
    assert Current(line) == Escape(AcknowledgementHeader(0, Wanted(reply.count)));
  }

  lemma OnwardAnswers(line: Line)
    requires AllAnswers(line.replies) && Wired(line) && line.replies != []
    ensures AllAnswers(Onward(line).replies) && Wired(Onward(line))
    ensures LastByte(line) ==> Onward(line).sent == 0
    ensures !LastByte(line) ==> Current(Onward(line)) == Current(line) && Onward(line).sent == line.sent + 1
  {
    if LastByte(line) && |line.replies| > 1 {
      assert line.replies[1] == ReplyFor(line.replies[1].count);
    }
  }

  lemma ByteHeard(line: Line, heard: seq<Byte>)
    ensures HearsAt(Report, Tuned, line, heard)
  {
    if Tuned(line, heard) && line.replies != [] {
      HeadFrame(line);
      OnwardAnswers(line);
      if LastByte(line) {
        LastByteHeard(Current(line), Wanted(line.replies[0].count), heard);
      } else if line.sent == 0 {
        FirstByteHeard(Current(line), heard);
      } else {
        InnerByteHeard(Current(line), Wanted(line.replies[0].count), heard, line.sent - 1);
      }
    }
  }

  /** `past` is what is left of the line after some of it arrived. */
  predicate LeftOf(line: Line, past: Line) {
    |past.replies| <= |line.replies| && past.replies == line.replies[|line.replies| - |past.replies|..]
  }

  /** The frame that ended just before `past` acknowledges this number. */
  predicate EndsFrame(line: Line, past: Line, acknowledgement: nat) {
    && past.sent == 0 && |past.replies| < |line.replies|
    && acknowledgement == Wanted(line.replies[|line.replies| - |past.replies| - 1].count)
  }

  /** A chunk is quiet throughout, or reports an answer, the only one at its end; nothing in it is ever rejected. */
  ghost predicate ChunkHeard(
    tuned: (Line, seq<Byte>) -> bool, line: Line, past: Line, heard: seq<Byte>, bytes: seq<Byte>, l: Listened)
  {
    && LeftOf(line, past)
    && match l
       case AllQuiet => tuned(past, heard + bytes)
       case At(k, result) =>
         && result.Reported? && (k + 1 == |bytes| ==> EndsFrame(line, past, result.acknowledgement))
         && (|line.replies| <= 1 ==> k + 1 == |bytes|)
  }

  lemma OnwardLeaves(line: Line, past: Line)
    requires Wired(line) && line.replies != [] && LeftOf(Onward(line), past)
    ensures LeftOf(line, past)
    ensures forall a: nat :: EndsFrame(Onward(line), past, a) ==> EndsFrame(line, past, a)
  {
  }

  lemma {:induction false} ArrivingLeaves(line: Line, n: nat)
    ensures LeftOf(line, Arriving(line, n).1)
    decreases n
  {
    if n > 0 && line.replies != [] && Wired(line) {
      ArrivingLeaves(Onward(line), n - 1);
      OnwardLeaves(line, Arriving(line, n).1);
    }
  }

  lemma ChunkGoesOn(
    tuned: (Line, seq<Byte>) -> bool, line: Line, past: Line, heard: seq<Byte>, b: Byte, rest: seq<Byte>, l: Listened)
    requires Wired(line) && line.replies != []
    requires ChunkHeard(tuned, Onward(line), past, heard + [b], rest, l)
    ensures ChunkHeard(tuned, line, past, heard, [b] + rest, Later(l, 1))
  {
    OnwardLeaves(line, past);
    assert heard + [b] + rest == heard + ([b] + rest);
  }

  lemma {:induction false} ChunkOf(
    report: (seq<Byte>, Byte) -> PushResult, tuned: (Line, seq<Byte>) -> bool, line: Line, heard: seq<Byte>, n: nat)
    requires tuned(line, heard) && forall line, heard :: HearsAt(report, tuned, line, heard)
    ensures var (bytes, past) := Arriving(line, n);
            ChunkHeard(tuned, line, past, heard, bytes, Listen(report, heard, bytes))
    decreases n
  {
    assert HearsAt(report, tuned, line, heard);
    if n == 0 || line.replies == [] {
      assert heard + [] == heard;
    } else {
      var b, rest := NextByte(line), Arriving(Onward(line), n - 1).0;
      assert ([b] + rest)[1..] == rest;
      if report(heard, b) == Quiet {
        ChunkOf(report, tuned, Onward(line), heard + [b], n - 1);
        ChunkGoesOn(tuned, line, Arriving(line, n).1, heard, b, rest, Listen(report, heard + [b], rest));
      } else {
        ArrivingLeaves(line, n);
        assert rest == [] ==> Arriving(line, n).1 == Onward(line);
      }
    }
  }

  /** However the bytes are cut, the decoder hears the answers of the line and nothing else. */
  lemma ChunkIsHeard(line: Line, heard: seq<Byte>, n: nat)
    requires Tuned(line, heard)
    ensures var (bytes, past) := Arriving(line, n);
            ChunkHeard(Tuned, line, past, heard, bytes, Listen(Report, heard, bytes))
  {
    forall line, heard ensures HearsAt(Report, Tuned, line, heard) {
      ByteHeard(line, heard);
    }
    ChunkOf(Report, Tuned, line, heard, n);
  }

  lemma {:induction false} ArrivingKeeps(line: Line, n: nat)
    requires AllAnswers(line.replies) && Wired(line)
    ensures var past := Arriving(line, n).1; AllAnswers(past.replies) && Wired(past)
    decreases n
  {
    if n > 0 && line.replies != [] {
      OnwardAnswers(line);
      ArrivingKeeps(Onward(line), n - 1);
    }
  }

  /** A fresh decoder is tuned to any line, wherever its next byte is. */
  lemma FreshIsTuned(line: Line)
    requires AllAnswers(line.replies) && Wired(line)
    ensures Tuned(line, [])
  {
    if line.replies != [] {
      HeadFrame(line);
    }
  }

  // ----- one answer in one piece

  predicate QuietUntil(report: (seq<Byte>, Byte) -> PushResult, heard: seq<Byte>, bytes: seq<Byte>, n: nat)
    requires n <= |bytes|
  {
    forall i :: 0 <= i < n ==> report(heard + bytes[..i], bytes[i]) == Quiet
  }

  lemma {:induction false} ListensUntil(report: (seq<Byte>, Byte) -> PushResult, heard: seq<Byte>, bytes: seq<Byte>)
    requires bytes != [] && QuietUntil(report, heard, bytes, |bytes| - 1)
    ensures var result := report(heard + bytes[..|bytes| - 1], bytes[|bytes| - 1]);
            !result.Quiet? ==> Listen(report, heard, bytes) == At(|bytes| - 1, result)
    decreases |bytes|
  {
    var n := |bytes| - 1;
    assert heard + bytes[..0] == heard;
    if n > 0 {
      var later, rest := heard + [bytes[0]], bytes[1..];
      assert report(heard + bytes[..0], bytes[0]) == Quiet;
      forall i | 0 <= i < |rest| ensures later + rest[..i] == heard + bytes[..i + 1] && rest[i] == bytes[i + 1] {
      }
      ListensUntil(report, later, rest);
    }
  }

  lemma HeardFromStart()
    ensures Heard([]) == Idle && Heard([END]) == Hearing(Whole([]))
  {
    HeardAdvances([], END);
    assert [] + [END] == [END];
  }

  /** A frame around a body that is quiet inside is heard at its closing END. */
  lemma FrameListened(report: (seq<Byte>, Byte) -> PushResult, body: seq<Byte>)
    requires report([], END) == Quiet && !report([END] + body, END).Quiet?
    requires forall i :: 0 <= i < |body| ==> report([END] + body[..i], body[i]) == Quiet
    ensures var frame := [END] + body + [END];
            Listen(report, [], frame) == At(|frame| - 1, report([END] + body, END))
  {
    var frame := [END] + body + [END];
    var n := |frame| - 1;
    forall i | 0 <= i < n ensures report([] + frame[..i], frame[i]) == Quiet {
      if i > 0 {
        assert [] + frame[..i] == [END] + body[..i - 1] && frame[i] == body[i - 1];
      } else {
        assert [] + frame[..0] == [];
      }
    }
    assert [] + frame[..n] == [END] + body && frame[n] == END;
    ListensUntil(report, [], frame);
  }

  /** A fresh decoder hears a whole answer at its last byte. */
  lemma ReplyHeard(count: nat)
    ensures var bytes := ReplyFor(count).bytes; Listen(Report, [], bytes) == At(|bytes| - 1, Reported(Wanted(count)))
  {
    HeardFromStart();
    AcknowledgementHeard([END], 0, Wanted(count));
    FrameListened(Report, Escape(AcknowledgementHeader(0, Wanted(count))));
  }
}
