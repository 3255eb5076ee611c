/**
 * The session and a device at the two ends of a serial line that may lose frames and acknowledgements,
 * but keeps the order of those that arrive; what arrives for the session comes in chunks cut anywhere.
 */
module SessionChannel {
  import opened Bytes
  import opened Framing
  import opened Transfer
  import opened Session
  import opened SessionRuns
  import opened AcknowledgementLine

  datatype Link = Link(session: Status, taken: seq<seq<Byte>>, forward: seq<Emission>, line: Line)

  datatype Event =
    | Send
    | Resend
    | LoseFrame(at: nat)
    | DeliverFrame
    | LoseReply(at: nat)
    | DeliverBytes(n: nat)

  const START := Link(INITIAL, [], [], Line([], 0))

  function Without<T>(s: seq<T>, i: nat): seq<T> {
    if i < |s| then s[..i] + s[i + 1..] else s
  }

  /** An answer is lost whole, and not once some of it has arrived. */
  function ReplyLost(line: Line, at: nat): Line {
    if at == 0 && line.sent > 0 then line else line.(replies := Without(line.replies, at))
  }

  /** A call that may put a frame on the line. */
  function Called(image: Image, layout: BankLayout, l: Link, call: Call): Link {
    var (s, o) := Step(image, layout, l.session, call);
    l.(session := s,
       forward := if o.Emitted? then l.forward + [Emission(l.session.index, o.attempt, o.bytes)] else l.forward)
  }

  /** The device takes the next payload once, and answers every sound frame with what it expects next. */
  function Received(receive: seq<Byte> -> Option<Packet>, l: Link): Link
    requires l.forward != []
  {
    var packet := receive(l.forward[0].bytes);
    var taken := Take(l.taken, packet);
    l.(taken := taken, forward := l.forward[1..],
       line := if packet.Some? then l.line.(replies := l.line.replies + [ReplyFor(|taken|)]) else l.line)
  }

  /** The next bytes of the answers reach the session, in one push. */
  function Pushed(image: Image, layout: BankLayout, l: Link, n: nat): Link {
    var (bytes, past) := Arriving(l.line, n);
    Called(image, layout, l, PushAcknowledgement(bytes)).(line := past)
  }

  function Next(image: Image, layout: BankLayout, l: Link, e: Event): Link {
    match e
    case Send => Called(image, layout, l, NextFrame)
    case Resend => Called(image, layout, l, RetryFrame)
    case LoseFrame(at) => l.(forward := Without(l.forward, at))
    case DeliverFrame => if l.forward == [] then l else Received(Receive, l)
    case LoseReply(at) => l.(line := ReplyLost(l.line, at))
    case DeliverBytes(n) => Pushed(image, layout, l, n)
  }

  function Continue(image: Image, layout: BankLayout, l: Link, events: seq<Event>): Link {
    if events == [] then l
    else Next(image, layout, Continue(image, layout, l, events[..|events| - 1]), events[|events| - 1])
  }

  function RunLink(image: Image, layout: BankLayout, events: seq<Event>): Link {
    Continue(image, layout, START, events)
  }

  // ----- what every run keeps

  /** The device is at the session's frame or just past it. */
  predicate Abreast(s: Status, count: nat) {
    s.index <= count <= s.index + 1 && (count == s.index + 1 ==> s.attempts > 0)
  }

  /** A frame on the line is the planned one, and not older than the last one taken. */
  predicate FrameInFlight(plan: Plan, s: Status, count: nat, e: Emission) {
    && plan(e.index) == Some(e.bytes)
    && count <= e.index + 1 && e.index <= s.index && (e.index == s.index ==> s.attempts > 0)
  }

  predicate FramesInFlight(plan: Plan, s: Status, count: nat, forward: seq<Emission>) {
    && (forall k :: 0 <= k < |forward| ==> FrameInFlight(plan, s, count, forward[k]))
    && (forall i, j :: 0 <= i < j < |forward| ==> forward[i].index <= forward[j].index)
  }

  predicate RepliesInFlight(s: Status, count: nat, replies: seq<Reply>) {
    && (forall k :: 0 <= k < |replies| ==> s.index <= replies[k].count <= count)
    && (forall i, j :: 0 <= i < j < |replies| ==> replies[i].count <= replies[j].count)
  }

  /** The answers are well formed, and the decoder, in use only while an answer is awaited, hears them right. */
  ghost predicate Attentive(s: Status, line: Line) {
    && AllAnswers(line.replies) && Wired(line)
    && (s.condition == FailedClosed || Tuned(line, s.heard))
    && (s.condition == FailedClosed || (s.condition == Active && s.attempts > 0) || s.heard == [])
  }

  ghost predicate Together(plan: Plan, payload: nat -> seq<Byte>, l: Link) {
    && Attentive(l.session, l.line)
    && Abreast(l.session, |l.taken|)
    && l.taken == Taken(payload, |l.taken|)
    && FramesInFlight(plan, l.session, |l.taken|, l.forward)
    && RepliesInFlight(l.session, |l.taken|, l.line.replies)
  }

  ghost predicate InTouch(image: Image, l: Link) {
    Sound(image, l.session) && Together(PlanOf(image), PayloadsOf(image), l)
  }

  /** A call that sends leaves the decoder as it was, or fresh. */
  lemma CallKeepsDecoder(image: Image, layout: BankLayout, s: Status, call: Call)
    requires !call.PushAcknowledgement?
    ensures var t := Step(image, layout, s, call).0;
            && (t.heard == s.heard || t.heard == []) && (s.condition == FailedClosed ==> t == s)
            && (t == s || t.condition == FailedClosed || (t.condition == Active && (t.attempts > 0 || t.heard == [])))
  {
  }

  lemma CallKeepsAttention(image: Image, layout: BankLayout, s: Status, line: Line, call: Call)
    requires Attentive(s, line) && !call.PushAcknowledgement?
    ensures Attentive(Step(image, layout, s, call).0, line)
  {
    CallKeepsDecoder(image, layout, s, call);
    FreshIsTuned(line);
  }

  lemma CallKeepsTouch(image: Image, layout: BankLayout, l: Link, call: Call)
    requires InTouch(image, l) && !call.PushAcknowledgement?
    ensures InTouch(image, Called(image, layout, l, call))
  {
    StepIs(image, layout, l.session, call);
    CallKeepsAttention(image, layout, l.session, l.line, call);
    CallKeepsFrames(PlanOf(image), l, Step(image, layout, l.session, call).0, Step(image, layout, l.session, call).1);
  }

  lemma CallKeepsFrames(plan: Plan, l: Link, s: Status, o: Outcome)
    requires Abreast(l.session, |l.taken|) && FramesInFlight(plan, l.session, |l.taken|, l.forward)
    requires RepliesInFlight(l.session, |l.taken|, l.line.replies)
    requires Stays(l.session, s, o) || Sends(plan, l.session, s, o)
    ensures Abreast(s, |l.taken|) && RepliesInFlight(s, |l.taken|, l.line.replies)
    ensures !o.Emitted? ==> FramesInFlight(plan, s, |l.taken|, l.forward)
    ensures o.Emitted? ==>
              FramesInFlight(plan, s, |l.taken|, l.forward + [Emission(l.session.index, o.attempt, o.bytes)])
  {
    forall k | 0 <= k < |l.forward| ensures FrameInFlight(plan, s, |l.taken|, l.forward[k]) {
      assert FrameInFlight(plan, l.session, |l.taken|, l.forward[k]);
    }
  }

  // ----- frames

  /** One more answer, at the end of the line, leaves the decoder tuned. */
  lemma AnswerKeepsAttention(s: Status, line: Line, count: nat)
    requires Attentive(s, line)
    ensures Attentive(s, line.(replies := line.replies + [ReplyFor(count)]))
  {
    var longer := line.(replies := line.replies + [ReplyFor(count)]);
    assert line.replies != [] ==> longer.replies[0] == line.replies[0];
    HeadFrame(longer);
  }

  /** The frame at the head of the line is taken, now or before, and the answer to it is on its way. */
  function Answered(payload: nat -> seq<Byte>, l: Link): Link
    requires l.forward != []
  {
    var count := l.forward[0].index + 1;
    Link(l.session, Taken(payload, count), l.forward[1..], l.line.(replies := l.line.replies + [ReplyFor(count)]))
  }

  /** It is the next one, which is taken, or the last one again. */
  lemma FrameTaken(receive: seq<Byte> -> Option<Packet>, payload: nat -> seq<Byte>, l: Link)
    requires l.forward != [] && l.taken == Taken(payload, |l.taken|)
    requires |l.taken| == l.forward[0].index || |l.taken| == l.forward[0].index + 1
    requires Carries(receive(l.forward[0].bytes), l.forward[0].index, payload(l.forward[0].index))
    ensures Received(receive, l) == Answered(payload, l)
  {
    TakesOnce(payload, |l.taken|, l.forward[0].index, receive(l.forward[0].bytes));
  }

  lemma AnswerKeepsTogether(plan: Plan, payload: nat -> seq<Byte>, l: Link)
    requires Together(plan, payload, l) && l.forward != []
    ensures Together(plan, payload, Answered(payload, l))
  {
    ReceivedInOrder(plan, l, l.forward[0].index + 1);
    AnswerKeepsAttention(l.session, l.line, l.forward[0].index + 1);
  }

  /** A planned frame carries its payload. */
  lemma FlyingFrameCarries(image: Image, i: nat, bytes: seq<Byte>)
    requires PlanOf(image)(i) == Some(bytes)
    ensures Carries(Receive(bytes), i, PayloadsOf(image)(i))
  {
    PlanIsReceived(image, i);
  }

  lemma FrameAnswered(image: Image, l: Link)
    requires InTouch(image, l) && l.forward != []
    ensures Received(Receive, l) == Answered(PayloadsOf(image), l)
  {
    var e := l.forward[0];
    assert FrameInFlight(PlanOf(image), l.session, |l.taken|, e);
    FlyingFrameCarries(image, e.index, e.bytes);
    FrameTaken(Receive, PayloadsOf(image), l);
  }

  lemma FrameKeepsTouch(image: Image, l: Link)
    requires InTouch(image, l) && l.forward != []
    ensures InTouch(image, Received(Receive, l))
  {
    FrameAnswered(image, l);
    AnswerKeepsTogether(PlanOf(image), PayloadsOf(image), l);
  }

  lemma ReceivedInOrder(plan: Plan, l: Link, count: nat)
    requires l.forward != [] && FramesInFlight(plan, l.session, |l.taken|, l.forward)
    requires Abreast(l.session, |l.taken|) && RepliesInFlight(l.session, |l.taken|, l.line.replies)
    requires count == l.forward[0].index + 1
    ensures Abreast(l.session, count)
    ensures FramesInFlight(plan, l.session, count, l.forward[1..])
    ensures RepliesInFlight(l.session, count, l.line.replies + [ReplyFor(count)])
  {
    var s, forward := l.session, l.forward;
    assert FrameInFlight(plan, s, |l.taken|, forward[0]);
    forall k | 0 <= k < |forward[1..]| ensures FrameInFlight(plan, s, count, forward[1..][k]) {
      assert FrameInFlight(plan, s, |l.taken|, forward[k + 1]);
      assert forward[0].index <= forward[k + 1].index;
    }
  }

  // ----- answers

  /** The session stays, still attentive, or moves on because the chunk ended with the answer to its frame. */
  ghost predicate Told(s: Status, s': Status, line: Line, past: Line) {
    && Attentive(s', past)
    && ((s'.index == s.index && s'.attempts == s.attempts)
        || (s'.index == s.index + 1 && s'.attempts == 0 && EndsFrame(line, past, ExpectedAcknowledgement(s.index))))
  }

  lemma ReactionTells(
    image: Image, layout: BankLayout, s: Status, line: Line, past: Line, bytes: seq<Byte>, listened: Listened)
    requires s.index < FrameCount(image) && s.condition == Active && s.attempts > 0
    requires listened.At? ==> listened.offset < |bytes|
    requires ChunkHeard(Tuned, line, past, s.heard, bytes, listened)
    requires AllAnswers(past.replies) && Wired(past) && Tuned(past, [])
    ensures Told(s, React(image, layout, s, bytes, listened).0, line, past)
  {
  }

  lemma AwaitedChunk(image: Image, layout: BankLayout, s: Status, line: Line, past: Line, bytes: seq<Byte>)
    requires StateOf(image, s) == SessionState.AwaitingAcknowledgement
    requires ChunkHeard(Tuned, line, past, s.heard, bytes, Listen(Report, s.heard, bytes))
    requires AllAnswers(past.replies) && Wired(past) && Tuned(past, [])
    ensures Told(s, Step(image, layout, s, PushAcknowledgement(bytes)).0, line, past)
  {
    StepReacts(image, layout, s, bytes);
    ReactionTells(image, layout, s, line, past, bytes, Listen(Report, s.heard, bytes));
  }

  lemma UnawaitedChunk(image: Image, layout: BankLayout, s: Status, line: Line, past: Line, bytes: seq<Byte>)
    requires StateOf(image, s) != SessionState.AwaitingAcknowledgement && Sound(image, s) && Attentive(s, line)
    requires AllAnswers(past.replies) && Wired(past) && Tuned(past, [])
    ensures Told(s, Step(image, layout, s, PushAcknowledgement(bytes)).0, line, past)
  {
    assert Step(image, layout, s, PushAcknowledgement(bytes)).0 == s;
  }

  lemma ChunkReaches(image: Image, layout: BankLayout, s: Status, line: Line, past: Line, bytes: seq<Byte>)
    requires Sound(image, s) && Attentive(s, line) && AllAnswers(past.replies) && Wired(past) && Tuned(past, [])
    requires Tuned(line, s.heard) ==> ChunkHeard(Tuned, line, past, s.heard, bytes, Listen(Report, s.heard, bytes))
    ensures Told(s, Step(image, layout, s, PushAcknowledgement(bytes)).0, line, past)
  {
    if StateOf(image, s) == SessionState.AwaitingAcknowledgement {
      AwaitedChunk(image, layout, s, line, past, bytes);
    } else {
      UnawaitedChunk(image, layout, s, line, past, bytes);
    }
  }

  /** However the bytes are cut, the session moves on only at the end of the answer to its frame. */
  lemma ChunkTells(image: Image, layout: BankLayout, s: Status, line: Line, n: nat)
    requires Sound(image, s) && Attentive(s, line)
    ensures var (bytes, past) := Arriving(line, n);
            LeftOf(line, past) && Told(s, Step(image, layout, s, PushAcknowledgement(bytes)).0, line, past)
  {
    var (bytes, past) := Arriving(line, n);
    ArrivingLeaves(line, n);
    ArrivingKeeps(line, n);
    FreshIsTuned(past);
    if Tuned(line, s.heard) {
      ChunkIsHeard(line, s.heard, n);
    }
    ChunkReaches(image, layout, s, line, past, bytes);
  }

  lemma PushKeepsSound(image: Image, layout: BankLayout, s: Status, bytes: seq<Byte>)
    requires Sound(image, s)
    ensures var (s', o) := Step(image, layout, s, PushAcknowledgement(bytes));
            Sound(image, s') && !o.Emitted? && (s'.index > s.index ==> s.attempts > 0)
  {
    StepIs(image, layout, s, PushAcknowledgement(bytes));
  }

  lemma ChunkKeepsTouch(image: Image, layout: BankLayout, l: Link, n: nat)
    requires InTouch(image, l)
    ensures InTouch(image, Pushed(image, layout, l, n))
  {
    var (bytes, past) := Arriving(l.line, n);
    var s := Step(image, layout, l.session, PushAcknowledgement(bytes)).0;
    ChunkTells(image, layout, l.session, l.line, n);
    PushKeepsSound(image, layout, l.session, bytes);
    if s.index > l.session.index {
      MovesOnTogether(PlanOf(image), l, s, past);
    } else {
      StaysTogether(PlanOf(image), l, s, past);
    }
  }

  lemma MovesOnTogether(plan: Plan, l: Link, s: Status, past: Line)
    requires s.index == l.session.index + 1 && s.attempts == 0 && l.session.attempts > 0
    requires LeftOf(l.line, past) && EndsFrame(l.line, past, ExpectedAcknowledgement(l.session.index))
    requires Abreast(l.session, |l.taken|) && FramesInFlight(plan, l.session, |l.taken|, l.forward)
    requires RepliesInFlight(l.session, |l.taken|, l.line.replies)
    ensures Abreast(s, |l.taken|) && FramesInFlight(plan, s, |l.taken|, l.forward)
    ensures RepliesInFlight(s, |l.taken|, past.replies)
  {
    var j := |l.line.replies| - |past.replies| - 1;
    NeighboursDiffer(l.session.index);
    assert l.session.index <= l.line.replies[j].count <= |l.taken|;
    assert l.line.replies[j].count == s.index;
    forall k | 0 <= k < |past.replies| ensures s.index <= past.replies[k].count {
      assert past.replies[k] == l.line.replies[j + 1 + k];
    }
    forall k | 0 <= k < |l.forward| ensures FrameInFlight(plan, s, |l.taken|, l.forward[k]) {
      assert FrameInFlight(plan, l.session, |l.taken|, l.forward[k]);
    }
  }

  lemma StaysTogether(plan: Plan, l: Link, s: Status, past: Line)
    requires LeftOf(l.line, past) && s.index == l.session.index && s.attempts == l.session.attempts
    requires Abreast(l.session, |l.taken|) && FramesInFlight(plan, l.session, |l.taken|, l.forward)
    requires RepliesInFlight(l.session, |l.taken|, l.line.replies)
    ensures Abreast(s, |l.taken|) && FramesInFlight(plan, s, |l.taken|, l.forward)
    ensures RepliesInFlight(s, |l.taken|, past.replies)
  {
    forall k | 0 <= k < |l.forward| ensures FrameInFlight(plan, s, |l.taken|, l.forward[k]) {
      assert FrameInFlight(plan, l.session, |l.taken|, l.forward[k]);
    }
  }

  // ----- losses

  lemma FrameLost(plan: Plan, s: Status, count: nat, forward: seq<Emission>, at: nat)
    requires FramesInFlight(plan, s, count, forward)
    ensures FramesInFlight(plan, s, count, Without(forward, at))
  {
  }

  lemma LostReplyKeepsOrder(s: Status, count: nat, line: Line, at: nat)
    requires RepliesInFlight(s, count, line.replies)
    ensures RepliesInFlight(s, count, ReplyLost(line, at).replies)
  {
  }

  lemma LossKeepsAttention(s: Status, line: Line, at: nat)
    requires Attentive(s, line)
    ensures Attentive(s, ReplyLost(line, at))
  {
    var less := ReplyLost(line, at);
    if less != line && less.replies != [] {
      assert less.replies[0] == if at == 0 then line.replies[1] else line.replies[0];
      HeadFrame(less.(sent := 0));
    }
  }

  lemma LosingKeepsTouch(image: Image, l: Link, at: nat)
    requires InTouch(image, l)
    ensures InTouch(image, l.(forward := Without(l.forward, at))) && InTouch(image, l.(line := ReplyLost(l.line, at)))
  {
    FrameLost(PlanOf(image), l.session, |l.taken|, l.forward, at);
    LostReplyKeepsOrder(l.session, |l.taken|, l.line, at);
    LossKeepsAttention(l.session, l.line, at);
  }

  // ----- runs

  lemma NextKeepsTouch(image: Image, layout: BankLayout, l: Link, e: Event)
    requires InTouch(image, l)
    ensures InTouch(image, Next(image, layout, l, e))
  {
    match e {
      case Send => CallKeepsTouch(image, layout, l, NextFrame);
      case Resend => CallKeepsTouch(image, layout, l, RetryFrame);
      case DeliverFrame =>
        if l.forward != [] {
          FrameKeepsTouch(image, l);
        }
      case DeliverBytes(n) => ChunkKeepsTouch(image, layout, l, n);
      case LoseFrame(at) => LosingKeepsTouch(image, l, at);
      case LoseReply(at) => LosingKeepsTouch(image, l, at);
    }
  }

  lemma {:induction false} ContinueKeepsTouch(image: Image, layout: BankLayout, l: Link, events: seq<Event>)
    requires InTouch(image, l)
    ensures InTouch(image, Continue(image, layout, l, events))
    decreases |events|
  {
    if events != [] {
      ContinueKeepsTouch(image, layout, l, events[..|events| - 1]);
      NextKeepsTouch(image, layout, Continue(image, layout, l, events[..|events| - 1]), events[|events| - 1]);
    }
  }

  /** Over every run of a line that loses what it likes, the two ends stay within one frame of each other. */
  lemma EveryRunKeepsTouch(image: Image, layout: BankLayout, events: seq<Event>)
    ensures InTouch(image, RunLink(image, layout, events))
  {
    FreshIsTuned(START.line);
    ContinueKeepsTouch(image, layout, START, events);
  }

  /**
   * Whatever the line loses, a session that completes has had every planned payload taken by the
   * device, each once and in order, and the data among them is the firmware.
   */
  lemma CompleteMeansTaken(image: Image, layout: BankLayout, events: seq<Event>)
    requires StateOf(image, RunLink(image, layout, events).session) == SessionState.Complete
    ensures var taken := RunLink(image, layout, events).taken;
            && |taken| == FrameCount(image)
            && (forall i :: 0 <= i < |taken| ==> taken[i] == Payload(image, i))
            && Reassembled(taken, Chunks(image)) == image.firmware
  {
    EveryRunKeepsTouch(image, layout, events);
    var taken := RunLink(image, layout, events).taken;
    forall i | 0 <= i < |taken| ensures taken[i] == Payload(image, i) {
      TakenAt(PayloadsOf(image), FrameCount(image), i);
    }
    ReassembledIsCarried(image, taken, Chunks(image));
    DataFramesCarryFirmware(image, Chunks(image));
  }
}
