/** From every run that has not failed and has an attempt left, the update can still be completed. */
module SessionRecovery {
  import opened Bytes
  import opened Framing
  import opened Transfer
  import opened Session
  import opened SessionRuns
  import opened AcknowledgementLine
  import opened SessionChannel

  lemma {:induction false} ContinueConcat(image: Image, layout: BankLayout, l: Link, a: seq<Event>, b: seq<Event>)
    ensures Continue(image, layout, l, a + b) == Continue(image, layout, Continue(image, layout, l, a), b)
    decreases |b|
  {
    if b == [] {
      assert a + b == a;
    } else {
      var n := |b| - 1;
      assert (a + b)[..|a + b| - 1] == a + b[..n];
      ContinueConcat(image, layout, l, a, b[..n]);
    }
  }

  lemma ContinueOne(image: Image, layout: BankLayout, l: Link, e: Event)
    ensures Continue(image, layout, l, [e]) == Next(image, layout, l, e)
  {
    assert [e][..0] == [];
  }

  /** Nothing is on its way in either direction. */
  predicate Clear(l: Link) {
    l.forward == [] && l.line == Line([], 0)
  }

  /** The session has not failed and has an attempt left. */
  predicate Alive(s: Status) {
    s.condition != FailedClosed && s.attempts < RELIABLE_FRAME_ATTEMPT_LIMIT
  }

  // ----- a frame at a time: sent, taken, acknowledged

  predicate Waiting(s: Status) {
    s.condition == Active && s.attempts > 0 && s.heard == []
  }

  /** The session's frame is on its way, and nothing else. */
  predicate Flying(l: Link) {
    Waiting(l.session) && |l.forward| == 1 && l.forward[0].index == l.session.index && l.line == Line([], 0)
  }

  /** The answer to it is. */
  predicate Answering(l: Link) {
    Waiting(l.session) && l.forward == [] && l.line == Line([ReplyFor(l.session.index + 1)], 0)
  }

  function Attempting(s: Status): Event {
    if s.attempts == 0 then Send else Resend
  }

  lemma AttemptSends(image: Image, layout: BankLayout, s: Status, line: Line)
    requires Sound(image, s) && Attentive(s, line) && Alive(s)
    requires s.index < FrameCount(image) && Encodable(image, s.index)
    ensures var (s', o) := Step(image, layout, s, if s.attempts == 0 then NextFrame else RetryFrame);
            Waiting(s') && s'.index == s.index && o.Emitted?
  {
  }

  lemma Attempted(image: Image, layout: BankLayout, l: Link)
    requires InTouch(image, l) && Clear(l) && Alive(l.session)
    requires l.session.index < FrameCount(image) && Encodable(image, l.session.index)
    ensures var r := Next(image, layout, l, Attempting(l.session)); Flying(r) && r.session.index == l.session.index
  {
    AttemptSends(image, layout, l.session, l.line);
  }

  lemma {:induction false} WholeReplyArrives(r: Reply, sent: nat)
    requires sent < |r.bytes|
    ensures Arriving(Line([r], sent), |r.bytes| - sent) == (r.bytes[sent..], Line([], 0))
    decreases |r.bytes| - sent
  {
    var line := Line([r], sent);
    assert line.replies[1..] == [];
    if LastByte(line) {
      assert Arriving(Onward(line), 0) == ([], Line([], 0));
    } else {
      WholeReplyArrives(r, sent + 1);
    }
    assert r.bytes[sent..] == [NextByte(line)] + r.bytes[sent + 1..];
  }

  /** The rest of the only answer arrives. */
  lemma AnswerArrives(image: Image, layout: BankLayout, l: Link, r: Reply, s: Status)
    requires l.line.replies == [r] && l.line.sent < |r.bytes|
    requires Step(image, layout, l.session, PushAcknowledgement(r.bytes[l.line.sent..])).0 == s
    ensures Next(image, layout, l, DeliverBytes(|r.bytes| - l.line.sent)) == l.(session := s, line := Line([], 0))
  {
    assert l.line == Line([r], l.line.sent);
    WholeReplyArrives(r, l.line.sent);
    PushNeverEmits(image, layout, l.session, r.bytes[l.line.sent..]);
  }

  lemma PushNeverEmits(image: Image, layout: BankLayout, s: Status, bytes: seq<Byte>)
    ensures !Step(image, layout, s, PushAcknowledgement(bytes)).1.Emitted?
  {
  }

  lemma ExpectedMovesOn(image: Image, layout: BankLayout, s: Status, bytes: seq<Byte>)
    requires s.index < FrameCount(image) && bytes != []
    ensures React(image, layout, s, bytes, At(|bytes| - 1, Reported(ExpectedAcknowledgement(s.index)))).0
         == Status(s.index + 1, 0, Active, [])
  {
  }

  /** The answer to the frame in flight, in one piece, moves the session on. */
  lemma AnswerMovesOn(image: Image, layout: BankLayout, s: Status)
    requires Waiting(s) && s.index < FrameCount(image)
    ensures Step(image, layout, s, PushAcknowledgement(ReplyFor(s.index + 1).bytes)).0
         == Status(s.index + 1, 0, Active, [])
  {
    var bytes := ReplyFor(s.index + 1).bytes;
    ReplyHeard(s.index + 1);
    StepReacts(image, layout, s, bytes);
    ExpectedMovesOn(image, layout, s, bytes);
  }

  /** Every frame of the plan can be encoded. */
  ghost predicate Sendable(image: Image) {
    forall i :: 0 <= i < FrameCount(image) ==> Encodable(image, i)
  }

  predicate Promising(l: Link) {
    (Clear(l) && Alive(l.session)) || Flying(l) || Answering(l)
  }

  /** Events still needed. */
  function Distance(image: Image, l: Link): int {
    3 * (FrameCount(image) - l.session.index) - if Flying(l) then 1 else if Answering(l) then 2 else 0
  }

  predicate Nearer(image: Image, l: Link, r: Link) {
    Promising(r) && Distance(image, r) < Distance(image, l)
  }

  lemma FrameBringsNearer(image: Image, payload: nat -> seq<Byte>, l: Link)
    requires Flying(l)
    ensures Nearer(image, l, Answered(payload, l))
  {
    assert [] + [ReplyFor(l.session.index + 1)] == [ReplyFor(l.session.index + 1)];
  }

  lemma AnswerBringsNearer(image: Image, layout: BankLayout, l: Link)
    requires Answering(l) && l.session.index < FrameCount(image)
    ensures Nearer(image, l, Next(image, layout, l, DeliverBytes(|ReplyFor(l.session.index + 1).bytes|)))
  {
    var r := ReplyFor(l.session.index + 1);
    assert r.bytes[0..] == r.bytes;
    AnswerMovesOn(image, layout, l.session);
    AnswerArrives(image, layout, l, r, Status(l.session.index + 1, 0, Active, []));
  }

  lemma AttemptBringsNearer(image: Image, layout: BankLayout, l: Link)
    requires InTouch(image, l) && Clear(l) && Alive(l.session)
    requires l.session.index < FrameCount(image) && Encodable(image, l.session.index)
    ensures Nearer(image, l, Next(image, layout, l, Attempting(l.session)))
  {
    Attempted(image, layout, l);
  }

  lemma DeliveryBringsNearer(image: Image, layout: BankLayout, l: Link)
    requires InTouch(image, l) && Flying(l)
    ensures Nearer(image, l, Next(image, layout, l, DeliverFrame))
  {
    FrameAnswered(image, l);
    FrameBringsNearer(image, PayloadsOf(image), l);
  }

  lemma OneStepNearer(image: Image, layout: BankLayout, l: Link) returns (e: Event)
    requires Sendable(image) && InTouch(image, l) && Promising(l) && l.session.index < FrameCount(image)
    ensures Nearer(image, l, Next(image, layout, l, e))
  {
    if Flying(l) {
      e := DeliverFrame;
      DeliveryBringsNearer(image, layout, l);
    } else if Answering(l) {
      e := DeliverBytes(|ReplyFor(l.session.index + 1).bytes|);
      AnswerBringsNearer(image, layout, l);
    } else {
      e := Attempting(l.session);
      AttemptBringsNearer(image, layout, l);
    }
  }

  /** With nothing else on its way, the rest of the update can be got across. */
  lemma {:induction false} RestGetsAcross(image: Image, layout: BankLayout, l: Link) returns (events: seq<Event>)
    requires Sendable(image) && InTouch(image, l) && Promising(l)
    ensures StateOf(image, Continue(image, layout, l, events).session) == SessionState.Complete
    decreases Distance(image, l)
  {
    if l.session.index == FrameCount(image) {
      events := [];
    } else {
      var e := OneStepNearer(image, layout, l);
      NextKeepsTouch(image, layout, l, e);
      var rest := RestGetsAcross(image, layout, Next(image, layout, l, e));
      events := [e] + rest;
      ContinueConcat(image, layout, l, [e], rest);
      ContinueOne(image, layout, l, e);
    }
  }

  // ----- clearing the line

  /** The rest of a single answer never fails the session. */
  lemma LastAnswerIsHarmless(image: Image, layout: BankLayout, s: Status, bytes: seq<Byte>, line: Line, past: Line)
    requires s.condition != FailedClosed && |line.replies| <= 1
    requires ChunkHeard(Tuned, line, past, s.heard, bytes, Listen(Report, s.heard, bytes))
    ensures Step(image, layout, s, PushAcknowledgement(bytes)).0.condition != FailedClosed
  {
    if StateOf(image, s) == SessionState.AwaitingAcknowledgement {
      StepReacts(image, layout, s, bytes);
    }
  }

  /** Less is on its way, and the session is no worse off. */
  predicate Clearer(l: Link, r: Link) {
    && |r.forward| + |r.line.replies| < |l.forward| + |l.line.replies|
    && (Alive(l.session) ==> Alive(r.session))
  }

  lemma ToldKeepsAlive(image: Image, layout: BankLayout, s: Status, bytes: seq<Byte>, line: Line, past: Line)
    requires Alive(s) && |line.replies| <= 1
    requires Told(s, Step(image, layout, s, PushAcknowledgement(bytes)).0, line, past)
    requires ChunkHeard(Tuned, line, past, s.heard, bytes, Listen(Report, s.heard, bytes))
    ensures Alive(Step(image, layout, s, PushAcknowledgement(bytes)).0)
  {
    LastAnswerIsHarmless(image, layout, s, bytes, line, past);
  }

  lemma ChunkKeepsAlive(image: Image, layout: BankLayout, s: Status, line: Line, n: nat)
    requires Sound(image, s) && Attentive(s, line) && Alive(s) && |line.replies| <= 1
    ensures Alive(Step(image, layout, s, PushAcknowledgement(Arriving(line, n).0)).0)
  {
    ChunkIsHeard(line, s.heard, n);
    ChunkTells(image, layout, s, line, n);
    ToldKeepsAlive(image, layout, s, Arriving(line, n).0, line, Arriving(line, n).1);
  }

  lemma AnswerKeepsAlive(image: Image, layout: BankLayout, s: Status, r: Reply, sent: nat)
    requires Sound(image, s) && Attentive(s, Line([r], sent)) && Alive(s)
    ensures Alive(Step(image, layout, s, PushAcknowledgement(r.bytes[sent..])).0)
  {
    ChunkKeepsAlive(image, layout, s, Line([r], sent), |r.bytes| - sent);
    WholeReplyArrives(r, sent);
  }

  lemma ArrivalClears(image: Image, layout: BankLayout, l: Link, r: Reply, s: Status)
    requires l.line.replies == [r] && l.line.sent < |r.bytes| && Alive(s)
    requires Step(image, layout, l.session, PushAcknowledgement(r.bytes[l.line.sent..])).0 == s
    ensures Clearer(l, Next(image, layout, l, DeliverBytes(|r.bytes| - l.line.sent)))
  {
    AnswerArrives(image, layout, l, r, s);
  }

  lemma AnswerClears(image: Image, layout: BankLayout, l: Link, r: Reply)
    requires Sound(image, l.session) && Attentive(l.session, l.line) && Alive(l.session) && l.line.replies == [r]
    ensures Clearer(l, Next(image, layout, l, DeliverBytes(|r.bytes| - l.line.sent)))
  {
    assert l.line == Line([r], l.line.sent);
    AnswerKeepsAlive(image, layout, l.session, r, l.line.sent);
    ArrivalClears(image, layout, l, r, Step(image, layout, l.session, PushAcknowledgement(r.bytes[l.line.sent..])).0);
  }

  lemma LostFrameClears(image: Image, layout: BankLayout, l: Link)
    requires l.forward != []
    ensures Clearer(l, Next(image, layout, l, LoseFrame(0)))
  {
  }

  lemma LostReplyClears(image: Image, layout: BankLayout, l: Link)
    requires |l.line.replies| > 1
    ensures Clearer(l, Next(image, layout, l, LoseReply(1)))
  {
  }

  lemma OneThingLess(image: Image, layout: BankLayout, l: Link) returns (e: Event)
    requires InTouch(image, l) && Alive(l.session) && |l.forward| + |l.line.replies| > 0
    ensures Clearer(l, Next(image, layout, l, e))
  {
    if l.forward != [] {
      e := LoseFrame(0);
      LostFrameClears(image, layout, l);
    } else if |l.line.replies| > 1 {
      e := LoseReply(1);
      LostReplyClears(image, layout, l);
    } else {
      var r := l.line.replies[0];
      e := DeliverBytes(|r.bytes| - l.line.sent);
      AnswerClears(image, layout, l, r);
    }
  }

  lemma {:induction false} LineClears(image: Image, layout: BankLayout, l: Link) returns (events: seq<Event>)
    requires InTouch(image, l) && Alive(l.session)
    ensures var r := Continue(image, layout, l, events); Clear(r) && Alive(r.session)
    decreases |l.forward| + |l.line.replies|
  {
    if |l.forward| + |l.line.replies| == 0 {
      events := [];
    } else {
      var e := OneThingLess(image, layout, l);
      NextKeepsTouch(image, layout, l, e);
      var rest := LineClears(image, layout, Next(image, layout, l, e));
      events := [e] + rest;
      ContinueConcat(image, layout, l, [e], rest);
      ContinueOne(image, layout, l, e);
    }
  }

  // ----- every run

  /** From every run that has not failed and has an attempt left, some continuation completes the update. */
  lemma EveryRunCanComplete(image: Image, layout: BankLayout, events: seq<Event>)
    requires Sendable(image) && Alive(RunLink(image, layout, events).session)
    ensures exists more :: StateOf(image, RunLink(image, layout, events + more).session) == SessionState.Complete
  {
    EveryRunKeepsTouch(image, layout, events);
    var l := RunLink(image, layout, events);
    var clearing := LineClears(image, layout, l);
    ContinueKeepsTouch(image, layout, l, clearing);
    var rest := RestGetsAcross(image, layout, Continue(image, layout, l, clearing));
    ContinueConcat(image, layout, l, clearing, rest);
    ContinueConcat(image, layout, START, events, clearing + rest);
    assert StateOf(image, RunLink(image, layout, events + (clearing + rest)).session) == SessionState.Complete;
  }

  /** What the session has sent could be encoded. */
  ghost predicate Encoded(image: Image, s: Status) {
    forall i :: 0 <= i < FrameCount(image) && i < s.index + (if s.attempts > 0 then 1 else 0) ==> Encodable(image, i)
  }

  lemma StepKeepsEncoded(image: Image, layout: BankLayout, s: Status, call: Call)
    requires Sound(image, s) && Encoded(image, s)
    ensures Encoded(image, Step(image, layout, s, call).0)
  {
    StepIs(image, layout, s, call);
  }

  lemma {:induction false} EveryRunIsEncoded(image: Image, layout: BankLayout, events: seq<Event>)
    ensures Encoded(image, RunLink(image, layout, events).session)
    decreases |events|
  {
    if events != [] {
      var before := events[..|events| - 1];
      EveryRunIsEncoded(image, layout, before);
      EveryRunKeepsTouch(image, layout, before);
      NextKeepsEncoded(image, layout, RunLink(image, layout, before), events[|events| - 1]);
    }
  }

  lemma NextKeepsEncoded(image: Image, layout: BankLayout, l: Link, e: Event)
    requires Sound(image, l.session) && Encoded(image, l.session)
    ensures Encoded(image, Next(image, layout, l, e).session)
  {
    match e {
      case Send => StepKeepsEncoded(image, layout, l.session, NextFrame);
      case Resend => StepKeepsEncoded(image, layout, l.session, RetryFrame);
      case DeliverBytes(n) => StepKeepsEncoded(image, layout, l.session, PushAcknowledgement(Arriving(l.line, n).0));
      case LoseFrame(at) =>
      case LoseReply(at) =>
      case DeliverFrame =>
    }
  }

  /** An image can be transferred, by some run, if and only if its init packet fits one frame. */
  lemma SomeRunCompletesIff(image: Image, layout: BankLayout)
    ensures (exists events :: StateOf(image, RunLink(image, layout, events).session) == SessionState.Complete)
       <==> |image.initPacket| + 6 <= MAX_PAYLOAD_BYTES
  {
    forall i | 0 <= i < FrameCount(image)
      ensures Encodable(image, i) <==> i != 1 || |image.initPacket| + 6 <= MAX_PAYLOAD_BYTES
    {
      OnlyInitCanOverflow(image, i);
    }
    if |image.initPacket| + 6 <= MAX_PAYLOAD_BYTES {
      EveryRunCanComplete(image, layout, []);
    }
    forall events | StateOf(image, RunLink(image, layout, events).session) == SessionState.Complete
      ensures Encodable(image, 1)
    {
      EveryRunIsEncoded(image, layout, events);
    }
  }
}
