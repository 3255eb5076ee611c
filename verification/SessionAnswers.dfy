/**
 * What every answer of the DFU session tells: one who sees nothing but the calls and the answers knows, over every
 * run, what the next call is answered.
 */
module SessionAnswers {
  import opened Bytes
  import opened Framing
  import opened Transfer
  import opened Session
  import opened SessionRuns

  /** What was seen: frames accepted, attempts at the next one, what came for it, a retry asked for, a failure. */
  datatype Seen = Seen(accepted: nat, sent: nat, heard: seq<Byte>, retry: bool, failed: bool)

  const NOTHING := Seen(0, 0, [], false, false)

  function Watch(w: Seen, call: Call, o: Outcome): Seen {
    match o
    case Emitted(_, _) => w.(sent := w.sent + 1, heard := [], retry := false)
    case AwaitingMore => w.(heard := w.heard + if call.PushAcknowledgement? then call.bytes else [])
    case RetryTransition(_) => w.(heard := [], retry := true)
    case Accepted(_, _, _, _) => Seen(w.accepted + 1, 0, [], false, false)
    case Refused(error) => w.(failed := w.failed || error.AttemptsExhausted? || error.TrailingAcknowledgementBytes?)
  }

  function Watched(image: Image, layout: BankLayout, calls: seq<Call>): Seen
    decreases |calls|
  {
    if calls == [] then NOTHING
    else
      var before, call := calls[..|calls| - 1], calls[|calls| - 1];
      Watch(Watched(image, layout, before), call, Step(image, layout, Run(image, layout, before).status, call).1)
  }

  /** The answer to bytes for a frame in flight, by the first of them that ends a packet. */
  predicate Heeds(w: Seen, bytes: seq<Byte>, l: Listened, o: Outcome) {
    match l
    case AllQuiet => o == AwaitingMore
    case At(k, result) =>
      if result.Rejected? then o == RetryTransition(MalformedAcknowledgement)
      else if k < |bytes| - 1 then o == Refused(TrailingAcknowledgementBytes)
      else if result == Reported((2 + w.accepted) % 8) then o.Accepted?
      else o == RetryTransition(UnexpectedAck)
  }

  /** The answer to a call, after what was seen. */
  predicate Fits(image: Image, w: Seen, call: Call, o: Outcome) {
    if w.failed then o == Refused(SessionFailed)
    else if w.accepted == Chunks(image) + 3 then o == Refused(SessionComplete)
    else if w.retry && !call.RetryFrame? then o == Refused(FrameRetryRequired)
    else
      match call
      case NextFrame =>
        if w.sent > 0 then o == Refused(FrameAlreadyAwaitingAcknowledgement)
        else if w.accepted == 1 && |image.initPacket| + 6 > 4095 then
          o == Refused(FrameTooLong(PayloadTooLong(|image.initPacket| + 6, 4095)))
        else o.Emitted? && o.attempt == 1
      case RetryFrame =>
        if w.sent == 0 then o == Refused(NoFrameToRetry)
        else if w.sent == 3 then o == Refused(AttemptsExhausted((1 + w.accepted) % 8, 3))
        else o.Emitted? && o.attempt == w.sent + 1
      case PushAcknowledgement(bytes) =>
        if w.sent == 0 then o == Refused(NoFrameAwaiting) else Heeds(w, bytes, Listen(Report, w.heard, bytes), o)
  }

  /** What was seen is where the session stands. */
  predicate Matches(w: Seen, s: Status) {
    && (w.failed <==> s.condition == FailedClosed)
    && (!w.failed ==>
          && w.accepted == s.index && w.sent == s.attempts && w.heard == s.heard
          && (w.retry <==> s.condition == RetryNeeded))
  }

  /** A frame in flight is one that could be sent, and a frame not yet sent has nothing to hear. */
  predicate InFlight(image: Image, s: Status) {
    && Sound(image, s)
    && (s.attempts > 0 ==> s.index < FrameCount(image) && Encodable(image, s.index))
    && (s.attempts == 0 && s.condition != FailedClosed ==> s.heard == [])
  }

  /** After this answer, what was seen is again where the session stands. */
  predicate Answers(image: Image, w: Seen, call: Call, s': Status, o: Outcome) {
    Fits(image, w, call, o) && Matches(Watch(w, call, o), s') && InFlight(image, s')
  }

  lemma NextAnswered(image: Image, layout: BankLayout, w: Seen, s: Status)
    requires Matches(w, s) && InFlight(image, s)
    ensures var (s', o) := Step(image, layout, s, NextFrame); Answers(image, w, NextFrame, s', o)
  {
    if s.index < FrameCount(image) {
      OnlyInitCanOverflow(image, s.index);
      assert s.index == 1 ==> |Payload(image, 1)| == |image.initPacket| + 6;
    }
  }

  lemma RetryAnswered(image: Image, layout: BankLayout, w: Seen, s: Status)
    requires Matches(w, s) && InFlight(image, s)
    ensures var (s', o) := Step(image, layout, s, RetryFrame); Answers(image, w, RetryFrame, s', o)
  {
  }

  lemma ReactionHeeds(image: Image, layout: BankLayout, w: Seen, s: Status, bytes: seq<Byte>, l: Listened)
    requires Matches(w, s) && InFlight(image, s) && s.condition == Active && s.attempts > 0
    requires l.At? ==> l.offset < |bytes| && !l.result.Quiet?
    ensures var (s', o) := React(image, layout, s, bytes, l);
            && Heeds(w, bytes, l, o) && Matches(Watch(w, PushAcknowledgement(bytes), o), s') && InFlight(image, s')
  {
  }

  lemma PushAnswered(image: Image, layout: BankLayout, w: Seen, s: Status, bytes: seq<Byte>)
    requires Matches(w, s) && InFlight(image, s)
    ensures var (s', o) := Step(image, layout, s, PushAcknowledgement(bytes));
            Answers(image, w, PushAcknowledgement(bytes), s', o)
  {
    if StateOf(image, s) == SessionState.AwaitingAcknowledgement {
      StepReacts(image, layout, s, bytes);
      ReactionHeeds(image, layout, w, s, bytes, Listen(Report, s.heard, bytes));
    }
  }

  lemma StepAnswered(image: Image, layout: BankLayout, w: Seen, s: Status, call: Call)
    requires Matches(w, s) && InFlight(image, s)
    ensures var (s', o) := Step(image, layout, s, call); Answers(image, w, call, s', o)
  {
    match call {
      case NextFrame => NextAnswered(image, layout, w, s);
      case RetryFrame => RetryAnswered(image, layout, w, s);
      case PushAcknowledgement(bytes) => PushAnswered(image, layout, w, s, bytes);
    }
  }

  lemma {:induction false} EveryRunMatches(image: Image, layout: BankLayout, calls: seq<Call>)
    ensures var s := Run(image, layout, calls).status; Matches(Watched(image, layout, calls), s) && InFlight(image, s)
    decreases |calls|
  {
    if calls != [] {
      var before, call := calls[..|calls| - 1], calls[|calls| - 1];
      EveryRunMatches(image, layout, before);
      StepAnswered(image, layout, Watched(image, layout, before), Run(image, layout, before).status, call);
    }
  }

  /**
   * Over every run the next answer follows from the answers before it. A session that failed or is complete says so
   * for good; a frame is sent once, retried at most twice and then given up, and only the init packet can be too
   * long; bytes are heeded only for a frame in flight, up to the first packet they end, which has to be the last of
   * them, well formed, and numbered for that frame.
   */
  lemma EveryAnswerFits(image: Image, layout: BankLayout, calls: seq<Call>, call: Call)
    ensures var s := Run(image, layout, calls).status;
            Fits(image, Watched(image, layout, calls), call, Step(image, layout, s, call).1)
  {
    EveryRunMatches(image, layout, calls);
    StepAnswered(image, layout, Watched(image, layout, calls), Run(image, layout, calls).status, call);
  }
}
