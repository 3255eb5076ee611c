/**
 * The stop-and-wait DFU session of `prns-nrf-dfu-wasm/src/lib.rs`: frames in order, at most three
 * attempts each, progress only on the expected acknowledgement, and failure for good.
 */
module Session {
  import opened Bytes
  import opened Framing
  import opened Transfer

  datatype SessionState = Ready | AwaitingAcknowledgement | RetryRequired | Complete | Failed

  datatype Condition = Active | RetryNeeded | FailedClosed

  datatype RetryReason = MalformedAcknowledgement | UnexpectedAck

  datatype Error =
    | FrameTooLong(error: FrameEncodeError)
    | AttemptsExhausted(sequenceNumber: nat, attempts: nat)
    | FrameAlreadyAwaitingAcknowledgement
    | FrameRetryRequired
    | NoFrameToRetry
    | NoFrameAwaiting
    | TrailingAcknowledgementBytes
    | SessionComplete
    | SessionFailed

  datatype Call = NextFrame | RetryFrame | PushAcknowledgement(bytes: seq<Byte>)

  datatype Outcome =
    | Emitted(bytes: seq<Byte>, attempt: nat)
    | AwaitingMore
    | RetryTransition(reason: RetryReason)
    | Accepted(complete: bool, waitMilliseconds: nat, writtenBytes: nat, totalBytes: nat)
    | Refused(error: Error)

  // ----- the session as a state machine

  /** Frames acknowledged, attempts at the current one, and the bytes heard since the last reset. */
  datatype Status = Status(index: nat, attempts: nat, condition: Condition, heard: seq<Byte>)

  const INITIAL := Status(0, 0, Active, [])

  function StateOf(image: Image, s: Status): SessionState {
    match s.condition
    case RetryNeeded => RetryRequired
    case FailedClosed => Failed
    case Active =>
      if s.index >= FrameCount(image) then SessionState.Complete
      else if s.attempts > 0 then SessionState.AwaitingAcknowledgement
      else SessionState.Ready
  }

  /** The acknowledgement the frame at `index` asks for. */
  function ExpectedAcknowledgement(index: nat): nat {
    (2 + index) % SEQUENCE_MODULUS
  }

  function Attempt(image: Image, s: Status): (Status, Outcome) {
    if s.index >= FrameCount(image) then (s, Refused(SessionComplete))
    else if !Encodable(image, s.index) then
      (s, Refused(FrameTooLong(PayloadTooLong(|Payload(image, s.index)|, MAX_PAYLOAD_BYTES))))
    else if s.attempts >= RELIABLE_FRAME_ATTEMPT_LIMIT then
      (s.(condition := FailedClosed), Refused(AttemptsExhausted((1 + s.index) % SEQUENCE_MODULUS, s.attempts)))
    else
      (s.(attempts := s.attempts + 1), Emitted(FrameAt(image, s.index).bytes, s.attempts + 1))
  }

  /** The first byte that is not quiet after `heard`, and what it produced. */
  datatype Listened = AllQuiet | At(offset: nat, result: PushResult)

  function Listen(report: (seq<Byte>, Byte) -> PushResult, heard: seq<Byte>, bytes: seq<Byte>): (l: Listened)
    ensures l.At? ==> l.offset < |bytes| && !l.result.Quiet?
    decreases |bytes|
  {
    if bytes == [] then AllQuiet
    else
      var r := report(heard, bytes[0]);
      if r.Quiet? then Later(Listen(report, heard + [bytes[0]], bytes[1..]), 1) else At(0, r)
  }

  function Later(l: Listened, shift: nat): Listened {
    match l
    case AllQuiet => AllQuiet
    case At(k, result) => At(k + shift, result)
  }

  function Accept(image: Image, layout: BankLayout, s: Status, acknowledgement: nat): (Status, Outcome)
    requires s.index < FrameCount(image)
  {
    if acknowledgement != ExpectedAcknowledgement(s.index) then
      (s.(condition := RetryNeeded, heard := []), RetryTransition(UnexpectedAck))
    else
      (Status(s.index + 1, 0, Active, []),
       Accepted(s.index + 1 == FrameCount(image), (WaitAfter(image, layout, s.index) + 999) / 1000,
                WrittenAfter(image, s.index), |image.firmware|))
  }

  function React(image: Image, layout: BankLayout, s: Status, bytes: seq<Byte>, listened: Listened): (Status, Outcome)
    requires s.index < FrameCount(image)
    requires listened.At? ==> listened.offset < |bytes|
  {
    match listened
    case AllQuiet => (s.(heard := s.heard + bytes), AwaitingMore)
    case At(k, result) =>
      if result.Rejected? then (s.(condition := RetryNeeded, heard := []), RetryTransition(MalformedAcknowledgement))
      else if k + 1 != |bytes| then
        (s.(condition := FailedClosed, heard := s.heard + bytes[..k + 1]), Refused(TrailingAcknowledgementBytes))
      else if result.Reported? then Accept(image, layout, s, result.acknowledgement)
      else (s, AwaitingMore)
  }

  /** One call from the page driving the update. */
  function Step(image: Image, layout: BankLayout, s: Status, call: Call): (Status, Outcome) {
    match call
    case NextFrame => (
      match StateOf(image, s)
      case Ready => Attempt(image, s)
      case AwaitingAcknowledgement => (s, Refused(FrameAlreadyAwaitingAcknowledgement))
      case RetryRequired => (s, Refused(FrameRetryRequired))
      case Complete => (s, Refused(SessionComplete))
      case Failed => (s, Refused(SessionFailed)))
    case RetryFrame => (
      match StateOf(image, s)
      case Ready => (s, Refused(NoFrameToRetry))
      case AwaitingAcknowledgement => Attempt(image, s.(heard := [], condition := Active))
      case RetryRequired => Attempt(image, s.(heard := [], condition := Active))
      case Complete => (s, Refused(SessionComplete))
      case Failed => (s, Refused(SessionFailed)))
    case PushAcknowledgement(bytes) => (
      match StateOf(image, s)
      case Ready => (s, Refused(NoFrameAwaiting))
      case AwaitingAcknowledgement => React(image, layout, s, bytes, Listen(Report, s.heard, bytes))
      case RetryRequired => (s, Refused(FrameRetryRequired))
      case Complete => (s, Refused(SessionComplete))
      case Failed => (s, Refused(SessionFailed)))
  }

  // ----- the session object

  class NrfDfuSession {
    const image: Image
    const layout: BankLayout
    const transfer: DfuTransfer
    const attempts: ReliableFrameAttempts
    var decoder: AcknowledgementDecoder
    var condition: Condition

    ghost predicate Valid()
      reads this, transfer, transfer.encoder, decoder, attempts
    {
      && transfer.Valid() && transfer.image == image && transfer.bankLayout == layout
      && decoder.Valid() && attempts.Valid()
      && (transfer.pending.None? <==> attempts.state.NoAttempt?)
      && (attempts.state.Pending? ==> attempts.state.sequenceNumber == (1 + transfer.index) % SEQUENCE_MODULUS)
      && (condition == RetryNeeded ==> transfer.pending.Some?)
    }

    ghost function Current(): Status
      reads this, transfer, transfer.encoder, decoder, attempts
    {
      Status(transfer.index, if attempts.state.Pending? then attempts.state.attempts else 0, condition, decoder.history)
    }

    constructor (image: Image, layout: BankLayout)
      ensures Valid() && fresh(transfer) && fresh(transfer.encoder) && fresh(decoder) && fresh(attempts)
      ensures this.image == image && this.layout == layout
      ensures Current() == INITIAL
    {
      this.image, this.layout := image, layout;
      transfer := new DfuTransfer(image, layout);
      decoder := new AcknowledgementDecoder();
      attempts := new ReliableFrameAttempts();
      condition := Active;
    }

    /** The externally visible state is read off the parts as the state machine says. */
    method State() returns (r: SessionState)
      requires Valid()
      ensures r == StateOf(image, Current())
    {
      CompleteAtTheEnd(image, layout, transfer.index, transfer.phase, transfer.pending);
      match condition {
        case RetryNeeded => return RetryRequired;
        case FailedClosed => return Failed;
        case Active =>
          match transfer.State() {
            case Ready => return SessionState.Ready;
            case AwaitingAcknowledgement => return SessionState.AwaitingAcknowledgement;
            case Complete => return SessionState.Complete;
          }
      }
    }

    method BeginNextFrame() returns (r: Outcome)
      requires Valid()
      modifies this, transfer, transfer.encoder, decoder, attempts
      ensures Valid() && (decoder == old(decoder) || fresh(decoder))
      ensures Current() == Step(image, layout, old(Current()), NextFrame).0
      ensures r == Step(image, layout, old(Current()), NextFrame).1
    {
      var state := State();
      match state {
        case Ready => r := BeginPendingAttempt();
        case AwaitingAcknowledgement => r := Refused(FrameAlreadyAwaitingAcknowledgement);
        case RetryRequired => r := Refused(FrameRetryRequired);
        case Complete => r := Refused(SessionComplete);
        case Failed => r := Refused(SessionFailed);
      }
    }

    method BeginRetry() returns (r: Outcome)
      requires Valid()
      modifies this, transfer, transfer.encoder, decoder, attempts
      ensures Valid() && (decoder == old(decoder) || fresh(decoder))
      ensures Current() == Step(image, layout, old(Current()), RetryFrame).0
      ensures r == Step(image, layout, old(Current()), RetryFrame).1
    {
      var state := State();
      match state {
        case AwaitingAcknowledgement =>
          ResetDecoder(Active);
          r := BeginPendingAttempt();
        case RetryRequired =>
          ResetDecoder(Active);
          r := BeginPendingAttempt();
        case Ready => r := Refused(NoFrameToRetry);
        case Complete => r := Refused(SessionComplete);
        case Failed => r := Refused(SessionFailed);
      }
    }

    method BeginPendingAttempt() returns (r: Outcome)
      requires Valid() && condition == Active
      modifies this`condition, transfer, transfer.encoder, attempts
      ensures Valid()
      ensures Current() == Attempt(image, old(Current())).0 && r == Attempt(image, old(Current())).1
    {
      var next := transfer.NextFrame();
      match next {
        case Err(e) => return Refused(FrameTooLong(e.error));
        case Ok(None) => return Refused(SessionComplete);
        case Ok(Some(pending)) =>
          PendingFacts(image, layout, transfer.index, transfer.phase, transfer.pending);
          var attempt := attempts.Begin(pending.encoded.sequenceNumber);
          match attempt {
            case Ok(number) => return Emitted(pending.encoded.bytes, number);
            case Err(error) =>
              condition := FailedClosed;
              return Refused(AttemptsExhausted(error.sequenceNumber, error.attempts));
          }
      }
    }

    method DecodeAcknowledgement(bytes: seq<Byte>) returns (r: Outcome)
      requires Valid()
      modifies this, transfer, transfer.encoder, decoder, attempts
      ensures Valid() && (decoder == old(decoder) || fresh(decoder))
      ensures Current() == Step(image, layout, old(Current()), PushAcknowledgement(bytes)).0
      ensures r == Step(image, layout, old(Current()), PushAcknowledgement(bytes)).1
    {
      var state := State();
      match state {
        case AwaitingAcknowledgement =>
        case RetryRequired => return Refused(FrameRetryRequired);
        case Ready => return Refused(NoFrameAwaiting);
        case Complete => return Refused(SessionComplete);
        case Failed => return Refused(SessionFailed);
      }
      r := HearBytes(bytes);
    }

    method HearBytes(bytes: seq<Byte>) returns (r: Outcome)
      requires Valid() && condition == Active && transfer.pending.Some?
      modifies this, transfer, transfer.encoder, decoder, attempts
      ensures Valid() && (decoder == old(decoder) || fresh(decoder))
      ensures var reaction := React(image, layout, old(Current()), bytes, Listen(Report, old(Current()).heard, bytes));
              Current() == reaction.0 && r == reaction.1
    {
      ghost var before := Current();
      var listened := PushAll(bytes);
      r := ReactTo(listened, bytes, before);
    }

    method ReactTo(listened: Listened, bytes: seq<Byte>, ghost before: Status) returns (r: Outcome)
      requires Valid() && condition == Active && transfer.pending.Some?
      requires listened.At? ==> listened.offset < |bytes| && !listened.result.Quiet?
      requires before == Current().(heard := before.heard)
      requires Current().heard == before.heard + (if listened.At? then bytes[..listened.offset + 1] else bytes)
      modifies this, transfer, transfer.encoder, decoder, attempts
      ensures Valid() && (decoder == old(decoder) || fresh(decoder))
      ensures var reaction := React(image, layout, before, bytes, listened); Current() == reaction.0 && r == reaction.1
    {
      match listened {
        case AllQuiet => return AwaitingMore;
        case At(offset, result) =>
          if result.Rejected? {
            ResetDecoder(RetryNeeded);
            return RetryTransition(MalformedAcknowledgement);
          }
          if offset + 1 != |bytes| {
            condition := FailedClosed;
            return Refused(TrailingAcknowledgementBytes);
          }
          assert result.Reported?;
          r := AcceptAcknowledgement(result.acknowledgement);
      }
    }

    /** Feeds the decoder up to and including the first byte that is not quiet. */
    method PushAll(bytes: seq<Byte>) returns (l: Listened)
      requires decoder.Valid()
      modifies decoder
      ensures decoder.Valid()
      ensures l == Listen(Report, old(decoder.history), bytes)
      ensures decoder.history == old(decoder.history) + (if l.At? then bytes[..l.offset + 1] else bytes)
    {
      ghost var heard := decoder.history;
      for offset := 0 to |bytes|
        invariant decoder.Valid() && decoder.history == heard + bytes[..offset]
        invariant Listen(Report, heard, bytes)
               == Later(Listen(Report, heard + bytes[..offset], bytes[offset..]), offset)
      {
        assert bytes[offset..][0] == bytes[offset] && bytes[offset..][1..] == bytes[offset + 1..];
        assert heard + bytes[..offset] + [bytes[offset]] == heard + bytes[..offset + 1];
        var pushed := decoder.Push(bytes[offset]);
        if !pushed.Quiet? {
          return At(offset, pushed);
        }
      }
      assert bytes[..|bytes|] == bytes;
      return AllQuiet;
    }

    method ResetDecoder(next: Condition)
      requires Valid() && (next == RetryNeeded ==> transfer.pending.Some?)
      modifies this`decoder, this`condition
      ensures Valid() && fresh(decoder)
      ensures Current() == old(Current()).(condition := next, heard := [])
    {
      decoder := new AcknowledgementDecoder();
      condition := next;
    }

    method AcceptAcknowledgement(acknowledgement: nat) returns (r: Outcome)
      requires Valid() && condition == Active && transfer.pending.Some?
      modifies this, transfer, transfer.encoder, decoder, attempts
      ensures Valid() && (decoder == old(decoder) || fresh(decoder))
      ensures Current() == Accept(image, layout, old(Current()), acknowledgement).0
      ensures r == Accept(image, layout, old(Current()), acknowledgement).1
    {
      var pending := transfer.StillPending();
      PendingFacts(image, layout, transfer.index, transfer.phase, transfer.pending);
      var acknowledged := transfer.Acknowledge(acknowledgement);
      match acknowledged {
        case Err(_) =>
          ResetDecoder(RetryNeeded);
          return RetryTransition(UnexpectedAck);
        case Ok(state) =>
          r := MoveOn(pending, state);
      }
    }

    /** After the transfer has advanced: clear the attempts, listen afresh, and report the wait and progress. */
    method MoveOn(pending: PendingFrame, state: TransferState) returns (r: Outcome)
      requires transfer.Valid() && transfer.image == image && transfer.bankLayout == layout && transfer.pending.None?
      requires decoder.Valid() && attempts.Valid()
      requires attempts.state.Pending? && attempts.state.sequenceNumber == pending.encoded.sequenceNumber
      modifies this`decoder, this`condition, attempts
      ensures Valid() && fresh(decoder)
      ensures Current() == Status(transfer.index, 0, Active, [])
      ensures r == Accepted(state == TransferState.Complete, (pending.wait + 999) / 1000,
                            pending.writtenBytes, pending.totalBytes)
    {
      var cleared := attempts.Accepted(pending.encoded.sequenceNumber);
      assert cleared.Ok?;
      decoder := new AcknowledgementDecoder();
      condition := Active;
      return Accepted(state == TransferState.Complete, (pending.wait + 999) / 1000,
                      pending.writtenBytes, pending.totalBytes);
    }
  }
}
