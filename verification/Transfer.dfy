/** Planning and stepping through a firmware transfer (`prns-nrf-dfu/src/transfer.rs`). */
module Transfer {
  import opened Bytes
  import opened Framing

  const DFU_INIT_PACKET := 1
  const DFU_START_PACKET := 3
  const DFU_DATA_PACKET := 4
  const DFU_STOP_DATA_PACKET := 5
  const DFU_UPDATE_MODE_APPLICATION := 4
  const FIRMWARE_CHUNK_BYTES := 512
  const FLASH_PAGE_BYTES := 4096
  const FLASH_PAGE_ERASE_MICROSECONDS := 89_700
  const FLASH_PAGE_WRITE_MICROSECONDS := 102_400
  const MINIMUM_ERASE_WAIT_MICROSECONDS := 500_000
  const RELIABLE_FRAME_ATTEMPT_LIMIT := 3

  datatype BankLayout = Single | Dual

  datatype DfuImage = DfuImage(firmware: seq<Byte>, initPacket: seq<Byte>)

  /** Image construction refuses empty firmware and firmware whose size needs more than 32 bits. */
  type Image = i: DfuImage | 0 < |i.firmware| < U32_LIMIT witness DfuImage([0], [])

  // ----- the plan: every frame of a transfer, by index

  function Chunks(image: Image): (n: nat)
    ensures n >= 1 && FIRMWARE_CHUNK_BYTES * (n - 1) < |image.firmware| <= FIRMWARE_CHUNK_BYTES * n
  {
    (|image.firmware| + FIRMWARE_CHUNK_BYTES - 1) / FIRMWARE_CHUNK_BYTES
  }

  /** Start, init, the data chunks, stop. */
  function FrameCount(image: Image): nat {
    Chunks(image) + 3
  }

  datatype Phase = Start | Init | Data(offset: nat) | Stop | Complete

  function PhaseAt(image: Image, i: nat): Phase {
    if i == 0 then Start
    else if i == 1 then Init
    else if i < Chunks(image) + 2 then Data(FIRMWARE_CHUNK_BYTES * (i - 2))
    else if i == Chunks(image) + 2 then Stop
    else Phase.Complete
  }

  function Min(a: int, b: int): int {
    if a < b then a else b
  }

  function Chunk(image: Image, offset: nat): seq<Byte>
    requires offset <= |image.firmware|
  {
    image.firmware[offset..Min(offset + FIRMWARE_CHUNK_BYTES, |image.firmware|)]
  }

  /** The payload of the i-th frame. */
  function Payload(image: Image, i: nat): seq<Byte>
    requires i < FrameCount(image)
  {
    match PhaseAt(image, i)
    case Start =>
      Le32(DFU_START_PACKET) + Le32(DFU_UPDATE_MODE_APPLICATION) + Le32(0) + Le32(0) + Le32(|image.firmware|)
    case Init => Le32(DFU_INIT_PACKET) + image.initPacket + Le16(0)
    case Data(offset) => Le32(DFU_DATA_PACKET) + Chunk(image, offset)
    case Stop => Le32(DFU_STOP_DATA_PACKET)
    case Complete => []
  }

  predicate Encodable(image: Image, i: nat)
    requires i < FrameCount(image)
  {
    |Payload(image, i)| <= MAX_PAYLOAD_BYTES
  }

  function FrameAt(image: Image, i: nat): EncodedFrame
    requires i < FrameCount(image) && Encodable(image, i)
  {
    Frame((1 + i) % SEQUENCE_MODULUS, Payload(image, i))
  }

  /** Only the init packet can make a frame too long. */
  lemma OnlyInitCanOverflow(image: Image, i: nat)
    requires i < FrameCount(image)
    ensures Encodable(image, i) <==> i != 1 || |image.initPacket| + 6 <= MAX_PAYLOAD_BYTES
  {
  }

  /** The firmware the first n data frames carry, in order. */
  function Carried(image: Image, n: nat): seq<Byte>
    requires n <= Chunks(image)
  {
    if n == 0 then [] else Carried(image, n - 1) + Payload(image, n + 1)[4..]
  }

  /** The data frames carry exactly the firmware: nothing lost, repeated or reordered. */
  lemma {:induction false} DataFramesCarryFirmware(image: Image, n: nat)
    requires n <= Chunks(image)
    ensures Carried(image, n) == image.firmware[..Min(FIRMWARE_CHUNK_BYTES * n, |image.firmware|)]
    ensures n == Chunks(image) ==> Carried(image, n) == image.firmware
  {
    if n > 0 {
      DataFramesCarryFirmware(image, n - 1);
      DataPayload(image, n - 1);
      Spliced(image.firmware, FIRMWARE_CHUNK_BYTES * (n - 1), Min(FIRMWARE_CHUNK_BYTES * n, |image.firmware|));
    }
  }

  lemma DataPayload(image: Image, n: nat)
    requires n < Chunks(image)
    ensures Payload(image, n + 2)[4..] == Chunk(image, FIRMWARE_CHUNK_BYTES * n)
  {
  }

  lemma Spliced(s: seq<Byte>, a: nat, b: nat)
    requires a <= b <= |s|
    ensures s[..a] + s[a..b] == s[..b]
  {
  }

  function FlashPages(imageBytes: nat): nat {
    (imageBytes + FLASH_PAGE_BYTES - 1) / FLASH_PAGE_BYTES
  }

  function EraseWait(imageBytes: nat): nat {
    var calculated := FlashPages(imageBytes) * FLASH_PAGE_ERASE_MICROSECONDS;
    if calculated < MINIMUM_ERASE_WAIT_MICROSECONDS then MINIMUM_ERASE_WAIT_MICROSECONDS else calculated
  }

  function ActivationWait(imageBytes: nat, layout: BankLayout): nat {
    match layout
    case Single => FLASH_PAGE_ERASE_MICROSECONDS + FLASH_PAGE_WRITE_MICROSECONDS
    case Dual => EraseWait(imageBytes) + FlashPages(imageBytes) * FLASH_PAGE_WRITE_MICROSECONDS
  }

  /** Microseconds to wait after the i-th frame is acknowledged. */
  function WaitAfter(image: Image, layout: BankLayout, i: nat): nat
    requires i < FrameCount(image)
  {
    match PhaseAt(image, i)
    case Start => EraseWait(|image.firmware|)
    case Init => 0
    case Data(offset) =>
      var next := offset + |Chunk(image, offset)|;
      if next % FLASH_PAGE_BYTES == 0 || next == |image.firmware| then FLASH_PAGE_WRITE_MICROSECONDS else 0
    case Stop => ActivationWait(|image.firmware|, layout)
    case Complete => 0
  }

  /** Firmware bytes written once the i-th frame is acknowledged. */
  function WrittenAfter(image: Image, i: nat): nat
    requires i < FrameCount(image)
  {
    match PhaseAt(image, i)
    case Start => 0
    case Init => 0
    case Data(offset) => offset + |Chunk(image, offset)|
    case Stop => |image.firmware|
    case Complete => |image.firmware|
  }

  // ----- the transfer object

  datatype TransferState = AwaitingAcknowledgement | Ready | Complete

  datatype PendingFrame = PendingFrame(
    encoded: EncodedFrame, nextPhase: Phase, wait: nat, writtenBytes: nat, totalBytes: nat)

  datatype TransferError =
    | Encode(error: FrameEncodeError)
    | NoFrameAwaitingAcknowledgement
    | UnexpectedAcknowledgement(expected: nat, actual: nat)

  function PendingAt(image: Image, layout: BankLayout, i: nat): PendingFrame
    requires i < FrameCount(image) && Encodable(image, i)
  {
    PendingFrame(FrameAt(image, i), PhaseAt(image, i + 1), WaitAfter(image, layout, i),
                 WrittenAfter(image, i), |image.firmware|)
  }

  /**
   * What keeps a transfer on its plan: the phase it is in, and the frame that is pending. The two are held
   * behind a quantifier, so that the methods carry them along without unfolding the plan.
   */
  datatype Aspect = OfPhase | OfFrame

  ghost predicate FollowsIn(
    image: Image, layout: BankLayout, i: nat, phase: Phase, pending: Option<PendingFrame>, aspect: Aspect)
  {
    match aspect
    case OfPhase => phase == PhaseAt(image, i)
    case OfFrame =>
      pending.Some? ==> i < FrameCount(image) && Encodable(image, i) && pending.value == PendingAt(image, layout, i)
  }

  ghost predicate Follows(image: Image, layout: BankLayout, i: nat, phase: Phase, pending: Option<PendingFrame>) {
    forall aspect :: FollowsIn(image, layout, i, phase, pending, aspect)
  }

  lemma FollowsMeans(image: Image, layout: BankLayout, i: nat, phase: Phase, pending: Option<PendingFrame>)
    ensures Follows(image, layout, i, phase, pending) <==>
            && phase == PhaseAt(image, i)
            && (pending.Some? ==>
                  i < FrameCount(image) && Encodable(image, i) && pending.value == PendingAt(image, layout, i))
  {
    if Follows(image, layout, i, phase, pending) {
      assert FollowsIn(image, layout, i, phase, pending, OfPhase);
      assert FollowsIn(image, layout, i, phase, pending, OfFrame);
    } else {
      var aspect :| !FollowsIn(image, layout, i, phase, pending, aspect);
      assert aspect == OfPhase || aspect == OfFrame;
    }
  }

  /** The last phase is the one after the last frame. */
  lemma CompleteAtTheEnd(image: Image, layout: BankLayout, i: nat, phase: Phase, pending: Option<PendingFrame>)
    requires i <= FrameCount(image) && Follows(image, layout, i, phase, pending)
    ensures phase == Phase.Complete <==> i == FrameCount(image)
  {
    FollowsMeans(image, layout, i, phase, pending);
  }

  /** What an acknowledgement of the pending frame needs to know of it. */
  lemma PendingFacts(image: Image, layout: BankLayout, i: nat, phase: Phase, pending: Option<PendingFrame>)
    requires pending.Some? && Follows(image, layout, i, phase, pending)
    ensures var p := pending.value;
            && i < FrameCount(image)
            && p.encoded.sequenceNumber == (1 + i) % SEQUENCE_MODULUS
            && p.encoded.expectedAcknowledgement == (2 + i) % SEQUENCE_MODULUS
            && p.wait == WaitAfter(image, layout, i) && p.writtenBytes == WrittenAfter(image, i)
            && p.totalBytes == |image.firmware|
            && Follows(image, layout, i + 1, p.nextPhase, None)
  {
    FollowsMeans(image, layout, i, phase, pending);
    FollowsMeans(image, layout, i + 1, pending.value.nextPhase, None);
    NextSequence(i);
  }

  class DfuTransfer {
    const image: Image
    const bankLayout: BankLayout
    const encoder: ReliableFrameEncoder
    var phase: Phase
    var pending: Option<PendingFrame>
    ghost var index: nat  // frames acknowledged so far

    ghost predicate Valid()
      reads this, encoder
    {
      && encoder.Valid()
      && index <= FrameCount(image)
      && encoder.encoded == index + (if pending.Some? then 1 else 0)
      && (pending.Some? ==> index < FrameCount(image))
      && Follows(image, bankLayout, index, phase, pending)
    }

    constructor (image: Image, bankLayout: BankLayout)
      ensures Valid() && fresh(encoder)
      ensures this.image == image && this.bankLayout == bankLayout
      ensures index == 0 && pending == None
    {
      this.image, this.bankLayout := image, bankLayout;
      encoder := new ReliableFrameEncoder();
      phase, pending, index := Start, None, 0;
      FollowsMeans(image, bankLayout, 0, Start, None);
    }

    function State(): TransferState
      reads this
    {
      if phase == Phase.Complete then TransferState.Complete
      else if pending.Some? then AwaitingAcknowledgement
      else Ready
    }

    /** The pending frame, built on first use and then the same until it is acknowledged. */
    method NextFrame() returns (r: Result<Option<PendingFrame>, TransferError>)
      requires Valid()
      modifies this, encoder
      ensures Valid() && index == old(index) && phase == old(phase) && (old(pending).Some? ==> pending == old(pending))
      ensures index == FrameCount(image) ==> r == Ok(None) && pending == old(pending)
      ensures index < FrameCount(image) && !Encodable(image, index) ==>
                && r == Err(Encode(PayloadTooLong(|Payload(image, index)|, MAX_PAYLOAD_BYTES)))
                && pending == None
      ensures index < FrameCount(image) && Encodable(image, index) ==>
                && r == Ok(Some(PendingAt(image, bankLayout, index)))
                && pending == Some(PendingAt(image, bankLayout, index))
    {
      FollowsMeans(image, bankLayout, index, phase, pending);
      if phase == Phase.Complete {
        return Ok(None);
      }
      if pending.None? {
        var built := BuildPendingFrame();
        match built {
          case Err(e) => return Err(e);
          case Ok(frame) => pending := Some(frame);
        }
        FollowsMeans(image, bankLayout, index, phase, pending);
      }
      return Ok(pending);
    }

    /** The frame that is pending already, without the plan that explains it. */
    method StillPending() returns (frame: PendingFrame)
      requires Valid() && pending.Some?
      modifies this, encoder
      ensures Valid() && index == old(index) && pending == old(pending) == Some(frame) && phase == old(phase)
    {
      FollowsMeans(image, bankLayout, index, phase, pending);
      var next := NextFrame();
      frame := next.value.value;
    }

    /** Payload, successor phase, wait and progress of the current phase's frame. */
    method PlanFrame() returns (payload: seq<Byte>, nextPhase: Phase, wait: nat, writtenBytes: nat)
      requires index < FrameCount(image) && phase == PhaseAt(image, index)
      ensures payload == Payload(image, index) && nextPhase == PhaseAt(image, index + 1)
      ensures wait == WaitAfter(image, bankLayout, index) && writtenBytes == WrittenAfter(image, index)
    {
      var totalBytes := |image.firmware|;
      payload, nextPhase, wait, writtenBytes := [], Phase.Complete, 0, totalBytes;
      match phase {
        case Start =>
          payload := Le32(DFU_START_PACKET) + Le32(DFU_UPDATE_MODE_APPLICATION) + Le32(0) + Le32(0) + Le32(totalBytes);
          nextPhase, wait, writtenBytes := Init, EraseWait(totalBytes), 0;
        case Init =>
          payload := Le32(DFU_INIT_PACKET) + image.initPacket + Le16(0);
          nextPhase, wait, writtenBytes := Data(0), 0, 0;
        case Data(offset) =>
          var remaining := image.firmware[offset..];
          var chunkBytes := Min(|remaining|, FIRMWARE_CHUNK_BYTES);
          var nextOffset := offset + chunkBytes;
          payload := Le32(DFU_DATA_PACKET) + remaining[..chunkBytes];
          assert remaining[..chunkBytes] == Chunk(image, offset);
          nextPhase := if nextOffset == totalBytes then Stop else Data(nextOffset);
          var pageBoundary := nextOffset % FLASH_PAGE_BYTES == 0;
          var finalChunk := nextOffset == totalBytes;
          wait := if pageBoundary || finalChunk then FLASH_PAGE_WRITE_MICROSECONDS else 0;
          writtenBytes := nextOffset;
        case Stop =>
          payload := Le32(DFU_STOP_DATA_PACKET);
          wait := ActivationWait(totalBytes, bankLayout);
      }
    }

    method BuildPendingFrame() returns (r: Result<PendingFrame, TransferError>)
      requires encoder.Valid() && encoder.encoded == index < FrameCount(image) && phase == PhaseAt(image, index)
      modifies encoder
      ensures encoder.Valid()
      ensures !Encodable(image, index) ==>
                && r == Err(Encode(PayloadTooLong(|Payload(image, index)|, MAX_PAYLOAD_BYTES)))
                && encoder.encoded == old(encoder.encoded)
      ensures Encodable(image, index) ==>
                r == Ok(PendingAt(image, bankLayout, index)) && encoder.encoded == old(encoder.encoded) + 1
    {
      var payload, nextPhase, wait, writtenBytes := PlanFrame();
      var encoded := encoder.Encode(payload);
      match encoded {
        case Err(e) => return Err(Encode(e));
        case Ok(frame) =>
          return Ok(PendingFrame(frame, nextPhase, wait, writtenBytes, |image.firmware|));
      }
    }

    /** Advances on the pending frame's expected acknowledgement and on nothing else. */
    method Acknowledge(acknowledgement: nat) returns (r: Result<TransferState, TransferError>)
      requires Valid()
      modifies this
      ensures Valid()
      ensures old(pending).None? ==> r == Err(NoFrameAwaitingAcknowledgement) && index == old(index) && pending == None
      ensures old(pending).Some? ==>
                var expected := (2 + old(index)) % SEQUENCE_MODULUS;
                if acknowledgement == expected then
                  && index == old(index) + 1 && pending == None
                  && r == Ok(if index == FrameCount(image) then TransferState.Complete else Ready)
                else
                  && index == old(index) && pending == old(pending)
                  && r == Err(UnexpectedAcknowledgement(expected, acknowledgement))
    {
      match pending {
        case None => return Err(NoFrameAwaitingAcknowledgement);
        case Some(p) =>
          var expected := p.encoded.expectedAcknowledgement;
          PendingFacts(image, bankLayout, index, phase, pending);
          if acknowledgement != expected {
            return Err(UnexpectedAcknowledgement(expected, acknowledgement));
          }
          phase := p.nextPhase;
          pending := None;
          index := index + 1;
          CompleteAtTheEnd(image, bankLayout, index, phase, pending);
          return Ok(if phase == Phase.Complete then TransferState.Complete else Ready);
      }
    }
  }

  // ----- attempts

  datatype AttemptState = NoAttempt | Pending(sequenceNumber: nat, attempts: nat)

  datatype AttemptError =
    | Exhausted(sequenceNumber: nat, attempts: nat)
    | FrameChanged(pending: nat, actual: nat)
    | NoPendingAttempt

  class ReliableFrameAttempts {
    var state: AttemptState

    ghost predicate Valid()
      reads this
    {
      state.Pending? ==> 1 <= state.attempts <= RELIABLE_FRAME_ATTEMPT_LIMIT
    }

    constructor ()
      ensures Valid() && state == NoAttempt
    {
      state := NoAttempt;
    }

    /** Numbers the next attempt of a frame; a fourth attempt or a changed frame is refused. */
    method Begin(sequenceNumber: nat) returns (r: Result<nat, AttemptError>)
      requires Valid()
      modifies this
      ensures Valid()
      ensures r.Ok? <==> (old(state).NoAttempt?
                          || (old(state).sequenceNumber == sequenceNumber
                              && old(state).attempts < RELIABLE_FRAME_ATTEMPT_LIMIT))
      ensures r.Ok? ==> && r.value == (if old(state).Pending? then old(state).attempts + 1 else 1)
                        && state == Pending(sequenceNumber, r.value)
      ensures r.Err? ==> && state == old(state)
                         && r.error == (if old(state).sequenceNumber == sequenceNumber
                                        then Exhausted(sequenceNumber, old(state).attempts)
                                        else FrameChanged(old(state).sequenceNumber, sequenceNumber))
    {
      var number := 1;
      if state.Pending? {
        if state.sequenceNumber != sequenceNumber {
          return Err(FrameChanged(state.sequenceNumber, sequenceNumber));
        }
        if state.attempts >= RELIABLE_FRAME_ATTEMPT_LIMIT {
          return Err(Exhausted(sequenceNumber, state.attempts));
        }
        number := state.attempts + 1;
      }
      state := Pending(sequenceNumber, number);
      return Ok(number);
    }

    method Accepted(sequenceNumber: nat) returns (r: Result<(), AttemptError>)
      requires Valid()
      modifies this
      ensures Valid()
      ensures r.Ok? <==> old(state).Pending? && old(state).sequenceNumber == sequenceNumber
      ensures state == if r.Ok? then NoAttempt else old(state)
      ensures r.Err? ==> r.error == (if old(state).NoAttempt? then NoPendingAttempt
                                     else FrameChanged(old(state).sequenceNumber, sequenceNumber))
    {
      match state {
        case NoAttempt => return Err(NoPendingAttempt);
        case Pending(pending, _) =>
          if pending != sequenceNumber {
            return Err(FrameChanged(pending, sequenceNumber));
          }
          state := NoAttempt;
          return Ok(());
      }
    }
  }
}
