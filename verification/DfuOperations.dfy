/** What a device reads out of the payloads it takes, and what the page is told meanwhile. */
module DfuOperations {
  import opened Bytes
  import opened Framing
  import opened Transfer
  import opened Session
  import opened SessionRuns
  import opened SessionChannel

  // ----- the bootloader's reading of a payload

  /** The three sizes of a start packet are those of a soft device, a bootloader and an application. */
  datatype Operation =
    | Begin(mode: int, softDevice: int, bootloader: int, application: int)
    | Describe(packet: seq<Byte>)
    | Write(bytes: seq<Byte>)
    | Activate
    | Unknown

  /** The first word tells the operation; the rest is laid out by it. */
  function ReadOperation(p: seq<Byte>): Operation {
    if |p| < 4 then Unknown
    else if ReadLe32(p, 0) == 3 && |p| == 20 then
      Begin(ReadLe32(p, 4), ReadLe32(p, 8), ReadLe32(p, 12), ReadLe32(p, 16))
    else if ReadLe32(p, 0) == 1 && |p| >= 6 && p[|p| - 2] == 0 && p[|p| - 1] == 0 then Describe(p[4..|p| - 2])
    else if ReadLe32(p, 0) == 4 then Write(p[4..])
    else if ReadLe32(p, 0) == 5 && |p| == 4 then Activate
    else Unknown
  }

  /** The n-th piece of 512 bytes, or what is left of the firmware. */
  function Piece(firmware: seq<Byte>, n: nat): seq<Byte> {
    if 512 * (n + 1) <= |firmware| then firmware[512 * n..512 * (n + 1)]
    else if 512 * n <= |firmware| then firmware[512 * n..]
    else []
  }

  /** How many pieces there are. */
  predicate PiecesOf(firmware: seq<Byte>, n: nat) {
    512 * n < |firmware| + 512 && |firmware| <= 512 * n
  }

  /** The operations of an update, in order. */
  function OperationAt(image: Image, pieces: nat, i: nat): Operation {
    if i == 0 then Begin(4, 0, 0, |image.firmware|)
    else if i == 1 then Describe(image.initPacket)
    else if i < pieces + 2 then Write(Piece(image.firmware, i - 2))
    else Activate
  }

  lemma WordFirst(word: int, rest: seq<Byte>)
    requires 0 <= word < U32_LIMIT
    ensures ReadLe32(Le32(word) + rest, 0) == word && (Le32(word) + rest)[4..] == rest
  {
    var p := Le32(word) + rest;
    assert p[0..4] == Le32(word);
    Le32RoundTrip(p, 0, word);
  }

  lemma StartReads(size: int)
    requires 0 <= size < U32_LIMIT
    ensures ReadOperation(Le32(3) + Le32(4) + Le32(0) + Le32(0) + Le32(size)) == Begin(4, 0, 0, size)
  {
    var p := Le32(3) + Le32(4) + Le32(0) + Le32(0) + Le32(size);
    assert p[0..4] == Le32(3) && p[4..8] == Le32(4) && p[8..12] == Le32(0);
    assert p[12..16] == Le32(0) && p[16..20] == Le32(size);
    Le32RoundTrip(p, 0, 3);
    Le32RoundTrip(p, 4, 4);
    Le32RoundTrip(p, 8, 0);
    Le32RoundTrip(p, 12, 0);
    Le32RoundTrip(p, 16, size);
  }

  lemma InitReads(packet: seq<Byte>)
    ensures ReadOperation(Le32(1) + packet + Le16(0)) == Describe(packet)
  {
    var p := Le32(1) + packet + Le16(0);
    assert p == Le32(1) + (packet + Le16(0));
    WordFirst(1, packet + Le16(0));
    assert p[|p| - 2] == 0 && p[|p| - 1] == 0 && p[4..|p| - 2] == packet;
  }

  lemma DataReads(bytes: seq<Byte>)
    ensures ReadOperation(Le32(4) + bytes) == Write(bytes)
  {
    WordFirst(4, bytes);
  }

  lemma StopReads()
    ensures ReadOperation(Le32(5)) == Activate
  {
    assert Le32(5) + [] == Le32(5);
    WordFirst(5, []);
  }

  /** Every planned payload reads as the operation at its place. */
  lemma PayloadReads(image: Image, i: nat)
    requires i < FrameCount(image)
    ensures PiecesOf(image.firmware, Chunks(image))
    ensures ReadOperation(Payload(image, i)) == OperationAt(image, Chunks(image), i)
  {
    if i == 0 {
      StartReads(|image.firmware|);
    } else if i == 1 {
      InitReads(image.initPacket);
    } else if i < Chunks(image) + 2 {
      DataReads(Piece(image.firmware, i - 2));
      assert Chunk(image, 512 * (i - 2)) == Piece(image.firmware, i - 2);
    } else {
      StopReads();
    }
  }

  // ----- a completed update

  function Operations(taken: seq<seq<Byte>>): (r: seq<Operation>)
    ensures |r| == |taken|
    ensures forall i :: 0 <= i < |taken| ==> r[i] == ReadOperation(taken[i])
  {
    seq(|taken|, i requires 0 <= i < |taken| => ReadOperation(taken[i]))
  }

  /** What a device has in flash after some operations. */
  function Written(ops: seq<Operation>): seq<Byte> {
    if ops == [] then []
    else
      var last := ops[|ops| - 1];
      Written(ops[..|ops| - 1]) + if last.Write? then last.bytes else []
  }

  /** The operations are those of the update. */
  predicate Updates(image: Image, pieces: nat, ops: seq<Operation>) {
    forall i :: 0 <= i < |ops| ==> ops[i] == OperationAt(image, pieces, i)
  }

  /** How much of the firmware the first `n` operations write. */
  function Extent(image: Image, pieces: nat, n: nat): nat {
    if n <= 2 then 0 else if n < pieces + 2 then 512 * (n - 2) else |image.firmware|
  }

  lemma ExtentGrows(image: Image, pieces: nat, n: nat)
    requires PiecesOf(image.firmware, pieces) && n < pieces + 3
    ensures Extent(image, pieces, n) <= Extent(image, pieces, n + 1) <= |image.firmware|
    ensures 2 <= n < pieces + 2 ==>
              Piece(image.firmware, n - 2) == image.firmware[Extent(image, pieces, n)..Extent(image, pieces, n + 1)]
    ensures n < 2 || n == pieces + 2 ==> Extent(image, pieces, n) == Extent(image, pieces, n + 1)
  {
  }

  lemma WritesOneMore(firmware: seq<Byte>, before: nat, after: nat, ops: seq<Operation>, op: Operation)
    requires before <= after <= |firmware| && Written(ops) == firmware[..before]
    requires if op.Write? then op.bytes == firmware[before..after] else before == after
    ensures Written(ops + [op]) == firmware[..after]
  {
    assert (ops + [op])[..|ops|] == ops;
    Spliced(firmware, before, after);
  }

  lemma {:induction false} WritesFirmware(image: Image, pieces: nat, ops: seq<Operation>)
    requires PiecesOf(image.firmware, pieces) && |ops| <= pieces + 3 && Updates(image, pieces, ops)
    ensures Extent(image, pieces, |ops|) <= |image.firmware|
    ensures Written(ops) == image.firmware[..Extent(image, pieces, |ops|)]
    decreases |ops|
  {
    if ops != [] {
      var n := |ops| - 1;
      var front, op := ops[..n], ops[n];
      WritesFirmware(image, pieces, front);
      ExtentGrows(image, pieces, n);
      assert op == OperationAt(image, pieces, n);
      WritesOneMore(image.firmware, Extent(image, pieces, n), Extent(image, pieces, n + 1), front, op);
      assert ops == front + [op];
    }
  }

  /** The payloads of a whole plan: one start, one init packet, the firmware piece by piece, one stop. */
  predicate Delivers(image: Image, taken: seq<seq<Byte>>) {
    && |taken| >= 4 && PiecesOf(image.firmware, |taken| - 3)
    && Updates(image, |taken| - 3, Operations(taken))
    && Written(Operations(taken)) == image.firmware
  }

  lemma PlanDelivers(image: Image, taken: seq<seq<Byte>>)
    requires |taken| == FrameCount(image) && forall i :: 0 <= i < |taken| ==> taken[i] == Payload(image, i)
    ensures Delivers(image, taken)
  {
    forall i | 0 <= i < |taken| ensures Operations(taken)[i] == OperationAt(image, Chunks(image), i) {
      PayloadReads(image, i);
    }
    PayloadReads(image, 0);
    WritesFirmware(image, Chunks(image), Operations(taken));
    assert image.firmware[..|image.firmware|] == image.firmware;
  }

  /**
   * Whatever the line loses and however it cuts, a device of a completed session has read one start packet for an
   * application of the firmware's size, the init packet, the firmware in pieces of 512 bytes, and one stop.
   */
  lemma CompleteMeansUpdated(image: Image, layout: BankLayout, events: seq<Event>)
    requires StateOf(image, RunLink(image, layout, events).session) == SessionState.Complete
    ensures Delivers(image, RunLink(image, layout, events).taken)
  {
    CompleteMeansTaken(image, layout, events);
    PlanDelivers(image, RunLink(image, layout, events).taken);
  }

  /** So has one that hears every emission, whatever bytes the session is told. */
  lemma CompleteMeansHeard(image: Image, layout: BankLayout, calls: seq<Call>)
    requires StateOf(image, Run(image, layout, calls).status) == SessionState.Complete
    ensures Delivers(image, Device(Receive, Run(image, layout, calls).emissions))
  {
    CompleteMeansDelivered(image, layout, calls);
    PlanDelivers(image, Device(Receive, Run(image, layout, calls).emissions));
  }

  // ----- waits and progress

  /** The pages some bytes take: no more than needed. */
  predicate PagesOf(bytes: nat, pages: nat) {
    4096 * pages < bytes + 4096 && bytes <= 4096 * pages
  }

  function AtLeast(least: nat, n: nat): nat {
    if n < least then least else n
  }

  /** How long flash is busy after an operation, in microseconds: erasing, writing a page, activating. */
  function BusyAfter(op: Operation, written: nat, total: nat, pages: nat, layout: BankLayout): nat {
    match op
    case Begin(_, _, _, _) => AtLeast(500_000, 89_700 * pages)
    case Describe(_) => 0
    case Write(_) => if written % 4096 == 0 || written == total then 102_400 else 0
    case Activate =>
      if layout.Single? then 89_700 + 102_400 else AtLeast(500_000, 89_700 * pages) + 102_400 * pages
    case Unknown => 0
  }

  lemma OnePageCount(bytes: nat, pages: nat)
    requires PagesOf(bytes, pages)
    ensures pages == FlashPages(bytes)
  {
  }

  lemma ChunksEnd(image: Image, offset: nat)
    requires offset < |image.firmware|
    ensures offset + |Chunk(image, offset)| == Min(offset + 512, |image.firmware|)
  {
  }

  /** The planned wait and progress after a frame are what its operation asks for. */
  lemma PlanWaits(image: Image, layout: BankLayout, i: nat, pages: nat)
    requires i < FrameCount(image) && PagesOf(|image.firmware|, pages)
    ensures var written := Extent(image, Chunks(image), i + 1);
            && WrittenAfter(image, i) == written
            && WaitAfter(image, layout, i)
               == BusyAfter(OperationAt(image, Chunks(image), i), written, |image.firmware|, pages, layout)
  {
    OnePageCount(|image.firmware|, pages);
    if 2 <= i < Chunks(image) + 2 {
      ChunksEnd(image, 512 * (i - 2));
    }
  }

  /** The least number of milliseconds that is not short of so many microseconds. */
  predicate RoundedUp(microseconds: nat, milliseconds: nat) {
    1000 * milliseconds < microseconds + 1000 && microseconds <= 1000 * milliseconds
  }

  /**
   * When the expected acknowledgement arrives the page is told, in whole milliseconds, how long flash is busy with
   * the operation that was acknowledged, how many bytes of firmware have been written, how many there are, and
   * whether that was the last frame.
   */
  lemma AcceptanceTells(image: Image, layout: BankLayout, s: Status, call: Call, pages: nat)
    requires Sound(image, s) && StateOf(image, s) == SessionState.AwaitingAcknowledgement && HearsExpected(s, call)
    requires PagesOf(|image.firmware|, pages)
    ensures var o := Step(image, layout, s, call).1;
            var written := Extent(image, Chunks(image), s.index + 1);
            && o.Accepted? && o.writtenBytes == written && o.totalBytes == |image.firmware|
            && (o.complete <==> s.index == Chunks(image) + 2)
            && RoundedUp(
                 BusyAfter(OperationAt(image, Chunks(image), s.index), written, |image.firmware|, pages, layout),
                         o.waitMilliseconds)
  {
    StepReacts(image, layout, s, call.bytes);
    PlanWaits(image, layout, s.index, pages);
    Thousandths(WaitAfter(image, layout, s.index));
  }

  lemma Thousandths(microseconds: nat)
    ensures RoundedUp(microseconds, (microseconds + 999) / 1000)
  {
  }
}
