/** What holds over every run of the DFU session, whatever calls are made and whatever is heard. */
module SessionRuns {
  import opened Bytes
  import opened Framing
  import opened Transfer
  import opened Session

  /** A frame put on the wire: its place in the plan, which attempt it was, and its bytes. */
  datatype Emission = Emission(index: nat, attempt: nat, bytes: seq<Byte>)

  datatype Trace = Trace(status: Status, emissions: seq<Emission>)

  /** The calls made so far, from a new session. */
  function Run(image: Image, layout: BankLayout, calls: seq<Call>): Trace
    decreases |calls|
  {
    if calls == [] then Trace(INITIAL, [])
    else
      var t := Run(image, layout, calls[..|calls| - 1]);
      var (s, o) := Step(image, layout, t.status, calls[|calls| - 1]);
      Trace(s, if o.Emitted? then t.emissions + [Emission(t.status.index, o.attempt, o.bytes)] else t.emissions)
  }

  // ----- one step

  /** The bytes of this call end with the acknowledgement the pending frame expects. */
  predicate HearsExpected(s: Status, call: Call) {
    && call.PushAcknowledgement? && call.bytes != []
    && Listen(Report, s.heard, call.bytes) == At(|call.bytes| - 1, Reported(ExpectedAcknowledgement(s.index)))
  }

  predicate Sound(image: Image, s: Status) {
    && s.index <= FrameCount(image)
    && s.attempts <= RELIABLE_FRAME_ATTEMPT_LIMIT
    && (s.attempts > 0 ==> s.index < FrameCount(image))
    && (s.condition == RetryNeeded ==> s.attempts > 0)
  }

  /** The bytes of each frame of a transfer, by index; none past the end. */
  type Plan = nat -> Option<seq<Byte>>

  function PlannedBytes(image: Image, i: nat): Option<seq<Byte>> {
    if i < FrameCount(image) && Encodable(image, i) then Some(FrameAt(image, i).bytes) else None
  }

  function PlanOf(image: Image): Plan {
    (i: nat) => PlannedBytes(image, i)
  }

  predicate Stays(s: Status, s': Status, o: Outcome) {
    s'.index == s.index && s'.attempts == s.attempts && !o.Emitted?
  }

  predicate Sends(plan: Plan, s: Status, s': Status, o: Outcome) {
    && s'.index == s.index && s'.attempts == s.attempts + 1
    && o.Emitted? && o.attempt == s.attempts + 1 && plan(s.index) == Some(o.bytes)
  }

  predicate Moves(s: Status, s': Status, o: Outcome, call: Call) {
    s.attempts > 0 && s'.index == s.index + 1 && s'.attempts == 0 && o.Accepted? && HearsExpected(s, call)
  }

  /** Every call does one of three things: nothing to the transfer, one more attempt, or one advance. */
  lemma StepIs(image: Image, layout: BankLayout, s: Status, call: Call)
    requires Sound(image, s)
    ensures var (s', o) := Step(image, layout, s, call);
            Sound(image, s') && (Stays(s, s', o) || Sends(PlanOf(image), s, s', o) || Moves(s, s', o, call))
  {
  }

  /**
   * The transfer advances exactly when the session awaits an acknowledgement and the bytes end with
   * the one the pending frame expects.
   */
  lemma AdvancesExactlyOnExpected(image: Image, layout: BankLayout, s: Status, call: Call)
    requires Sound(image, s)
    ensures Step(image, layout, s, call).0.index != s.index
       <==> StateOf(image, s) == SessionState.AwaitingAcknowledgement && HearsExpected(s, call)
    ensures Step(image, layout, s, call).0.index != s.index ==> Step(image, layout, s, call).0.index == s.index + 1
  {
  }

  /** A repeated acknowledgement of the frame before never advances; it asks for a retry. */
  lemma DuplicateAcknowledgementRetries(image: Image, layout: BankLayout, s: Status, bytes: seq<Byte>)
    requires Sound(image, s) && s.index > 0 && bytes != []
    requires StateOf(image, s) == SessionState.AwaitingAcknowledgement
    requires Listen(Report, s.heard, bytes) == At(|bytes| - 1, Reported(ExpectedAcknowledgement(s.index - 1)))
    ensures Step(image, layout, s, PushAcknowledgement(bytes))
         == (s.(condition := RetryNeeded, heard := []), RetryTransition(UnexpectedAck))
  {
    ExpectedDiffers(s.index);
    StepReacts(image, layout, s, bytes);
    UnexpectedRetries(image, layout, s, bytes, ExpectedAcknowledgement(s.index - 1));
  }

  lemma ExpectedDiffers(i: nat)
    requires i > 0
    ensures ExpectedAcknowledgement(i - 1) != ExpectedAcknowledgement(i)
  {
  }

  lemma StepReacts(image: Image, layout: BankLayout, s: Status, bytes: seq<Byte>)
    requires StateOf(image, s) == SessionState.AwaitingAcknowledgement
    ensures Step(image, layout, s, PushAcknowledgement(bytes))
         == React(image, layout, s, bytes, Listen(Report, s.heard, bytes))
  {
  }

  lemma UnexpectedRetries(image: Image, layout: BankLayout, s: Status, bytes: seq<Byte>, acknowledgement: nat)
    requires s.index < FrameCount(image) && bytes != []
    requires acknowledgement != ExpectedAcknowledgement(s.index)
    ensures React(image, layout, s, bytes, At(|bytes| - 1, Reported(acknowledgement)))
         == (s.(condition := RetryNeeded, heard := []), RetryTransition(UnexpectedAck))
  {
  }

  lemma NeighboursDiffer(i: nat)
    ensures (1 + i) % SEQUENCE_MODULUS != (2 + i) % SEQUENCE_MODULUS
  {
  }

  predicate Terminal(image: Image, s: Status) {
    StateOf(image, s) == SessionState.Complete || StateOf(image, s) == Failed
  }

  // ----- whole runs

  /** Frames go out in order, each starting at attempt one and repeated with no gap. */
  predicate Ordered(e: seq<Emission>) {
    && (e != [] ==> e[0].index == 0 && e[0].attempt == 1)
    && (forall k :: 0 <= k < |e| ==> 1 <= e[k].attempt <= RELIABLE_FRAME_ATTEMPT_LIMIT)
    && (forall k :: 0 < k < |e| ==> FollowsAt(e, k))
  }

  predicate FollowsAt(e: seq<Emission>, k: nat)
    requires 0 < k < |e|
  {
    Follows(e[k - 1], e[k])
  }

  predicate Follows(a: Emission, b: Emission) {
    || (b.index == a.index && b.attempt == a.attempt + 1)
    || (b.index == a.index + 1 && b.attempt == 1)
  }

  /** Every emission is byte for byte the planned frame of its index, retries included. */
  predicate Genuine(plan: Plan, e: seq<Emission>) {
    forall k :: 0 <= k < |e| ==> plan(e[k].index) == Some(e[k].bytes)
  }

  /** Where the emissions stand relative to the session. */
  predicate InStep(t: Trace) {
    var s, e := t.status, t.emissions;
    if s.attempts > 0 then e != [] && e[|e| - 1].index == s.index && e[|e| - 1].attempt == s.attempts
    else if s.index == 0 then e == []
    else e != [] && e[|e| - 1].index == s.index - 1
  }

  /**
   * Over every run: in order, only the planned bytes, at most three attempts a frame, and at most
   * three times as many emissions as frames.
   */
  lemma {:induction false} EveryRunIsSafe(image: Image, layout: BankLayout, calls: seq<Call>)
    ensures var t := Run(image, layout, calls);
            && Sound(image, t.status) && InStep(t)
            && Ordered(t.emissions) && Genuine(PlanOf(image), t.emissions)
            && |t.emissions| <= 3 * t.status.index + t.status.attempts
            && |t.emissions| <= 3 * FrameCount(image)
    decreases |calls|
  {
    if calls != [] {
      var before := Run(image, layout, calls[..|calls| - 1]);
      EveryRunIsSafe(image, layout, calls[..|calls| - 1]);
      StepIs(image, layout, before.status, calls[|calls| - 1]);
      var (s, o) := Step(image, layout, before.status, calls[|calls| - 1]);
      StepKeepsSafe(PlanOf(image), before, s, o);
    }
  }

  predicate Safe(plan: Plan, t: Trace) {
    && InStep(t) && Ordered(t.emissions) && Genuine(plan, t.emissions)
    && |t.emissions| <= 3 * t.status.index + t.status.attempts
  }

  lemma StepKeepsSafe(plan: Plan, t: Trace, s': Status, o: Outcome)
    requires Safe(plan, t) && t.status.attempts <= 3 && s'.attempts <= 3
    requires Stays(t.status, s', o) || Sends(plan, t.status, s', o)
          || (t.status.attempts > 0 && s'.index == t.status.index + 1 && s'.attempts == 0 && !o.Emitted?)
    ensures !o.Emitted? ==> Safe(plan, Trace(s', t.emissions))
    ensures o.Emitted? ==> Safe(plan, Trace(s', t.emissions + [Emission(t.status.index, o.attempt, o.bytes)]))
  {
    if o.Emitted? {
      Appended(t.emissions, Emission(t.status.index, o.attempt, o.bytes));
    }
  }

  lemma Appended(past: seq<Emission>, next: Emission)
    requires Ordered(past) && 1 <= next.attempt <= RELIABLE_FRAME_ATTEMPT_LIMIT
    requires if past == [] then next.index == 0 && next.attempt == 1 else Follows(past[|past| - 1], next)
    ensures Ordered(past + [next])
  {
    var e := past + [next];
    forall k | 0 < k < |e| ensures FollowsAt(e, k) {
      if k < |past| {
        assert FollowsAt(past, k) && e[k - 1] == past[k - 1] && e[k] == past[k];
      }
    }
  }

  /** Complete and failed sessions stay as they are and put nothing more on the wire. */
  lemma {:induction false} TerminalForever(image: Image, layout: BankLayout, calls: seq<Call>, more: seq<Call>)
    requires Terminal(image, Run(image, layout, calls).status)
    ensures Run(image, layout, calls + more) == Run(image, layout, calls)
    decreases |more|
  {
    if more == [] {
      assert calls + more == calls;
    } else {
      var all, front := calls + more, more[..|more| - 1];
      TerminalForever(image, layout, calls, front);
      assert all[..|all| - 1] == calls + front;
    }
  }

  // ----- the receiving device

  /**
   * A device that hears every emission: it takes a valid packet carrying the next sequence number
   * modulo eight and ignores the rest.
   */
  function Device(receive: seq<Byte> -> Option<Packet>, e: seq<Emission>): seq<seq<Byte>> {
    if e == [] then [] else Take(Device(receive, e[..|e| - 1]), receive(e[|e| - 1].bytes))
  }

  function Taken(payload: nat -> seq<Byte>, n: nat): (r: seq<seq<Byte>>)
    ensures |r| == n
  {
    if n == 0 then [] else Taken(payload, n - 1) + [payload(n - 1)]
  }

  function Take(taken: seq<seq<Byte>>, p: Option<Packet>): seq<seq<Byte>> {
    if p.Some? && p.value.sequence == (1 + |taken|) % SEQUENCE_MODULUS then taken + [p.value.payload] else taken
  }

  /** A first copy of packet i is taken after i packets; another copy right after it is not. */
  lemma TakesOnce(payload: nat -> seq<Byte>, had: nat, i: nat, p: Option<Packet>)
    requires Carries(p, i, payload(i)) && (had == i || had == i + 1)
    ensures Take(Taken(payload, had), p) == Taken(payload, i + 1)
  {
    NeighboursDiffer(i);
  }

  function Count(e: seq<Emission>): nat {
    if e == [] then 0 else e[|e| - 1].index + 1
  }

  lemma DeviceHearsOne(
    receive: seq<Byte> -> Option<Packet>, payload: nat -> seq<Byte>, front: seq<Emission>, last: Emission)
    requires Device(receive, front) == Taken(payload, Count(front))
    requires Count(front) == last.index || Count(front) == last.index + 1
    requires Carries(receive(last.bytes), last.index, payload(last.index))
    ensures Device(receive, front + [last]) == Taken(payload, last.index + 1)
  {
    TakesOnce(payload, Count(front), last.index, receive(last.bytes));
    assert (front + [last])[..|front|] == front;
  }

  /** The device takes each planned payload once and in order, however often frames are repeated. */
  lemma {:induction false} DeviceTakesThePlan(
    receive: seq<Byte> -> Option<Packet>, payload: nat -> seq<Byte>, e: seq<Emission>)
    requires Ordered(e)
    requires forall k :: 0 <= k < |e| ==> Carries(receive(e[k].bytes), e[k].index, payload(e[k].index))
    ensures Device(receive, e) == Taken(payload, Count(e))
    decreases |e|
  {
    if e != [] {
      var front, last := e[..|e| - 1], e[|e| - 1];
      Front(e);
      DeviceTakesThePlan(receive, payload, front);
      DeviceHearsOne(receive, payload, front, last);
      assert e == front + [last];
    }
  }

  lemma Front(e: seq<Emission>)
    requires Ordered(e) && e != []
    ensures var front := e[..|e| - 1];
            Ordered(front) && (Count(front) == e[|e| - 1].index || Count(front) == e[|e| - 1].index + 1)
  {
    var front := e[..|e| - 1];
    forall k | 0 < k < |front| ensures FollowsAt(front, k) {
      assert FollowsAt(e, k);
    }
    if front != [] {
      assert FollowsAt(e, |front|);
    }
  }

  predicate Carries(p: Option<Packet>, i: nat, payload: seq<Byte>) {
    p.Some? && p.value.sequence == (1 + i) % SEQUENCE_MODULUS && p.value.payload == payload
  }

  function PayloadsOf(image: Image): nat -> seq<Byte> {
    (i: nat) => if i < FrameCount(image) then Payload(image, i) else []
  }

  lemma PlanIsReceived(image: Image, i: nat)
    requires PlannedBytes(image, i).Some?
    ensures Carries(Receive(PlannedBytes(image, i).value), i, Payload(image, i))
  {
    FrameIsReceived((1 + i) % SEQUENCE_MODULUS, Payload(image, i));
  }

  /** In every run, the device has taken the payloads of the frames sent so far, each once. */
  lemma DeviceHearsTheRun(image: Image, layout: BankLayout, calls: seq<Call>)
    ensures var e := Run(image, layout, calls).emissions;
            Device(Receive, e) == Taken(PayloadsOf(image), Count(e))
  {
    EveryRunIsSafe(image, layout, calls);
    DeviceHears(image, Run(image, layout, calls).emissions);
  }

  lemma DeviceHears(image: Image, e: seq<Emission>)
    requires Ordered(e) && Genuine(PlanOf(image), e)
    ensures Device(Receive, e) == Taken(PayloadsOf(image), Count(e))
  {
    forall k | 0 <= k < |e| ensures Carries(Receive(e[k].bytes), e[k].index, PayloadsOf(image)(e[k].index)) {
      assert PlanOf(image)(e[k].index) == Some(e[k].bytes);
      PlanIsReceived(image, e[k].index);
    }
    DeviceTakesThePlan(Receive, PayloadsOf(image), e);
  }

  /** What the data packets among the taken payloads add up to. */
  function Reassembled(taken: seq<seq<Byte>>, n: nat): seq<Byte>
    requires n + 1 < |taken|
  {
    if n == 0 then []
    else Reassembled(taken, n - 1) + (if |taken[n + 1]| >= 4 then taken[n + 1][4..] else [])
  }

  lemma {:induction false} ReassembledIsCarried(image: Image, taken: seq<seq<Byte>>, n: nat)
    requires n <= Chunks(image) && |taken| == FrameCount(image)
    requires forall i :: 0 <= i < |taken| ==> taken[i] == Payload(image, i)
    ensures Reassembled(taken, n) == Carried(image, n)
  {
    if n > 0 {
      ReassembledIsCarried(image, taken, n - 1);
    }
  }

  lemma {:induction false} TakenAt(payload: nat -> seq<Byte>, n: nat, i: nat)
    requires i < n
    ensures Taken(payload, n)[i] == payload(i)
  {
    if i < n - 1 {
      TakenAt(payload, n - 1, i);
    }
  }

  /** A completed session has delivered every planned packet once and, with them, exactly the firmware. */
  lemma CompleteMeansDelivered(image: Image, layout: BankLayout, calls: seq<Call>)
    requires StateOf(image, Run(image, layout, calls).status) == SessionState.Complete
    ensures var taken := Device(Receive, Run(image, layout, calls).emissions);
            && |taken| == FrameCount(image)
            && (forall i :: 0 <= i < |taken| ==> taken[i] == Payload(image, i))
            && Reassembled(taken, Chunks(image)) == image.firmware
  {
    EveryRunIsSafe(image, layout, calls);
    DeviceHearsTheRun(image, layout, calls);
    CompleteIndex(image, layout, calls);
    var taken := Taken(PayloadsOf(image), FrameCount(image));
    forall i | 0 <= i < |taken| ensures taken[i] == Payload(image, i) {
      TakenAt(PayloadsOf(image), FrameCount(image), i);
    }
    ReassembledIsCarried(image, taken, Chunks(image));
    DataFramesCarryFirmware(image, Chunks(image));
  }

  lemma CompleteIndex(image: Image, layout: BankLayout, calls: seq<Call>)
    requires StateOf(image, Run(image, layout, calls).status) == SessionState.Complete
    ensures var e := Run(image, layout, calls).emissions; e != [] && e[|e| - 1].index + 1 == FrameCount(image)
  {
    EveryRunIsSafe(image, layout, calls);
  }

  /** The waits the browser is told always fit its 32-bit milliseconds. */
  lemma WaitsFit(image: Image, layout: BankLayout, i: nat)
    requires i < FrameCount(image)
    ensures (WaitAfter(image, layout, i) + 999) / 1000 < U32_LIMIT
  {
    assert FlashPages(|image.firmware|) <= 0x10_0000;
  }
}
