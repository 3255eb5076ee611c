/** What holds of a lane after any interleaving of pushes, calls, takes, finishes and failures. */
module LaneRuns {
  import opened Sequences
  import opened Bytes
  import opened Lane

  datatype Op<+V, +E> =
    | Push(value: V)
    | Next
    | Take(hookThrew: Option<E>, gapThrew: Option<E>)
    | Finish
    | Fail(error: Option<E>)
    | Claim

  /** The lane, with the pushes it accepted, the pushes it dropped and the iterators it handed out. */
  datatype History<+V, +E> = History(lane: State<V, E>, accepted: seq<V>, dropped: nat, iterators: nat)

  function Step<V, E>(o: Options<V>, h: History<V, E>, op: Op<V, E>): History<V, E> {
    match op
    case Push(value) =>
      var (lane, outcome) := Lane.Push(o, h.lane, value);
      h.(lane := lane,
         accepted := if outcome.Queued? || outcome.Delivered? then h.accepted + [value] else h.accepted,
         dropped := if outcome.Dropped? then h.dropped + 1 else h.dropped)
    case Next => if h.lane.claimed then h.(lane := h.lane.(calls := h.lane.calls + 1)) else h
    case Take(hookThrew, gapThrew) => if Ready(h.lane) then h.(lane := Lane.Take(o, h.lane, hookThrew, gapThrew)) else h
    case Finish => h.(lane := Lane.Finish(h.lane))
    case Fail(error) => h.(lane := Lane.Fail(h.lane, error))
    case Claim =>
      h.(lane := h.lane.(claimed := true), iterators := if h.lane.claimed then h.iterators else h.iterators + 1)
  }

  function Continue<V, E>(o: Options<V>, h: History<V, E>, ops: seq<Op<V, E>>): History<V, E> {
    if ops == [] then h else Step(o, Continue(o, h, ops[..|ops| - 1]), ops[|ops| - 1])
  }

  function Run<V, E>(o: Options<V>, ops: seq<Op<V, E>>): History<V, E> {
    Continue(o, History(Start(), [], 0, 0), ops)
  }

  lemma ContinueSnoc<V, E>(o: Options<V>, h: History<V, E>, ops: seq<Op<V, E>>, op: Op<V, E>)
    ensures Continue(o, h, ops + [op]) == Step(o, Continue(o, h, ops), op)
  {
    assert (ops + [op])[..|ops|] == ops;
  }

  ghost predicate SnocAt<S, A>(go: (S, seq<A>) -> S, step: (S, A) -> S, s: S, ops: seq<A>, op: A) {
    go(s, []) == s && go(s, ops + [op]) == step(go(s, ops), op)
  }

  lemma FourSteps<S(!new), A(!new)>(go: (S, seq<A>) -> S, step: (S, A) -> S, s: S, a: A, b: A, c: A, d: A)
    requires forall s, ops, op :: SnocAt(go, step, s, ops, op)
    ensures go(s, [a, b, c, d]) == step(step(step(step(s, a), b), c), d)
  {
    assert SnocAt(go, step, s, [], a) && SnocAt(go, step, s, [a], b);
    assert SnocAt(go, step, s, [a, b], c) && SnocAt(go, step, s, [a, b, c], d);
    assert [] + [a] == [a] && [a] + [b] == [a, b] && [a, b] + [c] == [a, b, c] && [a, b, c] + [d] == [a, b, c, d];
  }

  function Stepping<V, E>(o: Options<V>): (History<V, E>, Op<V, E>) -> History<V, E> {
    (h: History<V, E>, op: Op<V, E>) => Step(o, h, op)
  }

  function Continuing<V, E>(o: Options<V>): (History<V, E>, seq<Op<V, E>>) -> History<V, E> {
    (h: History<V, E>, ops: seq<Op<V, E>>) => Continue(o, h, ops)
  }

  lemma ContinueFour<V(!new), E(!new)>(
    o: Options<V>, h: History<V, E>, a: Op<V, E>, b: Op<V, E>, c: Op<V, E>, d: Op<V, E>, m: History<V, E>)
    requires m == Step(o, Step(o, h, a), b)
    ensures Continue(o, h, [a, b, c, d]) == Step(o, Step(o, m, c), d)
  {
    forall h, ops, op ensures SnocAt(Continuing<V, E>(o), Stepping<V, E>(o), h, ops, op) {
      ContinueSnoc(o, h, ops, op);
    }
    FourSteps(Continuing<V, E>(o), Stepping<V, E>(o), h, a, b, c, d);
  }

  // ----- what the consumer has seen

  /** The pushed values handed to the consumer, in order. */
  function Items<V, E>(settled: seq<Settled<V, E>>): seq<V> {
    if settled == [] then []
    else
      var last := settled[|settled| - 1].how;
      Items(settled[..|settled| - 1]) + if last.Item? then [last.value] else []
  }

  /** The drops reported by gap markers. */
  function Reported<V, E>(settled: seq<Settled<V, E>>): nat {
    if settled == [] then 0
    else
      var last := settled[|settled| - 1].how;
      Reported(settled[..|settled| - 1]) + if last.Marker? then last.count else 0
  }

  /** The drops whose count was lost in a gap function that threw. */
  function Forgotten<V, E>(settled: seq<Settled<V, E>>): nat {
    if settled == [] then 0
    else
      var last := settled[|settled| - 1].how;
      Forgotten(settled[..|settled| - 1]) + if last.Lost? then last.count else 0
  }

  lemma Appended<V, E>(settled: seq<Settled<V, E>>, x: Settled<V, E>)
    ensures Items(settled + [x]) == Items(settled) + if x.how.Item? then [x.how.value] else []
    ensures Reported(settled + [x]) == Reported(settled) + if x.how.Marker? then x.how.count else 0
    ensures Forgotten(settled + [x]) == Forgotten(settled) + if x.how.Lost? then x.how.count else 0
  {
    assert (settled + [x])[..|settled|] == settled;
  }

  lemma {:induction false} PrefixSeesLess<V, E>(settled: seq<Settled<V, E>>, k: nat)
    requires k <= |settled|
    ensures |Items(settled[..k])| <= |Items(settled)|
    ensures Reported(settled[..k]) <= Reported(settled) && Forgotten(settled[..k]) <= Forgotten(settled)
  {
    if k < |settled| {
      var front := settled[..|settled| - 1];
      PrefixSeesLess(front, k);
      assert front[..k] == settled[..k];
    } else {
      assert settled[..k] == settled;
    }
  }

  function Values<V>(queued: seq<Held<V>>): (r: seq<V>)
    ensures |r| == |queued|
    ensures forall i :: 0 <= i < |r| ==> r[i] == queued[i].value
  {
    seq(|queued|, i requires 0 <= i < |queued| => queued[i].value)
  }

  function Total<V>(queued: seq<Held<V>>): nat {
    if queued == [] then 0 else queued[0].bytes + Total(queued[1..])
  }

  lemma {:induction false} TotalAppended<V>(queued: seq<Held<V>>, x: Held<V>)
    ensures Total(queued + [x]) == Total(queued) + x.bytes
  {
    if queued != [] {
      assert (queued + [x])[1..] == queued[1..] + [x];
      TotalAppended(queued[1..], x);
    } else {
      assert queued + [x] == [x] && [x][1..] == [];
    }
  }

  // ----- the invariant

  /** What was handed over, then what is queued, is exactly what was accepted, in order. */
  predicate NothingLost<V(==), E>(h: History<V, E>) {
    Items(h.lane.settled) + Values(h.lane.queued) == h.accepted
  }

  /** Bytes and entries stay within both limits, and every drop is reported, pending or lost with a throw. */
  predicate Accounted<V, E>(o: Options<V>, h: History<V, E>) {
    && h.lane.retainedBytes == Total(h.lane.queued) <= o.maximumBytes
    && |h.lane.queued| <= o.maximumValues
    && h.dropped == Reported(h.lane.settled) + Forgotten(h.lane.settled) + h.lane.droppedNewest
    && (o.gap.None? ==> h.lane.droppedNewest == 0)
  }

  /** A parked consumer means an empty, open lane. */
  predicate ParkedMeansIdle<V, E>(s: State<V, E>) {
    s.waiting.Some? ==> s.queued == [] && s.droppedNewest == 0 && !Closed(s)
  }

  /** Calls settle in the order they were made, one at a time; a loss is never of nothing. */
  predicate InCallOrder<V, E>(s: State<V, E>) {
    && (forall i :: 0 <= i < |s.settled| ==> SettledInTurn(s.settled[i], i))
    && (s.waiting.Some? ==> s.waiting.value == |s.settled|)
    && s.started == |s.settled| + (if s.waiting.Some? then 1 else 0)
    && s.started <= s.calls
  }

  predicate SettledInTurn<V, E>(x: Settled<V, E>, i: nat) {
    x.call == i && (x.how.Lost? ==> x.how.count > 0)
  }

  predicate OneIterator<V, E>(h: History<V, E>) {
    h.iterators == if h.lane.claimed then 1 else 0
  }

  predicate Invariant<V(==), E>(o: Options<V>, h: History<V, E>) {
    NothingLost(h) && Accounted(o, h) && ParkedMeansIdle(h.lane) && InCallOrder(h.lane) && OneIterator(h)
  }

  lemma WakeKeeps<V, E>(s: State<V, E>, how: Settlement<V, E>)
    requires InCallOrder(s) && !how.Lost?
    ensures InCallOrder(Wake(s, how))
    ensures var t := Wake(s, how);
            && Items(t.settled) == Items(s.settled) + (if s.waiting.Some? && how.Item? then [how.value] else [])
            && Reported(t.settled) == Reported(s.settled) + (if s.waiting.Some? && how.Marker? then how.count else 0)
            && Forgotten(t.settled) == Forgotten(s.settled)
  {
    if s.waiting.Some? {
      Appended(s.settled, Settled(s.waiting.value, how));
    } else {
      assert Items(s.settled) + [] == Items(s.settled);
    }
  }

  lemma DeliveryKeeps<V, E>(o: Options<V>, h: History<V, E>, value: V)
    requires Invariant(o, h) && !Closed(h.lane) && h.lane.waiting.Some?
    ensures Invariant(o, Step(o, h, Push(value)))
  {
    var s := h.lane;
    WakeKeeps(s, Item(value));
    assert Values(s.queued) == [];
    assert Items(s.settled) + [value] + [] == Items(s.settled) + [] + [value];
  }

  lemma QueueingKeeps<V, E>(o: Options<V>, h: History<V, E>, value: V)
    requires Invariant(o, h) && !Closed(h.lane) && h.lane.waiting.None? && Fits(o, h.lane, o.measure(value))
    ensures Invariant(o, Step(o, h, Push(value)))
  {
    var s, x := h.lane, Held(value, o.measure(value));
    TotalAppended(s.queued, x);
    assert Values(s.queued + [x]) == Values(s.queued) + [value];
    Regroup(Items(s.settled), Values(s.queued), [value]);
  }

  lemma PushKeeps<V, E>(o: Options<V>, h: History<V, E>, value: V)
    requires Invariant(o, h)
    ensures Invariant(o, Step(o, h, Push(value)))
  {
    if !Closed(h.lane) && h.lane.waiting.Some? {
      DeliveryKeeps(o, h, value);
    } else if !Closed(h.lane) && Fits(o, h.lane, o.measure(value)) {
      QueueingKeeps(o, h, value);
    }
  }

  lemma CloseKeeps<V, E>(o: Options<V>, h: History<V, E>, op: Op<V, E>)
    requires Invariant(o, h) && (op.Finish? || op.Fail?)
    ensures Invariant(o, Step(o, h, op))
  {
    var s := h.lane;
    var how: Settlement<V, E> := if op.Finish? then Done else Failed(op.error);
    WakeKeeps(if op.Finish? then s.(finished := true) else s.(failure := op.error), how);
    assert Items(s.settled) + [] == Items(s.settled);
  }

  /** The call that runs settles at once. */
  lemma SettleKeeps<V, E>(s: State<V, E>, how: Settlement<V, E>)
    requires InCallOrder(s) && Ready(s) && (how.Lost? ==> how.count > 0)
    ensures var t := Settle(s.(started := s.started + 1), s.started, how);
            && InCallOrder(t)
            && Items(t.settled) == Items(s.settled) + (if how.Item? then [how.value] else [])
            && Reported(t.settled) == Reported(s.settled) + (if how.Marker? then how.count else 0)
            && Forgotten(t.settled) == Forgotten(s.settled) + if how.Lost? then how.count else 0
  {
    Appended(s.settled, Settled(s.started, how));
  }

  lemma TakeHeadKeeps<V, E>(o: Options<V>, h: History<V, E>, gapThrew: Option<E>)
    requires Invariant(o, h) && Ready(h.lane) && h.lane.queued != []
    ensures Invariant(o, Step(o, h, Take(None, gapThrew)))
  {
    var s := h.lane;
    var head, rest := s.queued[0].value, s.queued[1..];
    SettleKeeps(s, Item(head));
    assert Values(s.queued) == [head] + Values(rest);
    Regroup(Items(s.settled), [head], Values(rest));
  }

  /** A settlement that hands over no value reports or loses the drops it clears. */
  lemma SettleOtherKeeps<V, E>(o: Options<V>, h: History<V, E>, pending: nat, how: Settlement<V, E>)
    requires Invariant(o, h) && Ready(h.lane) && !how.Item? && (how.Lost? ==> how.count > 0)
    requires h.lane.droppedNewest == pending + if how.Marker? || how.Lost? then how.count else 0
    ensures var s := h.lane.(droppedNewest := pending, started := h.lane.started + 1);
            Invariant(o, h.(lane := Settle(s, h.lane.started, how)))
  {
    SettleKeeps(h.lane, how);
    assert Items(h.lane.settled) + [] == Items(h.lane.settled);
  }

  lemma TakeOtherKeeps<V, E>(o: Options<V>, h: History<V, E>, hookThrew: Option<E>, gapThrew: Option<E>)
    requires Invariant(o, h) && Ready(h.lane) && (hookThrew.Some? || h.lane.queued == [])
    ensures Invariant(o, Step(o, h, Take(hookThrew, gapThrew)))
  {
    var s := h.lane;
    if hookThrew.Some? {
      SettleOtherKeeps(o, h, s.droppedNewest, Threw(hookThrew.value));
    } else if s.droppedNewest > 0 && o.gap.Some? {
      SettleOtherKeeps(o, h, 0,
                       if gapThrew.Some? then Lost(s.droppedNewest, gapThrew.value) else Marker(s.droppedNewest));
    } else if s.failure.Some? {
      SettleOtherKeeps(o, h, s.droppedNewest, Failed(s.failure));
    } else if s.finished {
      SettleOtherKeeps(o, h, s.droppedNewest, Done);
    }
  }

  lemma StepKeeps<V, E>(o: Options<V>, h: History<V, E>, op: Op<V, E>)
    requires Invariant(o, h)
    ensures Invariant(o, Step(o, h, op))
  {
    match op {
      case Push(value) => PushKeeps(o, h, value);
      case Take(hookThrew, gapThrew) =>
        if Ready(h.lane) {
          if hookThrew.None? && h.lane.queued != [] {
            TakeHeadKeeps(o, h, gapThrew);
          } else {
            TakeOtherKeeps(o, h, hookThrew, gapThrew);
          }
        }
      case Finish => CloseKeeps(o, h, op);
      case Fail(_) => CloseKeeps(o, h, op);
      case Next =>
      case Claim =>
    }
  }

  lemma {:induction false} ContinueKeeps<V, E>(o: Options<V>, h: History<V, E>, ops: seq<Op<V, E>>)
    requires Invariant(o, h)
    ensures Invariant(o, Continue(o, h, ops))
    decreases |ops|
  {
    if ops != [] {
      ContinueKeeps(o, h, ops[..|ops| - 1]);
      StepKeeps(o, Continue(o, h, ops[..|ops| - 1]), ops[|ops| - 1]);
    }
  }

  /** Every reachable lane keeps the books straight. */
  lemma EveryRunKeepsInvariant<V, E>(o: Options<V>, ops: seq<Op<V, E>>)
    ensures Invariant(o, Run(o, ops))
  {
    var start: History<V, E> := History(Start(), [], 0, 0);
    assert Items(start.lane.settled) + Values(start.lane.queued) == [];
    ContinueKeeps(o, start, ops);
  }

  // ----- when a push is refused

  /** The measured bytes of some values. */
  function Measured<V>(measure: V -> nat, values: seq<V>): nat {
    if values == [] then 0 else measure(values[0]) + Measured(measure, values[1..])
  }

  /** Every queued value is held with its measure. */
  predicate Weighed<V, E>(o: Options<V>, s: State<V, E>) {
    forall i :: 0 <= i < |s.queued| ==> s.queued[i].bytes == o.measure(s.queued[i].value)
  }

  lemma {:induction false} EveryRunWeighs<V, E>(o: Options<V>, ops: seq<Op<V, E>>)
    ensures Weighed(o, Run(o, ops).lane)
    decreases |ops|
  {
    if ops != [] {
      EveryRunWeighs(o, ops[..|ops| - 1]);
      StepWeighs(o, Run(o, ops[..|ops| - 1]), ops[|ops| - 1]);
    }
  }

  lemma StepWeighs<V, E>(o: Options<V>, h: History<V, E>, op: Op<V, E>)
    requires Weighed(o, h.lane)
    ensures Weighed(o, Step(o, h, op).lane)
  {
  }

  lemma {:induction false} TotalIsMeasured<V>(measure: V -> nat, queued: seq<Held<V>>)
    requires forall i :: 0 <= i < |queued| ==> queued[i].bytes == measure(queued[i].value)
    ensures Total(queued) == Measured(measure, Values(queued))
    decreases |queued|
  {
    if queued != [] {
      assert Values(queued)[1..] == Values(queued[1..]);
      TotalIsMeasured(measure, queued[1..]);
    }
  }

  /** One more value would make the queue too long, or too heavy. */
  predicate NoRoom<V, E>(o: Options<V>, s: State<V, E>, value: V) {
    |s.queued| + 1 > o.maximumValues || Measured(o.measure, Values(s.queued)) + o.measure(value) > o.maximumBytes
  }

  /** What a push tells its caller and does to the books, by the state of the lane. */
  predicate Answered<V(==), E(==)>(o: Options<V>, h: History<V, E>, value: V, g: History<V, E>, outcome: Outcome) {
    if h.lane.finished || h.lane.failure.Some? then outcome == Outcome.Rejected(None) && g == h
    else if h.lane.waiting.Some? then
      && outcome == Delivered && g.accepted == h.accepted + [value] && g.dropped == h.dropped
      && g.lane.settled == h.lane.settled + [Settled(h.lane.waiting.value, Item(value))]
    else if !NoRoom(o, h.lane, value) then
      && outcome == Queued && g.accepted == h.accepted + [value] && g.dropped == h.dropped
      && Values(g.lane.queued) == Values(h.lane.queued) + [value] && g.lane.settled == h.lane.settled
    else if o.gap.Some? then
      && outcome == Dropped
      && g == h.(dropped := h.dropped + 1, lane := h.lane.(droppedNewest := h.lane.droppedNewest + 1))
    else outcome == Outcome.Rejected(Some(o.measure(value))) && g == h
  }

  /**
   * Over every run a refusal is forced: a push to an open lane nobody waits on is queued unless the queue would
   * grow longer or heavier than allowed; it is then counted as a drop if there is a gap function, and otherwise
   * its rejection tells its measure.
   */
  lemma RefusalsAreForced<V, E>(o: Options<V>, ops: seq<Op<V, E>>, value: V)
    ensures var h := Run(o, ops);
            Answered(o, h, value, Step(o, h, Push(value)), Lane.Push(o, h.lane, value).1)
  {
    var h := Run(o, ops);
    EveryRunKeepsInvariant(o, ops);
    EveryRunWeighs(o, ops);
    TotalIsMeasured(o.measure, h.lane.queued);
    assert Values(h.lane.queued + [Held(value, o.measure(value))]) == Values(h.lane.queued) + [value];
  }

  // ----- drops

  lemma StepAppends<V, E>(o: Options<V>, h: History<V, E>, op: Op<V, E>)
    ensures h.lane.settled <= Step(o, h, op).lane.settled && |Step(o, h, op).lane.settled| <= |h.lane.settled| + 1
  {
  }

  /** The call finds nothing but pending drops, and its gap function throws. */
  predicate LosesDrops<V, E>(o: Options<V>, s: State<V, E>, op: Op<V, E>) {
    && op.Take? && op.hookThrew.None? && op.gapThrew.Some?
    && Ready(s) && s.queued == [] && s.droppedNewest > 0 && o.gap.Some?
  }

  predicate LosesAt<V, E>(o: Options<V>, ops: seq<Op<V, E>>, i: nat)
    requires i < |ops|
  {
    LosesDrops(o, Run(o, ops[..i]).lane, ops[i])
  }

  /** No call of the run does. */
  predicate NoGapThrows<V, E>(o: Options<V>, ops: seq<Op<V, E>>) {
    forall i :: 0 <= i < |ops| ==> !LosesAt(o, ops, i)
  }

  lemma NoGapThrowsSnoc<V, E>(o: Options<V>, ops: seq<Op<V, E>>)
    requires ops != []
    ensures NoGapThrows(o, ops) <==> NoGapThrows(o, ops[..|ops| - 1]) && !LosesAt(o, ops, |ops| - 1)
  {
    var before := ops[..|ops| - 1];
    forall i | 0 <= i < |before| ensures LosesAt(o, ops, i) == LosesAt(o, before, i) {
      assert ops[..i] == before[..i];
    }
  }

  lemma LossIs<V, E>(o: Options<V>, h: History<V, E>, op: Op<V, E>)
    ensures var was, now := h.lane.settled, Step(o, h, op).lane.settled;
            if LosesDrops(o, h.lane, op) then
              now == was + [Settled(h.lane.started, Lost(h.lane.droppedNewest, op.gapThrew.value))]
            else |was| < |now| ==> !now[|was|].how.Lost?
  {
  }

  lemma StepForgets<V, E>(o: Options<V>, h: History<V, E>, op: Op<V, E>)
    ensures Forgotten(Step(o, h, op).lane.settled)
         == Forgotten(h.lane.settled) + if LosesDrops(o, h.lane, op) then h.lane.droppedNewest else 0
  {
    var was, now := h.lane.settled, Step(o, h, op).lane.settled;
    StepAppends(o, h, op);
    LossIs(o, h, op);
    if |was| < |now| {
      assert now == was + [now[|was|]];
      Appended(was, now[|was|]);
    }
  }

  lemma {:induction false} RunForgetsIff<V, E>(o: Options<V>, ops: seq<Op<V, E>>)
    ensures Forgotten(Run(o, ops).lane.settled) == 0 <==> NoGapThrows(o, ops)
    decreases |ops|
  {
    if ops != [] {
      var before, op := ops[..|ops| - 1], ops[|ops| - 1];
      RunForgetsIff(o, before);
      StepForgets(o, Run(o, before), op);
      NoGapThrowsSnoc(o, ops);
    }
  }

  /**
   * Drops equal reported gap counts plus the pending count if and only if no call of the run that finds
   * nothing but drops has its gap function throw.
   */
  lemma DropsBalanceIff<V, E>(o: Options<V>, ops: seq<Op<V, E>>)
    ensures var h := Run(o, ops);
            h.dropped == Reported(h.lane.settled) + h.lane.droppedNewest <==> NoGapThrows(o, ops)
  {
    EveryRunKeepsInvariant(o, ops);
    RunForgetsIff(o, ops);
  }

  /** A run that loses a drop: it is neither pending nor ever reported. */
  lemma ThrowingGapLosesDrops<V(!new), E(!new)>(o: Options<V>, value: V, error: E)
    requires o.gap.Some? && o.measure(value) > o.maximumBytes
    ensures var h := Run(o, [Claim, Push(value), Next, Take(None, Some(error))]);
            h.dropped == 1 && Reported(h.lane.settled) == 0 && h.lane.droppedNewest == 0
  {
    var start: History<V, E> := History(Start(), [], 0, 0);
    var dropped := Step(o, Step(o, start, Claim), Push(value));
    ContinueFour(o, start, Claim, Push(value), Next, Take(None, Some(error)), dropped);
    assert dropped == History(start.lane.(claimed := true, droppedNewest := 1), [], 1, 1);
    var called := Step(o, dropped, Next);
    assert called.lane == dropped.lane.(calls := 1);
    Appended(called.lane.settled, Settled(0, Lost(1, error)));
  }

  // ----- endings

  /** Everything accepted was handed over, and every drop reported or lost, before settlement k. */
  predicate CompleteBefore<V(==), E>(h: History<V, E>, k: nat)
    requires k <= |h.lane.settled|
  {
    && Items(h.lane.settled[..k]) == h.accepted
    && Reported(h.lane.settled[..k]) + Forgotten(h.lane.settled[..k]) == h.dropped
  }

  /** A closed lane accepts and drops nothing more. */
  lemma ClosedStays<V, E>(o: Options<V>, h: History<V, E>, op: Op<V, E>)
    ensures var g := Step(o, h, op);
            && (Closed(h.lane) ==> g.accepted == h.accepted && g.dropped == h.dropped)
            && (h.lane.finished ==> g.lane.finished)
            && (h.lane.failure.Some? && op != Fail(None) ==> g.lane.failure.Some?)
  {
  }

  /** A settlement that ends the stream finds the lane empty and no drop pending. */
  lemma EndsEmpty<V, E>(o: Options<V>, h: History<V, E>, op: Op<V, E>)
    requires Invariant(o, h) && |Step(o, h, op).lane.settled| > |h.lane.settled|
    ensures var g, how := Step(o, h, op), Step(o, h, op).lane.settled[|h.lane.settled|].how;
            && (how.Done? ==> g.lane.finished)
            && (how.Failed? && op != Fail(None) ==> g.lane.failure.Some?)
            && (how.Done? || how.Failed? ==>
                  && h.lane.queued == [] && h.lane.droppedNewest == 0
                  && g.accepted == h.accepted && g.dropped == h.dropped)
  {
  }

  lemma CompleteWhenEmpty<V, E>(o: Options<V>, h: History<V, E>, g: History<V, E>)
    requires NothingLost(h) && Accounted(o, h) && h.lane.settled <= g.lane.settled
    ensures h.lane.queued == [] && h.lane.droppedNewest == 0 && g.accepted == h.accepted && g.dropped == h.dropped ==>
            CompleteBefore(g, |h.lane.settled|)
  {
    assert g.lane.settled[..|h.lane.settled|] == h.lane.settled;
    assert Items(h.lane.settled) + [] == Items(h.lane.settled);
  }

  /** An end or a failure that a step settles comes after everything accepted and dropped so far. */
  lemma NewEnding<V, E>(o: Options<V>, h: History<V, E>, op: Op<V, E>)
    requires Invariant(o, h) && |Step(o, h, op).lane.settled| > |h.lane.settled|
    ensures var g, k := Step(o, h, op), |h.lane.settled|;
            g.lane.settled[k].how.Done? || g.lane.settled[k].how.Failed? ==> CompleteBefore(g, k)
  {
    EndsEmpty(o, h, op);
    StepAppends(o, h, op);
    CompleteWhenEmpty(o, h, Step(o, h, op));
  }

  /** No failure is the undefined value. */
  predicate Defined<V, E>(ops: seq<Op<V, E>>) {
    forall i :: 0 <= i < |ops| && ops[i].Fail? ==> ops[i].error.Some?
  }

  /** From a closed lane on, without undefined failures, what is complete stays complete. */
  lemma {:induction false} ClosedIsFrozen<V, E>(o: Options<V>, h: History<V, E>, more: seq<Op<V, E>>)
    requires Closed(h.lane) && (h.lane.finished || Defined(more))
    ensures var g := Continue(o, h, more);
            && Closed(g.lane) && (h.lane.finished ==> g.lane.finished)
            && (h.lane.failure.Some? && Defined(more) ==> g.lane.failure.Some?)
            && g.accepted == h.accepted && g.dropped == h.dropped && h.lane.settled <= g.lane.settled
    decreases |more|
  {
    if more != [] {
      var n := |more| - 1;
      ClosedIsFrozen(o, h, more[..n]);
      ClosedStays(o, Continue(o, h, more[..n]), more[n]);
      StepAppends(o, Continue(o, h, more[..n]), more[n]);
    }
  }

  lemma CompleteStays<V, E>(h: History<V, E>, g: History<V, E>, k: nat)
    requires k <= |h.lane.settled| && CompleteBefore(h, k)
    requires g.accepted == h.accepted && g.dropped == h.dropped && h.lane.settled <= g.lane.settled
    ensures CompleteBefore(g, k)
  {
    assert g.lane.settled[..k] == h.lane.settled[..k];
  }

  // ----- the end of the stream

  predicate DoneAt<V(==), E>(h: History<V, E>, k: nat)
    requires k < |h.lane.settled|
  {
    h.lane.settled[k].how.Done? ==> h.lane.finished && CompleteBefore(h, k)
  }

  predicate Concluded<V(==), E>(h: History<V, E>) {
    forall k :: 0 <= k < |h.lane.settled| ==> DoneAt(h, k)
  }

  lemma StepConcludes<V, E>(o: Options<V>, h: History<V, E>, op: Op<V, E>)
    requires Invariant(o, h) && Concluded(h)
    ensures Concluded(Step(o, h, op))
  {
    var g := Step(o, h, op);
    StepAppends(o, h, op);
    ClosedStays(o, h, op);
    forall k | 0 <= k < |g.lane.settled| ensures DoneAt(g, k) {
      if k < |h.lane.settled| {
        assert DoneAt(h, k);
        if g.lane.settled[k].how.Done? {
          CompleteStays(h, g, k);
        }
      } else {
        EndsEmpty(o, h, op);
        NewEnding(o, h, op);
      }
    }
  }

  /**
   * Finishing loses nothing: in every run, whenever a call settles with the end, every value the lane
   * ever accepts was handed over and every drop it ever makes was reported or lost before it.
   */
  lemma {:induction false} DoneIsFinal<V, E>(o: Options<V>, ops: seq<Op<V, E>>)
    ensures Concluded(Run(o, ops))
    decreases |ops|
  {
    if ops != [] {
      var before := ops[..|ops| - 1];
      DoneIsFinal(o, before);
      EveryRunKeepsInvariant(o, before);
      StepConcludes(o, Run(o, before), ops[|ops| - 1]);
    }
  }

  // ----- failures

  /** Settlement k stays the last word, however the run goes on without further undefined failures. */
  ghost predicate FinalAt<V(!new), E(!new)>(o: Options<V>, h: History<V, E>, k: nat) {
    forall more :: Defined(more) ==> LastWord(Continue(o, h, more), k)
  }

  predicate LastWord<V(==), E>(h: History<V, E>, k: nat) {
    k <= |h.lane.settled| && CompleteBefore(h, k)
  }

  /** Every call rejected with the lane's failure was rejected after everything, for good. */
  ghost predicate RejectionsFinal<V(!new), E(!new)>(o: Options<V>, h: History<V, E>) {
    forall k :: 0 <= k < |h.lane.settled| && h.lane.settled[k].how.Failed? ==> FinalAt(o, h, k)
  }

  lemma FinalNow<V(!new), E(!new)>(o: Options<V>, h: History<V, E>, k: nat)
    requires FinalAt(o, h, k)
    ensures LastWord(h, k)
  {
    assert LastWord(Continue(o, h, []), k);
  }

  lemma FinalWhenClosed<V(!new), E(!new)>(o: Options<V>, h: History<V, E>, k: nat)
    requires Closed(h.lane) && LastWord(h, k)
    ensures FinalAt(o, h, k)
  {
    forall more | Defined(more) ensures LastWord(Continue(o, h, more), k) {
      ClosedIsFrozen(o, h, more);
      CompleteStays(h, Continue(o, h, more), k);
    }
  }

  /** Nobody waits, and no call was rejected with a failure yet. */
  predicate NeverFailed<V, E>(s: State<V, E>) {
    s.waiting.None? && forall k :: 0 <= k < |s.settled| ==> !s.settled[k].how.Failed?
  }

  /** Failing a lane that stays closed keeps its rejections final. */
  lemma FailureKeepsFinal<V(!new), E(!new)>(o: Options<V>, h: History<V, E>, error: Option<E>)
    requires Invariant(o, h) && RejectionsFinal(o, h) && (error.Some? || h.lane.finished)
    ensures RejectionsFinal(o, Step(o, h, Fail(error)))
  {
    var g := Step(o, h, Fail(error));
    StepAppends(o, h, Fail(error));
    forall k | 0 <= k < |g.lane.settled| && g.lane.settled[k].how.Failed? ensures FinalAt(o, g, k) {
      if k < |h.lane.settled| {
        FinalNow(o, h, k);
        CompleteStays(h, g, k);
      } else {
        NewEnding(o, h, Fail(error));
      }
      FinalWhenClosed(o, g, k);
    }
  }

  /** On an open empty lane nobody waits on, the next call parks and is handed the next push. */
  lemma OpenLaneDelivers<V(!new), E(!new)>(o: Options<V>, g: History<V, E>, value: V)
    requires !Closed(g.lane) && g.lane.waiting.None? && g.lane.queued == [] && g.lane.droppedNewest == 0
    requires g.lane.started <= g.lane.calls
    ensures var h := Continue(o, g, [Claim, Next, Take(None, None), Push(value)]);
            h.accepted == g.accepted + [value] && g.lane.settled <= h.lane.settled
  {
    var called := Step(o, Step(o, g, Claim), Next);
    ContinueFour(o, g, Claim, Next, Take(None, None), Push(value), called);
    assert called.lane == g.lane.(claimed := true, calls := g.lane.calls + 1);
    var parked := Step(o, called, Take(None, None));
    assert parked.lane == called.lane.(started := called.lane.started + 1, waiting := Some(called.lane.started));
  }

  /** A rejected call on an open lane is not the last word: the next call can still be handed a push. */
  lemma OpenIsNotFinal<V(!new), E(!new)>(o: Options<V>, g: History<V, E>, k: nat, value: V)
    requires NothingLost(g) && InCallOrder(g.lane) && k <= |g.lane.settled|
    requires !Closed(g.lane) && g.lane.waiting.None? && g.lane.queued == [] && g.lane.droppedNewest == 0
    ensures !FinalAt(o, g, k)
  {
    var more: seq<Op<V, E>> := [Claim, Next, Take(None, None), Push(value)];
    OpenLaneDelivers(o, g, value);
    assert Defined(more);
    LaterPushShows(g, Continue(o, g, more), k, value);
  }

  lemma LaterPushShows<V, E>(g: History<V, E>, h: History<V, E>, k: nat, value: V)
    requires NothingLost(g) && k <= |g.lane.settled|
    requires h.accepted == g.accepted + [value] && g.lane.settled <= h.lane.settled
    ensures !LastWord(h, k)
  {
    assert h.lane.settled[..k] == g.lane.settled[..k];
    PrefixSeesLess(g.lane.settled, k);
    assert |g.accepted| == |Items(g.lane.settled)| + |Values(g.lane.queued)|;
  }

  lemma EmptyWhenComplete<V, E>(o: Options<V>, h: History<V, E>, k: nat)
    requires Invariant(o, h) && LastWord(h, k)
    ensures h.lane.queued == [] && h.lane.droppedNewest == 0
  {
    PrefixSeesLess(h.lane.settled, k);
    assert |Items(h.lane.settled)| + |Values(h.lane.queued)| == |h.accepted|;
  }

  lemma UndefinedFailureReopens<V(!new), E(!new)>(o: Options<V>, h: History<V, E>, value: V)
    requires Invariant(o, h) && RejectionsFinal(o, h) && !h.lane.finished && !NeverFailed(h.lane)
    ensures !RejectionsFinal(o, Step(o, h, Fail(None)))
  {
    var g := Step(o, h, Fail(None));
    StepKeeps(o, h, Fail(None));
    StepAppends(o, h, Fail(None));
    if h.lane.waiting.Some? {
      OpenIsNotFinal(o, g, |h.lane.settled|, value);
      assert g.lane.settled[|h.lane.settled|].how.Failed?;
    } else {
      var k :| 0 <= k < |h.lane.settled| && h.lane.settled[k].how.Failed?;
      FinalNow(o, h, k);
      EmptyWhenComplete(o, h, k);
      OpenIsNotFinal(o, g, k, value);
      assert g.lane.settled[k].how.Failed?;
    }
  }

  /**
   * Failing a lane keeps rejections final if and only if the error is defined, or the lane is finished
   * anyway, or nobody waits and no call was rejected yet.
   */
  lemma FailureIsFinalIff<V(!new), E(!new)>(o: Options<V>, h: History<V, E>, error: Option<E>, value: V)
    requires Invariant(o, h) && RejectionsFinal(o, h)
    ensures RejectionsFinal(o, Step(o, h, Fail(error))) <==> error.Some? || h.lane.finished || NeverFailed(h.lane)
  {
    if error.Some? || h.lane.finished {
      FailureKeepsFinal(o, h, error);
    } else if NeverFailed(h.lane) {
      assert Step(o, h, Fail(error)).lane.settled == h.lane.settled;
    } else {
      UndefinedFailureReopens(o, h, value);
    }
  }

  predicate FailedAt<V(==), E>(h: History<V, E>, k: nat)
    requires k < |h.lane.settled|
  {
    h.lane.settled[k].how.Failed? ==> h.lane.failure.Some? && CompleteBefore(h, k)
  }

  predicate Rejected<V(==), E>(h: History<V, E>) {
    forall k :: 0 <= k < |h.lane.settled| ==> FailedAt(h, k)
  }

  lemma StepRejects<V, E>(o: Options<V>, h: History<V, E>, op: Op<V, E>)
    requires Invariant(o, h) && Rejected(h) && op != Fail(None)
    ensures Rejected(Step(o, h, op))
  {
    var g := Step(o, h, op);
    StepAppends(o, h, op);
    ClosedStays(o, h, op);
    forall k | 0 <= k < |g.lane.settled| ensures FailedAt(g, k) {
      if k < |h.lane.settled| {
        assert FailedAt(h, k);
        if g.lane.settled[k].how.Failed? {
          CompleteStays(h, g, k);
        }
      } else {
        EndsEmpty(o, h, op);
        NewEnding(o, h, op);
      }
    }
  }

  lemma {:induction false} DefinedRunRejects<V, E>(o: Options<V>, ops: seq<Op<V, E>>)
    requires Defined(ops)
    ensures Rejected(Run(o, ops))
    decreases |ops|
  {
    if ops != [] {
      var before, op := ops[..|ops| - 1], ops[|ops| - 1];
      DefinedRunRejects(o, before);
      EveryRunKeepsInvariant(o, before);
      StepRejects(o, Run(o, before), op);
    }
  }

  /**
   * Failing loses nothing: in every run without undefined failures, whenever a call is rejected with
   * the failure, every value the lane ever accepts was handed over before it.
   */
  lemma RejectionsAreFinal<V(!new), E(!new)>(o: Options<V>, ops: seq<Op<V, E>>)
    requires Defined(ops)
    ensures RejectionsFinal(o, Run(o, ops))
  {
    var h := Run(o, ops);
    DefinedRunRejects(o, ops);
    forall k | 0 <= k < |h.lane.settled| && h.lane.settled[k].how.Failed? ensures FinalAt(o, h, k) {
      assert FailedAt(h, k);
      FinalWhenClosed(o, h, k);
    }
  }

  /** With the undefined failure the lane stays open: the call is rejected, and the later push is accepted. */
  lemma UndefinedFailureIsNotFinal<V(!new), E(!new)>(o: Options<V>, value: V)
    requires o.maximumValues > 0 && o.measure(value) <= o.maximumBytes
    ensures var h := Run<V, E>(o, [Claim, Next, Take(None, None), Fail(None), Push(value)]);
            && h.lane.settled == [Settled(0, Failed(None))]
            && h.accepted == [value] && h.lane.queued == [Held(value, o.measure(value))]
            && !CompleteBefore(h, 0)
  {
    var start: History<V, E> := History(Start(), [], 0, 0);
    var called := Step(o, Step(o, start, Claim), Next);
    ContinueFour(o, start, Claim, Next, Take(None, None), Fail(None), called);
    var opening: seq<Op<V, E>> := [Claim, Next, Take(None, None), Fail(None)];
    ContinueSnoc(o, start, opening, Push(value));
    assert called.lane == start.lane.(claimed := true, calls := 1);
    var parked := Step(o, called, Take(None, None));
    assert parked.lane == called.lane.(started := 1, waiting := Some(0));
    var failed := Step(o, parked, Fail(None));
    assert failed.lane == parked.lane.(waiting := None, settled := [Settled(0, Failed(None))]);
    var h := Step(o, failed, Push(value));
    assert opening + [Push(value)] == [Claim, Next, Take(None, None), Fail(None), Push(value)];
    assert h.lane.settled[..0] == [];
  }

  // ----- draining a closed lane

  /** What the callbacks of one call throw, if anything. */
  datatype Throws<+E> = Throws(hook: Option<E>, gap: Option<E>)

  /** Calls in a row. */
  function Takes<V, E>(o: Options<V>, s: State<V, E>, calls: seq<Throws<E>>): State<V, E>
    decreases |calls|
  {
    if calls == [] then s else Takes(o, Lane.Take(o, s, calls[0].hook, calls[0].gap), calls[1..])
  }

  function Pass<E>(call: Throws<E>): nat {
    if call.hook.None? then 1 else 0
  }

  /** How many calls have their hook return. */
  function Passed<E>(calls: seq<Throws<E>>): nat
    decreases |calls|
  {
    if calls == [] then 0 else Pass(calls[0]) + Passed(calls[1..])
  }

  /**
   * How a call settles when the hooks of `passed` calls before it returned: with what its own hook throws, or
   * with the next of the queue, then one marker for the drops or what the gap function throws, then the ending.
   */
  function Due<V, E>(s: State<V, E>, passed: nat, call: Throws<E>): Settlement<V, E> {
    if call.hook.Some? then Threw(call.hook.value)
    else if passed < |s.queued| then Item(s.queued[passed].value)
    else if passed == |s.queued| && s.droppedNewest > 0 then
      if call.gap.Some? then Lost(s.droppedNewest, call.gap.value) else Marker(s.droppedNewest)
    else if s.failure.Some? then Failed(s.failure)
    else Done
  }

  function Script<V, E>(s: State<V, E>, calls: seq<Throws<E>>): seq<Settled<V, E>> {
    seq(|calls|, i requires 0 <= i < |calls| => Settled(s.started + i, Due(s, Passed(calls[..i]), calls[i])))
  }

  /** What a lane can hand over before it ends or a call parks: its queue, and one marker for the drops. */
  function Stock<V, E>(s: State<V, E>): nat {
    |s.queued| + if s.droppedNewest > 0 then 1 else 0
  }

  /** Nobody is parked, and drops are pending only where they can be reported. */
  predicate Draining<V, E>(o: Options<V>, s: State<V, E>) {
    s.waiting.None? && (o.gap.None? ==> s.droppedNewest == 0)
  }

  /** One call settles as due, and leaves the rest of the script due. */
  lemma TakeAsDue<V, E>(o: Options<V>, s: State<V, E>, call: Throws<E>)
    requires Draining(o, s) && (Closed(s) || Pass(call) <= Stock(s))
    ensures var t := Lane.Take(o, s, call.hook, call.gap);
            && Draining(o, t) && t.started == s.started + 1 && Closed(t) == Closed(s)
            && (Pass(call) <= Stock(s) ==> Stock(t) == Stock(s) - Pass(call))
            && t.settled == s.settled + [Settled(s.started, Due(s, 0, call))]
            && forall i: nat, later :: Due(t, i, later) == Due(s, i + Pass(call), later)
  {
  }

  /** The rest of the script is the script of the rest. */
  lemma ScriptGoesOn<V, E>(s: State<V, E>, t: State<V, E>, calls: seq<Throws<E>>)
    requires calls != [] && t.started == s.started + 1
    requires forall i: nat, later :: Due(t, i, later) == Due(s, i + Pass(calls[0]), later)
    ensures Script(s, calls) == [Settled(s.started, Due(s, 0, calls[0]))] + Script(t, calls[1..])
  {
    var rest := calls[1..];
    forall i | 0 < i < |calls| ensures Script(s, calls)[i] == Script(t, rest)[i - 1] {
      assert calls[..i][1..] == rest[..i - 1] && calls[..i][0] == calls[0];
    }
  }

  /**
   * Whatever the callbacks throw, calls are handed the queue in order, then one marker if there were drops, and on
   * a closed lane the same ending for ever: a hook that throws only puts its own call off, and a gap function that
   * throws stands in for the marker.
   */
  lemma {:induction false} LaneDrains<V, E>(o: Options<V>, s: State<V, E>, calls: seq<Throws<E>>)
    requires Draining(o, s) && (Closed(s) || Passed(calls) <= Stock(s))
    ensures Takes(o, s, calls).settled == s.settled + Script(s, calls)
    decreases |calls|
  {
    if calls == [] {
      assert s.settled + [] == s.settled;
    } else {
      var t := Lane.Take(o, s, calls[0].hook, calls[0].gap);
      TakeAsDue(o, s, calls[0]);
      LaneDrains(o, t, calls[1..]);
      ScriptGoesOn(s, t, calls);
      Regroup(s.settled, [Settled(s.started, Due(s, 0, calls[0]))], Script(t, calls[1..]));
    }
  }

  /** With nothing left to hand over, a call whose hook returns parks on an open lane, and changes nothing else. */
  lemma EmptyLaneParks<V, E>(o: Options<V>, s: State<V, E>, gapThrew: Option<E>)
    requires Draining(o, s) && !Closed(s)
    ensures Stock(s) == 0 <==>
            Lane.Take(o, s, None, gapThrew) == s.(started := s.started + 1, waiting := Some(s.started))
  {
  }
}
