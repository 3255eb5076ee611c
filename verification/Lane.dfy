/** The bounded lane between a producer and one asynchronous consumer (`prns-js/src/async_lanes.ts`). */
module Lane {
  import opened Bytes

  /** The capacity, the measure, and how dropped values are reported, if at all. */
  datatype Options<!V> = Options(maximumValues: nat, maximumBytes: nat, measure: V -> nat, gap: Option<nat -> V>)

  datatype Held<+V> = Held(value: V, bytes: nat)

  /**
   * How a `next` call settled: a pushed value, a gap marker, the end, the lane's failure, or what one of
   * the lane's callbacks threw. A gap function that throws takes the count it was to report with it.
   */
  datatype Settlement<+V, +E> =
    | Item(value: V)
    | Marker(count: nat)
    | Done
    | Failed(error: Option<E>)
    | Threw(thrown: E)
    | Lost(count: nat, thrown: E)

  datatype Settled<+V, +E> = Settled(call: nat, how: Settlement<V, E>)

  /** A rejection for lack of room tells `onRejected` the measured bytes. */
  datatype Outcome = Queued | Delivered | Dropped | Rejected(notified: Option<nat>)

  /**
   * `calls` counts calls of `next`, of which the first `started` have run `#take`; calls wait in the
   * promise chain for the one before them to settle. `waiting` is the parked call.
   */
  datatype State<+V, +E> = State(
    queued: seq<Held<V>>,
    retainedBytes: int,
    droppedNewest: nat,
    waiting: Option<nat>,
    claimed: bool,
    finished: bool,
    failure: Option<E>,
    calls: nat,
    started: nat,
    settled: seq<Settled<V, E>>)

  predicate Closed<V, E>(s: State<V, E>) {
    s.finished || s.failure.Some?
  }

  function Settle<V, E>(s: State<V, E>, call: nat, how: Settlement<V, E>): State<V, E> {
    s.(settled := s.settled + [Settled(call, how)])
  }

  /** The parked call, if any, settles. */
  function Wake<V, E>(s: State<V, E>, how: Settlement<V, E>): State<V, E> {
    if s.waiting.None? then s else Settle(s.(waiting := None), s.waiting.value, how)
  }

  predicate Fits<V, E>(o: Options<V>, s: State<V, E>, bytes: nat) {
    |s.queued| < o.maximumValues && s.retainedBytes + bytes <= o.maximumBytes
  }

  function Push<V, E>(o: Options<V>, s: State<V, E>, value: V): (State<V, E>, Outcome) {
    if Closed(s) then (s, Rejected(None))
    else if s.waiting.Some? then (Wake(s, Item(value)), Delivered)
    else if Fits(o, s, o.measure(value)) then
      (s.(queued := s.queued + [Held(value, o.measure(value))], retainedBytes := s.retainedBytes + o.measure(value)),
       Queued)
    else if o.gap.Some? then (s.(droppedNewest := s.droppedNewest + 1), Dropped)
    else (s, Rejected(Some(o.measure(value))))
  }

  function Finish<V, E>(s: State<V, E>): State<V, E> {
    Wake(s.(finished := true), Done)
  }

  /** The error may be the undefined value, which leaves the lane open. */
  function Fail<V, E>(s: State<V, E>, error: Option<E>): State<V, E> {
    Wake(s.(failure := error), Failed(error))
  }

  /** A call of `next` may start once the call before it has settled. */
  predicate Ready<V, E>(s: State<V, E>) {
    s.started < s.calls && s.waiting.None?
  }

  /** The next call runs; the hook before it may throw, and so may the gap function. */
  function Take<V, E>(o: Options<V>, s: State<V, E>, hookThrew: Option<E>, gapThrew: Option<E>): State<V, E> {
    var t := s.(started := s.started + 1);
    if hookThrew.Some? then Settle(t, s.started, Threw(hookThrew.value))
    else if s.queued != [] then
      Settle(t.(queued := s.queued[1..], retainedBytes := s.retainedBytes - s.queued[0].bytes),
             s.started, Item(s.queued[0].value))
    else if s.droppedNewest > 0 && o.gap.Some? then
      Settle(t.(droppedNewest := 0), s.started,
             if gapThrew.Some? then Lost(s.droppedNewest, gapThrew.value) else Marker(s.droppedNewest))
    else if s.failure.Some? then Settle(t, s.started, Failed(s.failure))
    else if s.finished then Settle(t, s.started, Done)
    else t.(waiting := Some(s.started))
  }

  function Start<V, E>(): State<V, E> {
    State([], 0, 0, None, false, false, None, 0, 0, [])
  }

  // ----- the lane as the source keeps it

  class BoundedAsyncLane<!V(==), E(==)> {
    const options: Options<V>
    var queued: seq<Held<V>>
    var retainedBytes: int
    var droppedNewest: nat
    var waiting: Option<nat>
    var claimed: bool
    var finished: bool
    var failure: Option<E>
    var calls: nat
    var started: nat
    var settled: seq<Settled<V, E>>

    ghost function Contents(): State<V, E>
      reads this
    {
      State(queued, retainedBytes, droppedNewest, waiting, claimed, finished, failure, calls, started, settled)
    }

    constructor (options: Options<V>)
      ensures this.options == options && Contents() == Start()
    {
      this.options := options;
      queued, retainedBytes, droppedNewest, waiting := [], 0, 0, None;
      claimed, finished, failure := false, false, None;
      calls, started, settled := 0, 0, [];
    }

    /** Settles the promise the parked call returned. */
    method Resolve(how: Settlement<V, E>)
      requires waiting.Some?
      modifies this
      ensures Contents() == Wake(old(Contents()), how)
    {
      var call := waiting.value;
      waiting := None;
      settled := settled + [Settled(call, how)];
    }

    method PushValue(value: V) returns (outcome: Outcome)
      modifies this
      ensures (Contents(), outcome) == Push(options, old(Contents()), value)
    {
      if finished || failure != None {
        return Rejected(None);
      }
      if waiting != None {
        Resolve(Item(value));
        return Delivered;
      }
      var retained := options.measure(value);
      if |queued| >= options.maximumValues || retainedBytes + retained > options.maximumBytes {
        if options.gap.Some? {
          droppedNewest := droppedNewest + 1;
          return Dropped;
        }
        return Rejected(Some(retained));
      }
      queued := queued + [Held(value, retained)];
      retainedBytes := retainedBytes + retained;
      return Queued;
    }

    method FinishLane()
      modifies this
      ensures Contents() == Finish(old(Contents()))
    {
      finished := true;
      if waiting != None {
        Resolve(Done);
      }
    }

    method FailLane(error: Option<E>)
      modifies this
      ensures Contents() == Fail(old(Contents()), error)
    {
      failure := error;
      if waiting != None {
        Resolve(Failed(error));
      }
    }

    /** Hands out the one iterator. */
    method Claim() returns (granted: bool)
      modifies this
      ensures granted == !old(claimed)
      ensures Contents() == old(Contents()).(claimed := true)
    {
      if claimed {
        return false;
      }
      claimed := true;
      return true;
    }

    /** `#serializedNext`: the call joins the chain. */
    method SerializedNext()
      requires claimed
      modifies this
      ensures Contents() == old(Contents()).(calls := old(calls) + 1)
    {
      calls := calls + 1;
    }

    /** `#take`, run when the call before it has settled. */
    method TakeNext(hookThrew: Option<E>, gapThrew: Option<E>)
      requires Ready(Contents())
      modifies this
      ensures Contents() == Take(options, old(Contents()), hookThrew, gapThrew)
    {
      var call := started;
      started := started + 1;
      if hookThrew.Some? {
        settled := settled + [Settled(call, Threw(hookThrew.value))];
        return;
      }
      if queued != [] {
        var head := queued[0];
        queued := queued[1..];
        retainedBytes := retainedBytes - head.bytes;
        settled := settled + [Settled(call, Item(head.value))];
        return;
      }
      if droppedNewest > 0 && options.gap.Some? {
        var count := droppedNewest;
        droppedNewest := 0;
        if gapThrew.Some? {
          settled := settled + [Settled(call, Lost(count, gapThrew.value))];
          return;
        }
        settled := settled + [Settled(call, Marker(count))];
        return;
      }
      if failure.Some? {
        settled := settled + [Settled(call, Failed(failure))];
        return;
      }
      if finished {
        settled := settled + [Settled(call, Done)];
        return;
      }
      waiting := Some(call);
    }
  }
}
