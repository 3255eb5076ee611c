/** The reseeding schedule in closed form, its windows over every run, and what every run hands out. */
module EntropyLaws {
  import opened Sequences
  import opened Bytes
  import opened Entropy

  // ----- the schedule

  /** Attempts made by a fill of `n` bytes from budget `r`. */
  function Attempts(n: nat, r: nat): nat {
    if n <= r then 0 else (n - r + 0xffff) / 0x1_0000
  }

  /** They are as few as give the fill enough windows. */
  lemma AttemptsLeast(n: nat, r: nat, k: nat)
    ensures k == Attempts(n, r) <==> n <= r + INTERVAL * k && (k > 0 ==> r + INTERVAL * (k - 1) < n)
  {
  }

  function HealthAfter(source: Source, calls: nat, attempts: nat, health: Health): Health {
    if attempts == 0 then health else if source(calls + attempts - 1).Some? then Healthy else Deferred
  }

  /** Where a fill leaves the schedule, whatever the cipher does. */
  ghost predicate Scheduled<G>(s: State<G>, n: nat, t: State<G>) {
    var k := Attempts(n, s.budget);
    && t.source == s.source && t.calls == s.calls + k
    && t.budget == s.budget + INTERVAL * k - n
    && t.health == HealthAfter(s.source, s.calls, k, s.health)
  }

  /** What the attempt before a chunk, if one is due, and the chunk do to the schedule. */
  ghost predicate ChunkScheduled<G>(s: State<G>, n: nat, chunk: nat, u: State<G>) {
    var first := if s.budget == 0 then 1 else 0;
    && 0 < chunk <= n && u.source == s.source && u.budget <= INTERVAL
    && u.calls == s.calls + first
    && u.budget + chunk == s.budget + INTERVAL * first
    && u.health == HealthAfter(s.source, s.calls, first, s.health)
    && Attempts(n, s.budget) == first + Attempts(n - chunk, u.budget)
  }

  lemma ChunkSchedule<G>(lib: Library<G>, s: State<G>, n: nat)
    requires n > 0 && s.budget <= INTERVAL
    ensures var t := Refreshed(lib, s);
            var chunk := Least(n, t.budget);
            ChunkScheduled(s, n, chunk, Emitted(lib, t, chunk))
  {
    var chunk := Least(n, Refreshed(lib, s).budget);
    var first, rest := if s.budget == 0 then 1 else 0, Attempts(n - chunk, Refreshed(lib, s).budget - chunk);
    AttemptsLeast(n - chunk, Refreshed(lib, s).budget - chunk, rest);
    AttemptsLeast(n, s.budget, first + rest);
  }

  lemma ScheduledNext<G>(s: State<G>, n: nat, chunk: nat, u: State<G>, t: State<G>)
    requires ChunkScheduled(s, n, chunk, u) && Scheduled(u, n - chunk, t)
    ensures Scheduled(s, n, t)
  {
  }

  /**
   * A fill makes no attempt within its budget and otherwise one for each further window it opens;
   * calls, budget and health follow in closed form.
   */
  lemma {:induction false} FillSchedule<G>(lib: Library<G>, s: State<G>, n: nat)
    requires s.budget <= INTERVAL
    ensures Scheduled(s, n, Filled(lib, s, n).0) && Filled(lib, s, n).0.budget <= INTERVAL
    decreases n
  {
    if n > 0 {
      var t := Refreshed(lib, s);
      var chunk := Least(n, t.budget);
      ChunkSchedule(lib, s, n);
      var u := Emitted(lib, t, chunk);
      FillSchedule(lib, u, n - chunk);
      ScheduledNext(s, n, chunk, u, Filled(lib, u, n - chunk).0);
    }
  }

  lemma ScheduledTwice<G>(s: State<G>, a: nat, t: State<G>, b: nat, split: State<G>, whole: State<G>)
    requires Scheduled(s, a, t) && Scheduled(t, b, split) && Scheduled(s, a + b, whole)
    ensures SameSchedule(whole, split)
  {
    AttemptsAdd(a, b, s.budget);
  }

  ghost predicate KeepsSchedule<G>(fill: (State<G>, nat) -> State<G>, s: State<G>, n: nat) {
    s.budget <= INTERVAL ==> fill(s, n).budget <= INTERVAL && Scheduled(s, n, fill(s, n))
  }

  lemma SplitOf<G(!new)>(fill: (State<G>, nat) -> State<G>, s: State<G>, a: nat, b: nat)
    requires s.budget <= INTERVAL && forall s, n :: KeepsSchedule(fill, s, n)
    ensures SameSchedule(fill(s, a + b), fill(fill(s, a), b))
  {
    assert KeepsSchedule(fill, s, a) && KeepsSchedule(fill, fill(s, a), b) && KeepsSchedule(fill, s, a + b);
    ScheduledTwice(s, a, fill(s, a), b, fill(fill(s, a), b), fill(s, a + b));
  }

  ghost predicate SameSchedule<G>(s: State<G>, t: State<G>) {
    s.calls == t.calls && s.budget == t.budget && s.health == t.health
  }

  /** The state a fill leaves. */
  function Filler<G>(lib: Library<G>): (State<G>, nat) -> State<G> {
    (s: State<G>, n: nat) => Filled(lib, s, n).0
  }

  lemma FillerKeepsSchedule<G>(lib: Library<G>, s: State<G>, n: nat)
    ensures KeepsSchedule(Filler(lib), s, n)
  {
    if s.budget <= INTERVAL {
      FillSchedule(lib, s, n);
    }
  }

  /** Splitting a fill leaves calls, budget and health the same. */
  lemma SplitSchedule<G(!new)>(lib: Library<G>, s: State<G>, a: nat, b: nat)
    requires s.budget <= INTERVAL
    ensures SameSchedule(Filler(lib)(s, a + b), Filler(lib)(Filler(lib)(s, a), b))
  {
    forall s, n: nat ensures KeepsSchedule(Filler(lib), s, n) {
      FillerKeepsSchedule(lib, s, n);
    }
    SplitOf(Filler(lib), s, a, b);
  }

  lemma AttemptsAdd(a: nat, b: nat, r: nat)
    ensures var k := Attempts(a, r);
            r + INTERVAL * k >= a && Attempts(a + b, r) == k + Attempts(b, r + INTERVAL * k - a)
  {
    var k := Attempts(a, r);
    AttemptsLeast(a, r, k);
    var l := Attempts(b, r + INTERVAL * k - a);
    AttemptsLeast(b, r + INTERVAL * k - a, l);
    AttemptsLeast(a + b, r, k + l);
  }

  // ----- windows, over every run

  /** Bytes handed out since the last attempt. */
  function Since(log: seq<Event>): nat {
    if log == [] then 0
    else
      match log[|log| - 1]
      case Attempt(_) => 0
      case Emit(n) => Since(log[..|log| - 1]) + n
  }

  function LastFailed(log: seq<Event>): bool {
    if log == [] then false
    else
      match log[|log| - 1]
      case Attempt(entropy) => entropy.None?
      case Emit(_) => LastFailed(log[..|log| - 1])
  }

  predicate WindowAt(log: seq<Event>, k: nat)
    requires k <= |log|
  {
    Since(log[..k]) <= 0x1_0000
  }

  predicate Windowed(log: seq<Event>) {
    forall k :: 0 <= k <= |log| ==> WindowAt(log, k)
  }

  /** At every moment the window holds, and health tells whether the latest attempt failed. */
  predicate Invariant<G>(s: State<G>) {
    && Since(s.log) + s.budget <= INTERVAL
    && Windowed(s.log)
    && (s.health == Deferred <==> LastFailed(s.log))
  }

  lemma LogGrows(log: seq<Event>, e: Event)
    requires Windowed(log)
    ensures Since(log + [e]) == if e.Emit? then Since(log) + e.bytes else 0
    ensures LastFailed(log + [e]) == if e.Attempt? then e.entropy.None? else LastFailed(log)
    ensures Since(log + [e]) <= INTERVAL ==> Windowed(log + [e])
  {
    var longer := log + [e];
    assert longer[..|log|] == log;
    if Since(longer) <= INTERVAL {
      forall k | 0 <= k <= |longer| ensures WindowAt(longer, k) {
        if k <= |log| {
          assert WindowAt(log, k);
          assert longer[..k] == log[..k];
        } else {
          assert longer[..k] == longer;
        }
      }
    }
  }

  lemma ReseedKeeps<G>(lib: Library<G>, s: State<G>)
    requires Invariant(s)
    ensures Invariant(Reseeded(lib, s)) && Since(Reseeded(lib, s).log) == 0
  {
    LogGrows(s.log, Attempt(s.source(s.calls)));
  }

  lemma ChunkKeeps<G>(lib: Library<G>, s: State<G>, n: nat)
    requires Invariant(s)
    ensures var t := Refreshed(lib, s); Invariant(Emitted(lib, t, Least(n, t.budget)))
  {
    ReseedKeeps(lib, s);
    var t := Refreshed(lib, s);
    LogGrows(t.log, Emit(Least(n, t.budget)));
  }

  lemma {:induction false} FillKeeps<G>(lib: Library<G>, s: State<G>, n: nat)
    requires Invariant(s)
    ensures Invariant(Filled(lib, s, n).0)
    decreases n
  {
    if n > 0 {
      var t := Refreshed(lib, s);
      var chunk := Least(n, t.budget);
      ChunkKeeps(lib, s, n);
      FillKeeps(lib, Emitted(lib, t, chunk), n - chunk);
    }
  }

  datatype Op = Fill(n: nat) | TryReseed | Install(source: Source)

  /** The stream after one operation, and the bytes it handed out. */
  function Step<G>(lib: Library<G>, s: State<G>, op: Op): (State<G>, seq<Byte>) {
    match op
    case Fill(n) => Filled(lib, s, n)
    case TryReseed => (Reseeded(lib, s), [])
    case Install(source) => (WithSource(s, source), [])
  }

  function Run<G>(lib: Library<G>, s: State<G>, ops: seq<Op>): (State<G>, seq<Byte>) {
    if ops == [] then (s, [])
    else
      var (t, bytes) := Run(lib, s, ops[..|ops| - 1]);
      var (u, more) := Step(lib, t, ops[|ops| - 1]);
      (u, bytes + more)
  }

  /**
   * From a seeded stream, over every run of fills, explicit reseeds and source changes, no more than
   * one interval is ever handed out since the last attempt, and the stream is deferred exactly when
   * its latest attempt failed.
   */
  lemma {:induction false} EveryRunIsWindowed<G>(lib: Library<G>, source: Source, ops: seq<Op>)
    requires Seeded(lib, source).Some?
    ensures Invariant(Run(lib, Seeded(lib, source).value, ops).0)
  {
    var s := Seeded(lib, source).value;
    if ops == [] {
      assert Windowed([]) by {
        assert WindowAt([], 0);
      }
      LogGrows([], Attempt(source(0)));
      assert [] + [Attempt(source(0))] == [Attempt(source(0))];
    } else {
      var before := ops[..|ops| - 1];
      EveryRunIsWindowed(lib, source, before);
      var t := Run(lib, s, before).0;
      ReseedKeeps(lib, t);
      if ops[|ops| - 1].Fill? {
        FillKeeps(lib, t, ops[|ops| - 1].n);
      }
    }
  }

  // ----- the cipher and its output, over every run

  /** A log that starts with the first seed. */
  predicate Begun(log: seq<Event>) {
    log != [] && log[0].Attempt? && log[0].entropy.Some?
  }

  /** What one event does to the cipher; a failed attempt does nothing. */
  function Moved<G>(lib: Library<G>, g: G, e: Event): G {
    match e
    case Attempt(None) => g
    case Attempt(Some(entropy)) => lib.fromSeed(lib.derive(entropy, lib.output(g, 32)))
    case Emit(n) => lib.advance(g, n)
  }

  /** The cipher a log describes: seeded first, then moved by one event after the other. */
  function Replayed<G>(lib: Library<G>, log: seq<Event>): G
    requires Begun(log)
  {
    if |log| == 1 then lib.fromSeed(log[0].entropy.value)
    else Moved(lib, Replayed(lib, log[..|log| - 1]), log[|log| - 1])
  }

  /** What the chunks of a log are, one after the other: the output of the cipher replayed up to each. */
  function Handed<G>(lib: Library<G>, log: seq<Event>): seq<Byte>
    requires Begun(log)
  {
    if |log| == 1 then []
    else
      var front := log[..|log| - 1];
      match log[|log| - 1]
      case Attempt(_) => Handed(lib, front)
      case Emit(n) => Handed(lib, front) + lib.output(Replayed(lib, front), n)
  }

  predicate Replays<G(==)>(lib: Library<G>, s: State<G>, bytes: seq<Byte>) {
    Begun(s.log) && s.csprng == Replayed(lib, s.log) && bytes == Handed(lib, s.log)
  }

  lemma LogReplays<G>(lib: Library<G>, log: seq<Event>, e: Event)
    requires Begun(log)
    ensures Begun(log + [e]) && Replayed(lib, log + [e]) == Moved(lib, Replayed(lib, log), e)
    ensures Handed(lib, log + [e]) == Handed(lib, log) + if e.Emit? then lib.output(Replayed(lib, log), e.bytes) else []
  {
    assert (log + [e])[..|log|] == log;
  }

  lemma ChunkReplays<G>(lib: Library<G>, s: State<G>, n: nat, bytes: seq<Byte>)
    requires Replays(lib, s, bytes)
    ensures var t := Refreshed(lib, s);
            var chunk := Least(n, t.budget);
            Replays(lib, Emitted(lib, t, chunk), bytes + lib.output(t.csprng, chunk))
  {
    var t := Refreshed(lib, s);
    LogReplays(lib, s.log, Attempt(s.source(s.calls)));
    LogReplays(lib, t.log, Emit(Least(n, t.budget)));
    assert Handed(lib, s.log) + [] == Handed(lib, s.log);
  }

  lemma {:induction false} FillReplays<G>(lib: Library<G>, s: State<G>, n: nat, bytes: seq<Byte>)
    requires Replays(lib, s, bytes)
    ensures Replays(lib, Filled(lib, s, n).0, bytes + Filled(lib, s, n).1)
    decreases n
  {
    if n == 0 {
      assert bytes + [] == bytes;
    } else {
      var t := Refreshed(lib, s);
      var chunk := Least(n, t.budget);
      var u, out := Emitted(lib, t, chunk), lib.output(t.csprng, chunk);
      ChunkReplays(lib, s, n, bytes);
      FillReplays(lib, u, n - chunk, bytes + out);
      Regroup(bytes, out, Filled(lib, u, n - chunk).1);
    }
  }

  /**
   * Over every run the cipher is exactly what its seeds and the chunks since have made of it, and the bytes
   * handed out are, chunk by chunk, its output at the time.
   */
  lemma {:induction false} EveryRunReplays<G>(lib: Library<G>, source: Source, ops: seq<Op>)
    requires Seeded(lib, source).Some?
    ensures var (t, bytes) := Run(lib, Seeded(lib, source).value, ops); Replays(lib, t, bytes)
  {
    var s := Seeded(lib, source).value;
    if ops != [] {
      var before, op := ops[..|ops| - 1], ops[|ops| - 1];
      EveryRunReplays(lib, source, before);
      var (t, bytes) := Run(lib, s, before);
      LogReplays(lib, t.log, Attempt(t.source(t.calls)));
      if op.Fill? {
        FillReplays(lib, t, op.n, bytes);
      } else {
        assert bytes + [] == bytes;
      }
    }
  }

  /** The log without its failed attempts. */
  function Successes(log: seq<Event>): seq<Event> {
    if log == [] then []
    else
      var last := log[|log| - 1];
      Successes(log[..|log| - 1]) + if last == Attempt(None) then [] else [last]
  }

  ghost predicate SameReplay<G>(lib: Library<G>, log: seq<Event>, kept: seq<Event>) {
    && Begun(log) && Begun(kept)
    && Replayed(lib, kept) == Replayed(lib, log) && Handed(lib, kept) == Handed(lib, log)
  }

  lemma TraceStep<G>(lib: Library<G>, log: seq<Event>, kept: seq<Event>, e: Event)
    requires SameReplay(lib, log, kept)
    ensures SameReplay(lib, log + [e], if e == Attempt(None) then kept else kept + [e])
  {
    LogReplays(lib, log, e);
    LogReplays(lib, kept, e);
  }

  lemma {:induction false} FailuresChangeNothing<G>(lib: Library<G>, log: seq<Event>)
    requires Begun(log)
    ensures SameReplay(lib, log, Successes(log))
    decreases |log|
  {
    var last, front := log[|log| - 1], log[..|log| - 1];
    assert log == front + [last];
    if |log| == 1 {
      assert Successes(front) == [] && Successes(log) == log;
    } else {
      var kept := Successes(front);
      FailuresChangeNothing(lib, front);
      TraceStep(lib, front, kept, last);
      assert Successes(log) == if last == Attempt(None) then kept else kept + [last];
    }
  }

  /**
   * Failed attempts leave no trace: over every run both the cipher and every byte handed out are those of
   * the log with the failed attempts struck out.
   */
  lemma FailuresLeaveNoTrace<G>(lib: Library<G>, source: Source, ops: seq<Op>)
    requires Seeded(lib, source).Some?
    ensures var (t, bytes) := Run(lib, Seeded(lib, source).value, ops);
            var kept := Successes(t.log);
            Begun(kept) && t.csprng == Replayed(lib, kept) && bytes == Handed(lib, kept)
  {
    EveryRunReplays(lib, source, ops);
    FailuresChangeNothing(lib, Run(lib, Seeded(lib, source).value, ops).0.log);
  }

  // ----- what the source was asked

  /** The outcomes of the attempts in a log. */
  function Outcomes(log: seq<Event>): seq<Option<seq<Byte>>> {
    if log == [] then []
    else
      var last := log[|log| - 1];
      Outcomes(log[..|log| - 1]) + if last.Attempt? then [last.entropy] else []
  }

  /** The answers to a source's first calls. */
  function Answers(source: Source, n: nat): (r: seq<Option<seq<Byte>>>)
    ensures |r| == n
  {
    if n == 0 then [] else Answers(source, n - 1) + [source(n - 1)]
  }

  /** The latest attempts are the answers of the source in place, from its first call on. */
  predicate Asked<G>(s: State<G>) {
    var outcomes := Outcomes(s.log);
    s.calls <= |outcomes| && outcomes[|outcomes| - s.calls..] == Answers(s.source, s.calls)
  }

  lemma OutcomesGrow(log: seq<Event>, e: Event)
    ensures Outcomes(log + [e]) == Outcomes(log) + if e.Attempt? then [e.entropy] else []
  {
    assert (log + [e])[..|log|] == log;
  }

  lemma ReseedLogs<G>(lib: Library<G>, s: State<G>)
    ensures var t := Reseeded(lib, s);
            && t.source == s.source && t.calls == s.calls + 1
            && t.log == s.log + [Attempt(s.source(s.calls))]
  {
  }

  lemma AskedOnce(outcomes: seq<Option<seq<Byte>>>, answers: seq<Option<seq<Byte>>>, x: Option<seq<Byte>>)
    requires |answers| <= |outcomes| && outcomes[|outcomes| - |answers|..] == answers
    ensures (outcomes + [x])[|outcomes + [x]| - |answers + [x]|..] == answers + [x]
  {
  }

  lemma ReseedAsks<G>(lib: Library<G>, s: State<G>)
    requires Asked(s)
    ensures Asked(Reseeded(lib, s))
  {
    var x := s.source(s.calls);
    ReseedLogs(lib, s);
    OutcomesGrow(s.log, Attempt(x));
    AskedOnce(Outcomes(s.log), Answers(s.source, s.calls), x);
    assert Answers(s.source, s.calls + 1) == Answers(s.source, s.calls) + [x];
  }

  lemma EmitAsks<G>(lib: Library<G>, s: State<G>, n: nat)
    requires Asked(s) && n <= s.budget
    ensures Asked(Emitted(lib, s, n))
  {
    OutcomesGrow(s.log, Emit(n));
  }

  lemma ChunkAsks<G>(lib: Library<G>, s: State<G>, n: nat)
    requires Asked(s)
    ensures var t := Refreshed(lib, s); Asked(Emitted(lib, t, Least(n, t.budget)))
  {
    ReseedAsks(lib, s);
    var t := Refreshed(lib, s);
    EmitAsks(lib, t, Least(n, t.budget));
  }

  lemma {:induction false} FillAsks<G>(lib: Library<G>, s: State<G>, n: nat)
    requires Asked(s)
    ensures Asked(Filled(lib, s, n).0)
    decreases n
  {
    if n > 0 {
      var t := Refreshed(lib, s);
      var chunk := Least(n, t.budget);
      ChunkAsks(lib, s, n);
      FillAsks(lib, Emitted(lib, t, chunk), n - chunk);
    }
  }

  /**
   * Over every run each attempt takes the next answer of the source in place: none is skipped, none is used twice,
   * and a source put in place later is asked from its first answer on.
   */
  lemma {:induction false} EveryAttemptAsksOnce<G>(lib: Library<G>, source: Source, ops: seq<Op>)
    requires Seeded(lib, source).Some?
    ensures Asked(Run(lib, Seeded(lib, source).value, ops).0)
  {
    var s := Seeded(lib, source).value;
    if ops == [] {
      OutcomesGrow([], Attempt(source(0)));
      assert [] + [Attempt(source(0))] == s.log && Answers(source, 1) == Answers(source, 0) + [source(0)];
    } else {
      var before := ops[..|ops| - 1];
      EveryAttemptAsksOnce(lib, source, before);
      var t := Run(lib, s, before).0;
      ReseedAsks(lib, t);
      if ops[|ops| - 1].Fill? {
        FillAsks(lib, t, ops[|ops| - 1].n);
      }
    }
  }
}
