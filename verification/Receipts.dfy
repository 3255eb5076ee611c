/**
 * Delivery of settled receipts (`benchmarks/reference/receipt_settlement.py`) as threads interleave:
 * each action below is one step of one thread, and any thread may take the next step.
 */
module Receipts {
  /**
   * Where a thread is in `arm`: about to install the first callback (or, without a receipt, to
   * notify), the second one, about to read the status, about to pass the once gate, about to append
   * to the ready queue, or done. `Quiet` is done after reading the pending status.
   */
  datatype Armer = Start | InstallTimeout | ReadStatus | ArmerGate | ArmerAppend | Quiet | ArmerDone

  datatype Outcome = Delivery | Timeout

  /** A thread that settles the receipt: it writes the status, then reads its callback slot. */
  datatype Settling = WriteStatus | ReadSlot | Gate | Append | Done

  datatype Settler = Settler(outcome: Outcome, at: Settling)

  /** One armed receipt: its slots and status, its once gate, and the threads at work on it. */
  datatype Token = Token(
    hasReceipt: bool,
    armer: Armer,
    deliveryInstalled: bool,
    timeoutInstalled: bool,
    settled: bool,
    queued: bool,
    settlers: seq<Settler>)

  /** Consumers in `pop_until` sleep on the condition, or are awake and about to look again. */
  datatype System = System(
    tokens: seq<Token>,
    ready: seq<nat>,
    popped: seq<nat>,
    appended: seq<nat>,
    asleep: nat,
    awake: nat)

  const INITIAL := System([], [], [], [], 0, 0)

  datatype Action =
    | Create(hasReceipt: bool)
    | BeginSettling(token: nat, outcome: Outcome)
    | StepArmer(token: nat)
    | StepSettler(token: nat, settler: nat)
    | Poll(expired: bool)
    | Resume(expired: bool)
    | Wake

  /** `_settled`: append under the lock, and wake one sleeping consumer. */
  function Appended(s: System, token: nat): System {
    s.(ready := s.ready + [token],
       appended := s.appended + [token],
       asleep := if s.asleep > 0 then s.asleep - 1 else 0,
       awake := if s.asleep > 0 then s.awake + 1 else s.awake)
  }

  function ArmerMoved(t: Token): Token {
    match t.armer
    case Start =>
      if t.hasReceipt then t.(deliveryInstalled := true, armer := InstallTimeout) else t.(armer := ArmerGate)
    case InstallTimeout => t.(timeoutInstalled := true, armer := ReadStatus)
    case ReadStatus => t.(armer := if t.settled then ArmerGate else Quiet)
    case ArmerGate => if t.queued then t.(armer := ArmerDone) else t.(queued := true, armer := ArmerAppend)
    case ArmerAppend => t.(armer := ArmerDone)
    case _ => t
  }

  /** The thread's step, which may be the one that appends. */
  function Moved(s: System, i: nat, t: Token, appends: bool): System
    requires i < |s.tokens|
  {
    var after := s.(tokens := s.tokens[i := t]);
    if appends then Appended(after, i) else after
  }

  predicate Installed(t: Token, outcome: Outcome) {
    if outcome.Delivery? then t.deliveryInstalled else t.timeoutInstalled
  }

  function At(t: Token, k: nat, at: Settling): Token
    requires k < |t.settlers|
  {
    t.(settlers := t.settlers[k := t.settlers[k].(at := at)])
  }

  function SettlerMoved(t: Token, k: nat): Token
    requires k < |t.settlers|
  {
    match t.settlers[k].at
    case WriteStatus => At(t, k, ReadSlot).(settled := true)
    case ReadSlot => At(t, k, if Installed(t, t.settlers[k].outcome) then Gate else Done)
    case Gate => if t.queued then At(t, k, Done) else At(t, k, Append).(queued := true)
    case Append => At(t, k, Done)
    case Done => t
  }

  /** A consumer holding the lock: it takes the oldest entry, gives up, or goes to sleep. */
  function Look(s: System, expired: bool): System {
    if s.ready != [] then s.(ready := s.ready[1..], popped := s.popped + [s.ready[0]])
    else if expired then s
    else s.(asleep := s.asleep + 1)
  }

  function Next(s: System, a: Action): System {
    match a
    case Create(hasReceipt) => s.(tokens := s.tokens + [Token(hasReceipt, Start, false, false, false, false, [])])
    case BeginSettling(i, outcome) =>
      if i < |s.tokens| && s.tokens[i].hasReceipt
      then Moved(s, i, s.tokens[i].(settlers := s.tokens[i].settlers + [Settler(outcome, WriteStatus)]), false)
      else s
    case StepArmer(i) =>
      if i < |s.tokens| then Moved(s, i, ArmerMoved(s.tokens[i]), s.tokens[i].armer == ArmerAppend) else s
    case StepSettler(i, k) =>
      if i < |s.tokens| && k < |s.tokens[i].settlers|
      then Moved(s, i, SettlerMoved(s.tokens[i], k), s.tokens[i].settlers[k].at == Append)
      else s
    case Poll(expired) => Look(s, expired)
    case Resume(expired) => if s.awake > 0 then Look(s.(awake := s.awake - 1), expired) else s
    case Wake => if s.asleep > 0 then s.(asleep := s.asleep - 1, awake := s.awake + 1) else s
  }

  function Run(actions: seq<Action>): System {
    if actions == [] then INITIAL else Next(Run(actions[..|actions| - 1]), actions[|actions| - 1])
  }

  // ----- the invariant

  function Appending(settlers: seq<Settler>): nat {
    if settlers == [] then 0 else (if settlers[0].at == Append then 1 else 0) + Appending(settlers[1..])
  }

  lemma {:induction false} AppendingUpdated(settlers: seq<Settler>, k: nat, x: Settler)
    requires k < |settlers|
    ensures Appending(settlers[k := x]) == Appending(settlers) - Bit(settlers[k].at == Append) + Bit(x.at == Append)
    ensures Appending(settlers) >= Bit(settlers[k].at == Append)
  {
    if k == 0 {
      assert settlers[k := x][1..] == settlers[1..];
    } else {
      AppendingUpdated(settlers[1..], k - 1, x);
      assert settlers[k := x][1..] == settlers[1..][k - 1 := x];
    }
  }

  lemma {:induction false} AppendingNone(settlers: seq<Settler>)
    requires forall k :: 0 <= k < |settlers| ==> settlers[k].at != Append
    ensures Appending(settlers) == 0
  {
    if settlers != [] {
      AppendingNone(settlers[1..]);
    }
  }

  lemma {:induction false} AppendingExtended(settlers: seq<Settler>, outcome: Outcome)
    ensures Appending(settlers + [Settler(outcome, WriteStatus)]) == Appending(settlers)
  {
    var x := Settler(outcome, WriteStatus);
    if settlers == [] {
      assert settlers + [x] == [x] && [x][1..] == [];
    } else {
      assert (settlers + [x])[1..] == settlers[1..] + [x];
      AppendingExtended(settlers[1..], outcome);
    }
  }

  function Bit(b: bool): nat {
    if b then 1 else 0
  }

  /** The threads between the once gate and the queue. */
  function Underway(t: Token): nat {
    Bit(t.armer == ArmerAppend) + Appending(t.settlers)
  }

  predicate Past(at: Settling) {
    at != WriteStatus
  }

  /** What one receipt's own threads keep true. */
  predicate Sound(t: Token) {
    && (t.hasReceipt ==> (t.deliveryInstalled <==> t.armer != Start))
    && (t.hasReceipt ==> (t.timeoutInstalled <==> t.armer != Start && t.armer != InstallTimeout))
    && (!t.hasReceipt ==> t.settlers == [] && t.armer in {Start, ArmerGate, ArmerAppend, ArmerDone})
    && (t.settled <==> exists k :: 0 <= k < |t.settlers| && Past(t.settlers[k].at))
    && (t.queued ==> t.settled || !t.hasReceipt)
    && (t.hasReceipt && t.armer == ArmerGate ==> t.settled)
    && (t.armer in {ArmerAppend, ArmerDone} ==> t.queued)
    && (t.queued && t.hasReceipt ==> t.deliveryInstalled)
    && (forall k :: 0 <= k < |t.settlers| ==> Reached(t, t.settlers[k]))
  }

  /**
   * A settler comes to the gate through a callback that was installed; past the gate, or finished after the armer
   * went quiet, it left the receipt queued.
   */
  predicate Reached(t: Token, x: Settler) {
    && (x.at in {Gate, Append} ==> Installed(t, x.outcome))
    && (x.at == Append ==> t.queued)
    && (x.at == Done && t.armer == Quiet ==> t.queued)
  }

  /** The gate was passed as often as the receipt was appended or is about to be. */
  predicate Counted(s: System, i: nat)
    requires i < |s.tokens|
  {
    Bit(s.tokens[i].queued) == Underway(s.tokens[i]) + multiset(s.appended)[i]
  }

  predicate TokensSound(s: System) {
    forall i :: 0 <= i < |s.tokens| ==> Sound(s.tokens[i])
  }

  predicate TokensCounted(s: System) {
    forall i :: 0 <= i < |s.tokens| ==> Counted(s, i)
  }

  /** What was popped, then what is ready, is what was appended, in order; only real receipts were. */
  predicate InOrder(s: System) {
    s.popped + s.ready == s.appended && forall i :: i in s.appended ==> i < |s.tokens|
  }

  /** No consumer sleeps on an entry that no awake consumer is on its way to take. */
  predicate NoLostWakeup(s: System) {
    s.asleep > 0 ==> |s.ready| <= s.awake
  }

  predicate Invariant(s: System) {
    TokensSound(s) && TokensCounted(s) && InOrder(s) && NoLostWakeup(s)
  }

  // ----- one receipt

  lemma ArmerKeepsSound(t: Token)
    requires Sound(t)
    ensures Sound(ArmerMoved(t))
    ensures Bit(ArmerMoved(t).queued) + Underway(t)
         == Bit(t.queued) + Underway(ArmerMoved(t)) + Bit(t.armer == ArmerAppend)
  {
    var u := ArmerMoved(t);
    assert u.settlers == t.settlers;
    forall k | 0 <= k < |u.settlers| ensures Reached(u, u.settlers[k]) {
      assert Reached(t, t.settlers[k]);
      assert !t.settled ==> !Past(t.settlers[k].at);
    }
  }

  lemma SettlerCounts(t: Token, k: nat)
    requires Sound(t) && k < |t.settlers|
    ensures var u := SettlerMoved(t, k);
            Bit(u.queued) + Underway(t) == Bit(t.queued) + Underway(u) + Bit(t.settlers[k].at == Append)
  {
    var u := SettlerMoved(t, k);
    assert Reached(t, t.settlers[k]);
    AppendingUpdated(t.settlers, k, u.settlers[k]);
    assert u.settlers == t.settlers[k := u.settlers[k]];
  }

  lemma SettlerKeepsSound(t: Token, k: nat)
    requires Sound(t) && k < |t.settlers|
    ensures Sound(SettlerMoved(t, k))
  {
    var u := SettlerMoved(t, k);
    assert Reached(t, t.settlers[k]);
    assert Past(t.settlers[k].at) ==> t.settled;
    assert Past(u.settlers[k].at);
    assert t.hasReceipt;
    forall j | 0 <= j < |u.settlers| ensures Reached(u, u.settlers[j]) {
      assert Reached(t, t.settlers[j]);
    }
  }

  lemma NewSettlerKeepsSound(t: Token, outcome: Outcome)
    requires Sound(t) && t.hasReceipt
    ensures var u := t.(settlers := t.settlers + [Settler(outcome, WriteStatus)]);
            Sound(u) && Underway(u) == Underway(t)
  {
    var u := t.(settlers := t.settlers + [Settler(outcome, WriteStatus)]);
    AppendingExtended(t.settlers, outcome);
    forall j | 0 <= j < |u.settlers| ensures Reached(u, u.settlers[j]) {
      assert j < |t.settlers| ==> Reached(t, t.settlers[j]);
    }
    if t.settled {
      var k :| 0 <= k < |t.settlers| && Past(t.settlers[k].at);
      assert Past(u.settlers[k].at);
    } else {
      forall k | 0 <= k < |u.settlers| ensures !Past(u.settlers[k].at) {
        if k < |t.settlers| {
          assert u.settlers[k] == t.settlers[k];
        }
      }
    }
  }

  // ----- all receipts

  /** A step of one receipt's thread keeps the books of all. */
  lemma MovedKeeps(s: System, i: nat, u: Token, appends: bool)
    requires Invariant(s) && i < |s.tokens| && Sound(u)
    requires Bit(u.queued) + Underway(s.tokens[i]) == Bit(s.tokens[i].queued) + Underway(u) + Bit(appends)
    ensures Invariant(Moved(s, i, u, appends))
  {
    var t := Moved(s, i, u, appends);
    forall j | 0 <= j < |t.tokens| ensures Sound(t.tokens[j]) && Counted(t, j) {
      assert Sound(s.tokens[j]) && Counted(s, j);
    }
    assert s.popped + (s.ready + [i]) == s.popped + s.ready + [i];
  }

  lemma LookKeeps(s: System, expired: bool)
    requires TokensSound(s) && TokensCounted(s) && InOrder(s)
    requires s.asleep > 0 ==> |s.ready| <= s.awake + 1
    ensures Invariant(Look(s, expired))
  {
    var t := Look(s, expired);
    assert s.ready != [] ==> s.ready == [s.ready[0]] + s.ready[1..];
    assert t.popped + t.ready == s.popped + s.ready;
    forall j | 0 <= j < |t.tokens| ensures Counted(t, j) {
      assert Counted(s, j);
    }
  }

  lemma CreateKeeps(s: System, hasReceipt: bool)
    requires Invariant(s)
    ensures Invariant(Next(s, Create(hasReceipt)))
  {
    var t := Next(s, Create(hasReceipt));
    assert |s.tokens| !in s.appended;
    forall j | 0 <= j < |t.tokens| ensures Sound(t.tokens[j]) && Counted(t, j) {
      if j < |s.tokens| {
        assert Sound(s.tokens[j]) && Counted(s, j);
      }
    }
  }

  /** Whatever thread moves, and however, the books stay straight. */
  lemma StepKeepsInvariant(s: System, a: Action)
    requires Invariant(s)
    ensures Invariant(Next(s, a))
  {
    match a {
      case Create(hasReceipt) => CreateKeeps(s, hasReceipt);
      case BeginSettling(i, outcome) =>
        if i < |s.tokens| && s.tokens[i].hasReceipt {
          NewSettlerKeepsSound(s.tokens[i], outcome);
          MovedKeeps(s, i, s.tokens[i].(settlers := s.tokens[i].settlers + [Settler(outcome, WriteStatus)]), false);
        }
      case StepArmer(i) =>
        if i < |s.tokens| {
          ArmerKeepsSound(s.tokens[i]);
          MovedKeeps(s, i, ArmerMoved(s.tokens[i]), s.tokens[i].armer == ArmerAppend);
        }
      case StepSettler(i, k) =>
        if i < |s.tokens| && k < |s.tokens[i].settlers| {
          SettlerKeepsSound(s.tokens[i], k);
          SettlerCounts(s.tokens[i], k);
          MovedKeeps(s, i, SettlerMoved(s.tokens[i], k), s.tokens[i].settlers[k].at == Append);
        }
      case Poll(expired) => LookKeeps(s, expired);
      case Resume(expired) =>
        if s.awake > 0 {
          ResumeKeeps(s, expired);
        }
      case Wake =>
        WakeKeeps(s);
    }
  }

  lemma ResumeKeeps(s: System, expired: bool)
    requires Invariant(s) && s.awake > 0
    ensures Invariant(Look(s.(awake := s.awake - 1), expired))
  {
    var t := s.(awake := s.awake - 1);
    forall j | 0 <= j < |t.tokens| ensures Sound(t.tokens[j]) && Counted(t, j) {
      assert Sound(s.tokens[j]) && Counted(s, j);
    }
    LookKeeps(t, expired);
  }

  lemma WakeKeeps(s: System)
    requires Invariant(s)
    ensures Invariant(Next(s, Wake))
  {
    var t := Next(s, Wake);
    forall j | 0 <= j < |t.tokens| ensures Sound(t.tokens[j]) && Counted(t, j) {
      assert Sound(s.tokens[j]) && Counted(s, j);
    }
  }

  lemma {:induction false} EveryRunKeepsInvariant(actions: seq<Action>)
    ensures Invariant(Run(actions))
  {
    if actions != [] {
      EveryRunKeepsInvariant(actions[..|actions| - 1]);
      StepKeepsInvariant(Run(actions[..|actions| - 1]), actions[|actions| - 1]);
    }
  }

  // ----- once, and in order

  /** Nobody is still at work on the receipt. */
  predicate Quiescent(t: Token) {
    t.armer in {Quiet, ArmerDone} && forall k :: 0 <= k < |t.settlers| ==> t.settlers[k].at == Done
  }

  /** Under every interleaving no receipt is ever queued twice, and so none is popped twice. */
  lemma QueuedAtMostOnce(actions: seq<Action>, i: nat)
    ensures multiset(Run(actions).popped + Run(actions).ready)[i] <= 1
  {
    var s := Run(actions);
    EveryRunKeepsInvariant(actions);
    if i < |s.tokens| {
      assert Counted(s, i);
    } else {
      assert i !in s.appended;
    }
  }

  /**
   * Once the threads at work on a receipt are through, it was queued exactly once if it settled (or
   * there was none to wait for), and not at all otherwise.
   */
  lemma SettledIsQueuedOnce(actions: seq<Action>, i: nat)
    requires i < |Run(actions).tokens| && Quiescent(Run(actions).tokens[i])
    ensures var s := Run(actions);
            multiset(s.popped + s.ready)[i] == Bit(s.tokens[i].settled || !s.tokens[i].hasReceipt)
  {
    var s := Run(actions);
    var t := s.tokens[i];
    EveryRunKeepsInvariant(actions);
    assert Sound(t) && Counted(s, i);
    AppendingNone(t.settlers);
    if t.settled {
      var k :| 0 <= k < |t.settlers| && Past(t.settlers[k].at);
      assert Reached(t, t.settlers[k]);
    }
  }

  /** Entries leave in the order they were queued, and neither history is ever rewritten. */
  lemma PoppedInQueueOrder(actions: seq<Action>, a: Action)
    ensures Run(actions).popped <= Run(actions).appended
    ensures Run(actions).popped <= Run(actions + [a]).popped && Run(actions).appended <= Run(actions + [a]).appended
  {
    EveryRunKeepsInvariant(actions);
    assert (actions + [a])[..|actions|] == actions;
  }

  /** A consumer asleep while an entry waits means another consumer is awake and about to look. */
  lemma NoEntryIsSleptThrough(actions: seq<Action>)
    ensures Run(actions).asleep > 0 && Run(actions).ready != [] ==> Run(actions).awake > 0
  {
    EveryRunKeepsInvariant(actions);
  }

  /** A receipt is queued only after a callback for it was installed, unless there was none to wait for. */
  lemma QueuedOnlyWhenArmed(actions: seq<Action>, i: nat)
    requires i in Run(actions).popped + Run(actions).ready
    ensures i < |Run(actions).tokens|
    ensures var t := Run(actions).tokens[i]; t.hasReceipt ==> t.settled && t.deliveryInstalled
  {
    var s := Run(actions);
    EveryRunKeepsInvariant(actions);
    assert i in s.appended && multiset(s.appended)[i] > 0;
    assert Sound(s.tokens[i]) && Counted(s, i);
  }

  // ----- consumers

  /** How a step changes the number of consumers that wait: one comes in, one goes out, or neither. */
  function Joining(s: System, a: Action): int {
    match a
    case Poll(expired) => Bit(s.ready == [] && !expired)
    case Resume(expired) => if s.awake > 0 && (s.ready != [] || expired) then -1 else 0
    case _ => 0
  }

  function Joined(actions: seq<Action>): int {
    if actions == [] then 0
    else
      var front := actions[..|actions| - 1];
      Joined(front) + Joining(Run(front), actions[|actions| - 1])
  }

  /**
   * Over every run the consumers that wait are those that went to wait and have neither taken an entry nor given up:
   * waking one moves it and makes no other, and only appending or a wake-up of its own wakes one.
   */
  lemma {:induction false} ConsumersAreConserved(actions: seq<Action>)
    ensures Run(actions).asleep + Run(actions).awake == Joined(actions)
  {
    if actions != [] {
      ConsumersAreConserved(actions[..|actions| - 1]);
    }
  }

  /** Appending an entry, or a deadline, wakes one sleeping consumer, if there is one, and no more than one. */
  lemma AppendingWakesOne(actions: seq<Action>, a: Action)
    ensures var s, t := Run(actions), Run(actions + [a]);
            |t.appended| > |s.appended| || a == Wake ==> s.asleep - t.asleep == Bit(s.asleep > 0)
  {
    assert (actions + [a])[..|actions|] == actions;
  }
}
