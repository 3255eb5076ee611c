/** The reseeding random stream (`prns-core/src/entropy.rs`), over an uninterpreted stream cipher and key derivation. */
module Entropy {
  import opened Sequences
  import opened Bytes

  const SEED_LEN := 32
  const INTERVAL := 0x1_0000

  /** What the outcome of the source's n-th call is: fresh bytes, or an error. */
  type Source = nat -> Option<seq<Byte>>

  /** The cipher's seeding, output and state after some output, and the key derivation. */
  datatype Library<!G> = Library(
    fromSeed: seq<Byte> -> G,
    output: (G, nat) -> seq<Byte>,
    advance: (G, nat) -> G,
    derive: (seq<Byte>, seq<Byte>) -> seq<Byte>)

  /** The cipher fills exactly the bytes it is asked for. */
  ghost predicate FillsExactly<G(!new)>(lib: Library<G>) {
    forall g, n :: |lib.output(g, n)| == n
  }

  datatype Health = Healthy | Deferred

  /** What happened so far: what the source supplied when it was called, and bytes handed out. */
  datatype Event = Attempt(entropy: Option<seq<Byte>>) | Emit(bytes: nat)

  datatype State<+G> = State(csprng: G, source: Source, calls: nat, budget: nat, health: Health, log: seq<Event>)

  function Seeded<G>(lib: Library<G>, source: Source): Option<State<G>> {
    match source(0)
    case None => None
    case Some(seed) => Some(State(lib.fromSeed(seed), source, 1, INTERVAL, Healthy, [Attempt(Some(seed))]))
  }

  predicate Reseeds<G>(s: State<G>) {
    s.source(s.calls).Some?
  }

  /** `try_reseed`. */
  function Reseeded<G>(lib: Library<G>, s: State<G>): State<G> {
    match s.source(s.calls)
    case None => s.(calls := s.calls + 1, health := Deferred, log := s.log + [Attempt(None)])
    case Some(entropy) =>
      State(lib.fromSeed(lib.derive(entropy, lib.output(s.csprng, SEED_LEN))), s.source, s.calls + 1, INTERVAL, Healthy,
            s.log + [Attempt(Some(entropy))])
  }

  /** Before a chunk: an attempt when the budget is spent, and a new window even if it fails. */
  function Refreshed<G>(lib: Library<G>, s: State<G>): (t: State<G>)
    ensures t.budget > 0
  {
    if s.budget > 0 then s else Reseeded(lib, s).(budget := INTERVAL)
  }

  function Least(x: nat, y: nat): nat {
    if x < y then x else y
  }

  function Emitted<G>(lib: Library<G>, s: State<G>, n: nat): State<G>
    requires n <= s.budget
  {
    s.(csprng := lib.advance(s.csprng, n), budget := s.budget - n, log := s.log + [Emit(n)])
  }

  /** `fill_random`: the state after `n` bytes, and the bytes. */
  function Filled<G>(lib: Library<G>, s: State<G>, n: nat): (State<G>, seq<Byte>)
    decreases n
  {
    if n == 0 then (s, [])
    else
      var t := Refreshed(lib, s);
      var chunk := Least(n, t.budget);
      var (u, rest) := Filled(lib, Emitted(lib, t, chunk), n - chunk);
      (u, lib.output(t.csprng, chunk) + rest)
  }

  /** `with_source`: the stream moves on unchanged, with a new source. */
  function WithSource<G>(s: State<G>, source: Source): State<G> {
    s.(source := source, calls := 0)
  }

  // ----- the stream as the source keeps it

  class RuntimeEntropy<!G(!new)> {
    const lib: Library<G>
    var csprng: G
    var source: Source
    var calls: nat
    var budget: nat
    var health: Health
    ghost var log: seq<Event>

    ghost function Contents(): State<G>
      reads this
    {
      State(csprng, source, calls, budget, health, log)
    }

    /** `try_new`, given a seed the source has supplied. */
    constructor (lib: Library<G>, source: Source, seed: seq<Byte>)
      requires source(0) == Some(seed)
      ensures this.lib == lib && Seeded(lib, source) == Some(Contents())
    {
      this.lib, this.source := lib, source;
      csprng, calls, budget, health, log := lib.fromSeed(seed), 1, INTERVAL, Healthy, [Attempt(Some(seed))];
    }

    method TryReseed() returns (ok: bool)
      modifies this
      ensures ok == Reseeds(old(Contents())) && Contents() == Reseeded(lib, old(Contents()))
    {
      var entropy := source(calls);
      calls := calls + 1;
      log := log + [Attempt(entropy)];
      if entropy.None? {
        health := Deferred;
        return false;
      }
      var continuity := lib.output(csprng, SEED_LEN);
      csprng := lib.advance(csprng, SEED_LEN);
      csprng := lib.fromSeed(lib.derive(entropy.value, continuity));
      budget := INTERVAL;
      health := Healthy;
      return true;
    }

    /** An attempt if the budget is spent; failing it opens another window all the same. */
    method Refresh()
      modifies this
      ensures Contents() == Refreshed(lib, old(Contents()))
    {
      if budget == 0 {
        var ok := TryReseed();
        if !ok {
          budget := INTERVAL;
        }
      }
    }

    /** One chunk at `filledLen`, after an attempt if the budget is spent. */
    method FillChunk(output: array<Byte>, filledLen: nat) returns (chunkEnd: nat)
      requires filledLen < output.Length && FillsExactly(lib)
      modifies this, output
      ensures var t := Refreshed(lib, old(Contents()));
              var chunk := Least(output.Length - filledLen, t.budget);
              && chunkEnd == filledLen + chunk
              && Contents() == Emitted(lib, t, chunk)
              && output[..] == old(output[..filledLen]) + lib.output(t.csprng, chunk) + old(output[chunkEnd..])
    {
      Refresh();
      var chunkLen := Least(output.Length - filledLen, budget);
      chunkEnd := filledLen + chunkLen;
      var bytes := lib.output(csprng, chunkLen);
      forall k | 0 <= k < chunkLen {
        output[filledLen + k] := bytes[k];
      }
      csprng := lib.advance(csprng, chunkLen);
      budget := budget - chunkLen;
      log := log + [Emit(chunkLen)];
    }

    method FillRandom(output: array<Byte>)
      requires FillsExactly(lib)
      modifies this, output
      ensures (Contents(), output[..]) == Filled(lib, old(Contents()), output.Length)
    {
      ghost var was := Contents();
      var filledLen := 0;
      while filledLen < output.Length
        invariant filledLen <= output.Length
        invariant var (t, bytes) := Filled(lib, was, output.Length);
                  var (u, rest) := Filled(lib, Contents(), output.Length - filledLen);
                  t == u && bytes == output[..filledLen] + rest
        decreases output.Length - filledLen
      {
        ghost var done, before := output[..filledLen], Contents();
        filledLen := FillChunk(output, filledLen);
        ghost var t := Refreshed(lib, before);
        ghost var chunk := lib.output(t.csprng, Least(output.Length - |done|, t.budget));
        assert output[..filledLen] == done + chunk;
        Regroup(done, chunk, Filled(lib, Contents(), output.Length - filledLen).1);
      }
      assert output[..filledLen] + [] == output[..];
    }
  }

  /** `try_new`: only a source that supplies the first seed makes a stream. */
  method TryNew<G(!new)>(lib: Library<G>, source: Source) returns (r: Option<RuntimeEntropy<G>>)
    ensures match Seeded(lib, source)
            case None => r.None?
            case Some(s) => r.Some? && fresh(r.value) && r.value.lib == lib && r.value.Contents() == s
  {
    var seed := source(0);
    if seed.None? {
      return None;
    }
    var stream := new RuntimeEntropy(lib, source, seed.value);
    return Some(stream);
  }
}
