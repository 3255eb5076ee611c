/** Reading items that lie one after another: a counted walk matches a concatenation of encodings. */
module CountedWalk {
  import opened Bytes

  /** The state after the item at an offset, and where the next item starts. */
  type Reader<!S, E> = (nat, S) -> Result<(S, nat), E>

  function Walk<S, E>(next: Reader<S, E>, offset: nat, left: nat, s: S): Result<(S, nat), E>
    decreases left
  {
    if left == 0 then Ok((s, offset))
    else
      match next(offset, s)
      case Err(e) => Err(e)
      case Ok((t, end)) => Walk(next, end, left - 1, t)
  }

  function Concat<R>(encode: R -> seq<Byte>, rs: seq<R>): seq<Byte> {
    if rs == [] then [] else encode(rs[0]) + Concat(encode, rs[1..])
  }

  /** What each item does to the state, told the offset its encoding starts at. */
  function Fold<R, S, E>(
    encode: R -> seq<Byte>, apply: (R, nat, S) -> Result<S, E>, rs: seq<R>, at: nat, s: S): Result<S, E>
  {
    if rs == [] then Ok(s)
    else
      match apply(rs[0], at, s)
      case Err(e) => Err(e)
      case Ok(t) => Fold(encode, apply, rs[1..], at + |encode(rs[0])|, t)
  }

  // ----- written items are read

  /** Where the item is written, the reader reads it and does what the item does. */
  ghost predicate ReadsAt<R, S, E>(
    next: Reader<S, E>, encode: R -> seq<Byte>, apply: (R, nat, S) -> Result<S, E>, b: seq<Byte>, r: R, at: nat, s: S)
  {
    HoldsAt(b, at, encode(r)) ==>
      next(at, s) == match apply(r, at, s)
                     case Err(e) => Err(e)
                     case Ok(t) => Ok((t, at + |encode(r)|))
  }

  ghost predicate Reads<R, S(!new), E>(
    next: Reader<S, E>, encode: R -> seq<Byte>, apply: (R, nat, S) -> Result<S, E>, b: seq<Byte>, rs: seq<R>)
  {
    forall i, at, s :: 0 <= i < |rs| ==> ReadsAt(next, encode, apply, b, rs[i], at, s)
  }

  lemma {:induction false} WalkWritten<R, S(!new), E>(
    next: Reader<S, E>, encode: R -> seq<Byte>, apply: (R, nat, S) -> Result<S, E>,
    b: seq<Byte>, rs: seq<R>, at: nat, s: S)
    requires Reads(next, encode, apply, b, rs) && HoldsAt(b, at, Concat(encode, rs))
    ensures Walk(next, at, |rs|, s) ==
            match Fold(encode, apply, rs, at, s)
            case Err(e) => Err(e)
            case Ok(t) => Ok((t, at + |Concat(encode, rs)|))
    decreases |rs|
  {
    if rs != [] {
      HoldsConcat(b, at, encode(rs[0]), Concat(encode, rs[1..]));
      assert ReadsAt(next, encode, apply, b, rs[0], at, s);
      var applied := apply(rs[0], at, s);
      if applied.Ok? {
        WalkWritten(next, encode, apply, b, rs[1..], at + |encode(rs[0])|, applied.value);
      }
    }
  }

  // ----- read items were written

  ghost predicate Explains<R(!new), S, E>(
    next: Reader<S, E>, encode: R -> seq<Byte>, apply: (R, nat, S) -> Result<S, E>, ok: R -> bool,
    b: seq<Byte>, at: nat, s: S, r: R)
  {
    && ok(r)
    && HoldsAt(b, at, encode(r))
    && apply(r, at, s).Ok?
    && next(at, s) == Ok((apply(r, at, s).value, at + |encode(r)|))
  }

  ghost predicate ExplainedAt<R(!new), S, E>(
    next: Reader<S, E>, encode: R -> seq<Byte>, apply: (R, nat, S) -> Result<S, E>, ok: R -> bool,
    b: seq<Byte>, at: nat, s: S)
  {
    next(at, s).Ok? ==> exists r :: Explains(next, encode, apply, ok, b, at, s, r)
  }

  /** Whatever the reader reads was written there, by an item of the right sort. */
  ghost predicate Explained<R(!new), S(!new), E>(
    next: Reader<S, E>, encode: R -> seq<Byte>, apply: (R, nat, S) -> Result<S, E>, ok: R -> bool, b: seq<Byte>)
  {
    forall at, s :: ExplainedAt(next, encode, apply, ok, b, at, s)
  }

  lemma {:induction false} WalkedIsWritten<R(!new), S(!new), E>(
    next: Reader<S, E>, encode: R -> seq<Byte>, apply: (R, nat, S) -> Result<S, E>, ok: R -> bool,
    b: seq<Byte>, at: nat, left: nat, s: S) returns (rs: seq<R>)
    requires at <= |b| && Explained(next, encode, apply, ok, b) && Walk(next, at, left, s).Ok?
    ensures |rs| == left && (forall i :: 0 <= i < |rs| ==> ok(rs[i])) && HoldsAt(b, at, Concat(encode, rs))
    ensures Walk(next, at, left, s).value.1 == at + |Concat(encode, rs)|
    ensures Fold(encode, apply, rs, at, s) == Ok(Walk(next, at, left, s).value.0)
    decreases left
  {
    rs := [];
    if left > 0 {
      assert ExplainedAt(next, encode, apply, ok, b, at, s);
      var r :| Explains(next, encode, apply, ok, b, at, s, r);
      var rest := WalkedIsWritten(next, encode, apply, ok, b, at + |encode(r)|, left - 1, apply(r, at, s).value);
      HoldsConcat(b, at, encode(r), Concat(encode, rest));
      rs := [r] + rest;
      assert rs[1..] == rest;
    }
  }
}
