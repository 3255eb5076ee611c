/** Keeping some of the items of a concatenation, by keeping the spans they occupy. */
module EventFilter {
  import opened Sequences
  import opened Bytes
  import opened CountedWalk
  import opened EventBatch
  import opened EventProjection

  function Filtered<R>(keep: R -> bool, rs: seq<R>): (r: seq<R>)
    ensures |r| <= |rs|
    ensures forall x :: x in r ==> x in rs
  {
    if rs == [] then []
    else if keep(rs[0]) then [rs[0]] + Filtered(keep, rs[1..])
    else Filtered(keep, rs[1..])
  }

  lemma {:induction false} FilteredShorter<R>(encode: R -> seq<Byte>, keep: R -> bool, rs: seq<R>)
    ensures |Concat(encode, Filtered(keep, rs))| <= |Concat(encode, rs)|
  {
    if rs != [] {
      FilteredShorter(encode, keep, rs[1..]);
      var rest := Filtered(keep, rs[1..]);
      assert ([rs[0]] + rest)[1..] == rest;
    }
  }

  /** Two filters in a row keep what one filter for their meet keeps. */
  lemma {:induction false} FilteredTwice<R>(keep: R -> bool, more: R -> bool, meet: R -> bool, rs: seq<R>)
    requires forall r :: r in rs ==> (meet(r) <==> keep(r) && more(r))
    ensures Filtered(more, Filtered(keep, rs)) == Filtered(meet, rs)
  {
    if rs != [] {
      FilteredTwice(keep, more, meet, rs[1..]);
      assert rs[0] in rs;
      var rest := Filtered(keep, rs[1..]);
      assert ([rs[0]] + rest)[1..] == rest;
    }
  }

  /** Filters that share the items out between them also share out the bytes. */
  lemma {:induction false} FilteredSplits<R>(encode: R -> seq<Byte>, keep: R -> bool, other: R -> bool, rs: seq<R>)
    requires forall r :: r in rs ==> (keep(r) <==> !other(r))
    ensures |Filtered(keep, rs)| + |Filtered(other, rs)| == |rs|
    ensures |Concat(encode, Filtered(keep, rs))| + |Concat(encode, Filtered(other, rs))| == |Concat(encode, rs)|
  {
    if rs != [] {
      FilteredSplits(encode, keep, other, rs[1..]);
      assert rs[0] in rs;
      var kept, rest := Filtered(keep, rs[1..]), Filtered(other, rs[1..]);
      assert ([rs[0]] + kept)[1..] == kept && ([rs[0]] + rest)[1..] == rest;
    }
  }

  /** Where the kept items lie, when the items are written from `at` on. */
  function SpansOf<R>(encode: R -> seq<Byte>, keep: R -> bool, rs: seq<R>, at: nat): seq<Span> {
    if rs == [] then []
    else
      var end := at + |encode(rs[0])|;
      var rest := SpansOf(encode, keep, rs[1..], end);
      if keep(rs[0]) then [Span(at, end)] + rest else rest
  }

  function Kept(keep: bool, start: nat, end: nat, spans: seq<Span>): seq<Span> {
    if keep then spans + [Span(start, end)] else spans
  }

  predicate KeepsAt<R>(
    encode: R -> seq<Byte>, apply: (R, nat, seq<Span>) -> Result<seq<Span>, Failure>, keep: R -> bool, r: R, at: nat,
    spans: seq<Span>)
  {
    apply(r, at, spans) == Ok(Kept(keep(r), at, at + |encode(r)|, spans))
  }

  lemma {:induction false} Collects<R>(
    encode: R -> seq<Byte>, apply: (R, nat, seq<Span>) -> Result<seq<Span>, Failure>, keep: R -> bool,
    rs: seq<R>, at: nat, spans: seq<Span>)
    requires forall i, at, spans :: 0 <= i < |rs| ==> KeepsAt(encode, apply, keep, rs[i], at, spans)
    ensures Fold(encode, apply, rs, at, spans) == Ok(spans + SpansOf(encode, keep, rs, at))
    decreases |rs|
  {
    if rs != [] {
      var end := at + |encode(rs[0])|;
      assert KeepsAt(encode, apply, keep, rs[0], at, spans);
      Collects(encode, apply, keep, rs[1..], end, Kept(keep(rs[0]), at, end, spans));
      Regroup(spans, [Span(at, end)], SpansOf(encode, keep, rs[1..], end));
    } else {
      assert spans + [] == spans;
    }
  }

  /** The spans cut out exactly the kept items. */
  lemma {:induction false} SpansCut<R>(encode: R -> seq<Byte>, keep: R -> bool, b: seq<Byte>, rs: seq<R>, at: nat)
    requires HoldsAt(b, at, Concat(encode, rs))
    ensures Pieces(b, SpansOf(encode, keep, rs, at)) == Concat(encode, Filtered(keep, rs))
    ensures |SpansOf(encode, keep, rs, at)| == |Filtered(keep, rs)|
    decreases |rs|
  {
    if rs != [] {
      var r, rest := rs[0], rs[1..];
      var end := at + |encode(r)|;
      HoldsConcat(b, at, encode(r), Concat(encode, rest));
      SpansCut(encode, keep, b, rest, end);
      if keep(r) {
        var spans, kept := SpansOf(encode, keep, rest, end), Filtered(keep, rest);
        assert ([Span(at, end)] + spans)[1..] == spans && ([r] + kept)[1..] == kept;
      }
    }
  }

  predicate Inside(span: Span, b: seq<Byte>) {
    span.start <= span.end <= |b|
  }

  /** The spans lie inside, and their checked total never fails. */
  lemma {:induction false} SpansTotal<R>(
    encode: R -> seq<Byte>, keep: R -> bool, b: seq<Byte>, rs: seq<R>, at: nat, total: nat)
    requires at + |Concat(encode, rs)| <= |b| <= MAX_SAFE_INTEGER && total <= at
    ensures var spans := SpansOf(encode, keep, rs, at);
            && TotalFrom(spans, total) == Ok(total + |Concat(encode, Filtered(keep, rs))|)
            && forall i :: 0 <= i < |spans| ==> Inside(spans[i], b)
    decreases |rs|
  {
    if rs != [] {
      var r, rest := rs[0], rs[1..];
      var end := at + |encode(r)|;
      SpansTotal(encode, keep, b, rest, end, if keep(r) then total + |encode(r)| else total);
      if keep(r) {
        var spans, kept := SpansOf(encode, keep, rest, end), Filtered(keep, rest);
        assert ([Span(at, end)] + spans)[1..] == spans && ([r] + kept)[1..] == kept;
      }
    }
  }

  /** The spans can be copied out: they lie inside, and their total is what they hold. */
  lemma SpansCopyable<R>(encode: R -> seq<Byte>, keep: R -> bool, b: seq<Byte>, rs: seq<R>, at: nat)
    requires |b| <= MAX_SAFE_INTEGER && HoldsAt(b, at, Concat(encode, rs))
    ensures var spans := SpansOf(encode, keep, rs, at);
            && (forall i :: 0 <= i < |spans| ==> Inside(spans[i], b))
            && TotalFrom(spans, at) == Ok(at + |Pieces(b, spans)|)
  {
    SpansCut(encode, keep, b, rs, at);
    SpansTotal(encode, keep, b, rs, at, at);
  }
}
