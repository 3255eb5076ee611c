/** What decoding, summarizing and filtering have to do with each other, for every batch. */
module EventLaws {
  import opened Sequences
  import opened Bytes
  import opened EventBatch
  import opened EventEncoding
  import opened EventProjection
  import opened EventFilter

  function OfKinds(kinds: set<int>): WireRecord -> bool {
    (r: WireRecord) => r.kind in kinds
  }

  predicate AllRead(rs: seq<Record>) {
    forall i :: 0 <= i < |rs| ==> rs[i].Read?
  }

  lemma FilteredRead(rs: seq<WireRecord>, keep: WireRecord -> bool)
    requires AllRead(rs)
    ensures AllRead(Filtered(keep, rs))
  {
    var kept := Filtered(keep, rs);
    forall i | 0 <= i < |kept| ensures kept[i].Read? {
      assert kept[i] in kept;
    }
  }

  // ----- filtering

  lemma {:induction false} KeeperIgnoresFields(
    kinds: set<int>, kind: int, fs: seq<WireField>, at: nat, spans: seq<Span>)
    ensures FoldFields(Keeper(kinds), kind, fs, at, spans) == Ok(spans)
    decreases |fs|
  {
    if fs != [] {
      KeeperIgnoresFields(kinds, kind, fs[1..], at + |EncodeField(fs[0])|, spans);
    }
  }

  lemma KeeperKeeps(kinds: set<int>, r: WireRecord, at: nat, spans: seq<Span>)
    requires r.Read?
    ensures KeepsAt(EncodeRecord, ApplyRecord(Keeper(kinds)), OfKinds(kinds), r, at, spans)
  {
    KeeperIgnoresFields(kinds, r.kind, r.fields, at + RECORD_HEADER_BYTES, spans);
  }

  lemma KeeperCollects(kinds: set<int>, rs: seq<WireRecord>, at: nat)
    requires AllRead(rs)
    ensures FoldRecords(Keeper(kinds), rs, at, []) == Ok(SpansOf(EncodeRecord, OfKinds(kinds), rs, at))
  {
    var apply, keep := ApplyRecord(Keeper(kinds)), OfKinds(kinds);
    forall i, at: nat, spans | 0 <= i < |rs| ensures KeepsAt(EncodeRecord, apply, keep, rs[i], at, spans) {
      KeeperKeeps(kinds, rs[i], at, spans);
    }
    Collects(EncodeRecord, apply, keep, rs, at, []);
    var spans := SpansOf(EncodeRecord, keep, rs, at);
    assert [] + spans == spans;
  }

  lemma CountReplaced(rs: seq<WireRecord>, count: nat)
    requires |rs| < U32_LIMIT && count < U32_LIMIT
    ensures EncodeBatch(rs)[..COUNT_OFFSET] + Le32(count) == EncodeHeader(count)
  {
    var fixed := Le32(MAGIC) + Le16(FORMAT_VERSION) + Le16(0) + Le32(SCHEMA_VERSION);
    assert EncodeBatch(rs) == fixed + (Le32(|rs|) + EncodeRecords(rs));
    assert (fixed + (Le32(|rs|) + EncodeRecords(rs)))[..COUNT_OFFSET] == fixed;
  }

  lemma SpansOfBatch(rs: seq<WireRecord>, kinds: set<int>)
    requires |rs| < U32_LIMIT && AllRead(rs) && |EncodeBatch(rs)| <= MAX_SAFE_INTEGER
    ensures Visit(EncodeBatch(rs), None, Keeper(kinds), [])
         == Ok(SpansOf(EncodeRecord, OfKinds(kinds), rs, HEADER_BYTES))
    ensures HoldsAt(EncodeBatch(rs), HEADER_BYTES, EncodeRecords(rs))
  {
    var b := EncodeBatch(rs);
    VisitEncoded(rs, None, Keeper(kinds), []);
    KeeperCollects(kinds, rs, HEADER_BYTES);
    assert HoldsAt(b, 0, b);
    HoldsConcat(b, 0, EncodeHeader(|rs|), EncodeRecords(rs));
  }

  lemma RebuildEncoded(rs: seq<WireRecord>, keep: WireRecord -> bool)
    requires |rs| < U32_LIMIT && |EncodeBatch(rs)| <= MAX_SAFE_INTEGER
    requires HoldsAt(EncodeBatch(rs), HEADER_BYTES, EncodeRecords(rs))
    ensures Rebuild(EncodeBatch(rs), SpansOf(EncodeRecord, keep, rs, HEADER_BYTES))
         == Ok(EncodeBatch(Filtered(keep, rs)))
  {
    var b := EncodeBatch(rs);
    SpansCut(EncodeRecord, keep, b, rs, HEADER_BYTES);
    SpansTotal(EncodeRecord, keep, b, rs, HEADER_BYTES, HEADER_BYTES);
    CountReplaced(rs, |Filtered(keep, rs)|);
    var kept := Filtered(keep, rs);
    Rebuilt(b, SpansOf(EncodeRecord, keep, rs, HEADER_BYTES), EncodeHeader(|kept|), EncodeRecords(kept));
  }

  lemma Rebuilt(b: seq<Byte>, spans: seq<Span>, header: seq<Byte>, records: seq<Byte>)
    requires HEADER_BYTES <= |b| && TotalFrom(spans, HEADER_BYTES).Ok? && |spans| < U32_LIMIT
    requires b[..COUNT_OFFSET] + Le32(|spans|) == header && Pieces(b, spans) == records
    ensures Rebuild(b, spans) == Ok(header + records)
  {
  }

  /** Filtering an encoded batch encodes the filtered records. */
  lemma RetainEncoded(rs: seq<WireRecord>, kinds: set<int>)
    requires |rs| < U32_LIMIT && AllRead(rs) && |EncodeBatch(rs)| <= MAX_SAFE_INTEGER
    ensures Retain(EncodeBatch(rs), kinds) == Ok(EncodeBatch(Filtered(OfKinds(kinds), rs)))
  {
    SpansOfBatch(rs, kinds);
    RebuildEncoded(rs, OfKinds(kinds));
  }

  /** Filtering succeeds exactly on encoded batches. */
  lemma RetainedIsEncoded(b: seq<Byte>, kinds: set<int>) returns (rs: seq<WireRecord>)
    requires |b| <= MAX_SAFE_INTEGER && Retain(b, kinds).Ok?
    ensures |rs| < U32_LIMIT && AllRead(rs) && b == EncodeBatch(rs)
    ensures Retain(b, kinds) == Ok(EncodeBatch(Filtered(OfKinds(kinds), rs)))
  {
    rs := VisitedIsEncoded(b, None, Keeper(kinds), []);
    EncodedIsRead(rs);
    RetainEncoded(rs, kinds);
  }

  lemma EncodedIsRead(rs: seq<WireRecord>)
    requires AllChosen(None, rs)
    ensures AllRead(rs)
  {
    forall i | 0 <= i < |rs| ensures rs[i].Read? {
      assert Chosen(None, rs[i]);
    }
  }

  /** Filtering twice keeps the common kinds; in particular filtering again changes nothing. */
  lemma RetainComposes(b: seq<Byte>, kinds: set<int>, more: set<int>)
    requires |b| <= MAX_SAFE_INTEGER && Retain(b, kinds).Ok?
    ensures Retain(Retain(b, kinds).value, more) == Retain(b, kinds * more)
    ensures Retain(Retain(b, kinds).value, kinds) == Retain(b, kinds)
  {
    var rs := RetainedIsEncoded(b, kinds);
    RetainTwice(rs, kinds, more);
    RetainTwice(rs, kinds, kinds);
    assert kinds * kinds == kinds;
  }

  lemma RetainTwice(rs: seq<WireRecord>, kinds: set<int>, more: set<int>)
    requires |rs| < U32_LIMIT && AllRead(rs) && |EncodeBatch(rs)| <= MAX_SAFE_INTEGER
    ensures Retain(EncodeBatch(Filtered(OfKinds(kinds), rs)), more) == Retain(EncodeBatch(rs), kinds * more)
  {
    var kept := Filtered(OfKinds(kinds), rs);
    FilteredRead(rs, OfKinds(kinds));
    FilteredShorter(EncodeRecord, OfKinds(kinds), rs);
    RetainEncoded(kept, more);
    RetainEncoded(rs, kinds * more);
    FilteredTwice(OfKinds(kinds), OfKinds(more), OfKinds(kinds * more), rs);
  }

  // ----- the filter as the source runs it

  lemma KeptSpansOf(b: seq<Byte>, kinds: set<int>, rs: seq<WireRecord>)
    requires |rs| < U32_LIMIT && AllRead(rs) && b == EncodeBatch(rs) && |b| <= MAX_SAFE_INTEGER
    ensures var spans := SpansOf(EncodeRecord, OfKinds(kinds), rs, HEADER_BYTES);
            && (forall i :: 0 <= i < |spans| ==> Inside(spans[i], b))
            && TotalFrom(spans, HEADER_BYTES) == Ok(HEADER_BYTES + |Pieces(b, spans)|)
  {
    SpansCopyable(EncodeRecord, OfKinds(kinds), b, rs, HEADER_BYTES);
  }

  /** The spans a successful walk keeps can be copied out. */
  lemma KeptSpans(b: seq<Byte>, kinds: set<int>, spans: seq<Span>)
    requires |b| <= MAX_SAFE_INTEGER && Visit(b, None, Keeper(kinds), []) == Ok(spans)
    ensures HEADER_BYTES <= |b| && forall i :: 0 <= i < |spans| ==> Inside(spans[i], b)
    ensures TotalFrom(spans, HEADER_BYTES) == Ok(HEADER_BYTES + |Pieces(b, spans)|)
  {
    var rs := VisitedIsEncoded(b, None, Keeper(kinds), []);
    EncodedIsRead(rs);
    SpansOfBatch(rs, kinds);
    KeptSpansOf(b, kinds, rs);
  }

  method TotalBytes(spans: seq<Span>) returns (r: Result<int, Failure>)
    ensures r == TotalFrom(spans, HEADER_BYTES)
  {
    var total := HEADER_BYTES;
    for i := 0 to |spans|
      invariant TotalFrom(spans, HEADER_BYTES) == TotalFrom(spans[i..], total)
    {
      assert spans[i..][1..] == spans[i + 1..];
      var sum := CheckedTotal(total, spans[i].end - spans[i].start, spans[i].start);
      if sum.Err? {
        return Err(sum.error);
      }
      total := sum.value;
    }
    return Ok(total);
  }

  method RetainBatch(b: seq<Byte>, kinds: set<int>) returns (r: Result<seq<Byte>, Failure>)
    requires |b| <= MAX_SAFE_INTEGER
    ensures r == Retain(b, kinds)
  {
    var visited := VisitBatch(b, None, Keeper(kinds), []);
    if visited.Err? {
      return Err(visited.error);
    }
    var spans := visited.value;
    KeptSpans(b, kinds, spans);
    var byteLength := TotalBytes(spans);
    var retained := CopySpans(b, spans, byteLength.value);
    return Ok(retained);
  }

  /** Copies the header, overwrites the count, then copies the spans one after another. */
  method CopySpans(b: seq<Byte>, spans: seq<Span>, byteLength: nat) returns (bytes: seq<Byte>)
    requires HEADER_BYTES <= |b| && byteLength == HEADER_BYTES + |Pieces(b, spans)|
    ensures bytes == b[..COUNT_OFFSET] + Le32(ToUint32(|spans|)) + Pieces(b, spans)
  {
    var retained := new Byte[byteLength](_ => 0);
    SetBytes(retained, 0, b[..HEADER_BYTES]);
    SetBytes(retained, COUNT_OFFSET, Le32(ToUint32(|spans|)));
    ghost var header := b[..COUNT_OFFSET] + Le32(ToUint32(|spans|));
    assert retained[..HEADER_BYTES] == header;
    var offset := HEADER_BYTES;
    for i := 0 to |spans|
      invariant HEADER_BYTES <= offset <= retained.Length == byteLength
      invariant retained[..offset] + Pieces(b, spans[i..]) == header + Pieces(b, spans)
    {
      var encoded := Subarray(b, spans[i]);
      assert spans[i..][1..] == spans[i + 1..];
      ghost var done, rest := retained[..offset], Pieces(b, spans[i + 1..]);
      Regroup(done, encoded, rest);
      assert |done + encoded + rest| == byteLength;
      SetBytes(retained, offset, encoded);
      offset := offset + |encoded|;
      assert retained[..offset] == done + encoded;
    }
    assert retained[..] == retained[..offset] + [];
    return retained[..];
  }
}
