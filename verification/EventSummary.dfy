/** The summary counts what the two filters keep. */
module EventSummary {
  import opened Bytes
  import opened CountedWalk
  import opened EventBatch
  import opened EventEncoding
  import opened EventProjection
  import opened EventFilter
  import opened EventLaws

  const NOTHING := Summary(0, 0, 0)

  function Add(s: Summary, t: Summary): Summary {
    Summary(s.applicationEvents + t.applicationEvents, s.diagnostics + t.diagnostics,
            s.retainedEventBytes + t.retainedEventBytes)
  }

  function Sum<R>(weigh: R -> Summary, rs: seq<R>): Summary {
    if rs == [] then NOTHING else Add(weigh(rs[0]), Sum(weigh, rs[1..]))
  }

  // ----- walks that add up

  /** An item of a known kind adds its weight, as long as the total fits below its offset. */
  predicate WeighsAt<R>(
    encode: R -> seq<Byte>, apply: (R, nat, Summary) -> Result<Summary, Failure>, weigh: R -> Summary, known: R -> bool,
    r: R, at: nat, s: Summary)
  {
    s.retainedEventBytes <= at && at + |encode(r)| <= MAX_SAFE_INTEGER ==>
      && weigh(r).retainedEventBytes <= |encode(r)|
      && apply(r, at, s) == if known(r) then Ok(Add(s, weigh(r))) else Err(Failure(InvalidKind, at + 4))
  }

  /** How many items of a known kind come first. */
  function FirstUnknown<R>(known: R -> bool, rs: seq<R>): (k: nat)
    ensures k <= |rs| && (forall i :: 0 <= i < k ==> known(rs[i])) && (k < |rs| ==> !known(rs[k]))
  {
    if rs == [] || !known(rs[0]) then 0 else 1 + FirstUnknown(known, rs[1..])
  }

  lemma {:induction false} FoldWeighs<R>(
    encode: R -> seq<Byte>, apply: (R, nat, Summary) -> Result<Summary, Failure>, weigh: R -> Summary, known: R -> bool,
    rs: seq<R>, at: nat, s: Summary)
    requires forall i, at, s :: 0 <= i < |rs| ==> WeighsAt(encode, apply, weigh, known, rs[i], at, s)
    requires s.retainedEventBytes <= at && at + |Concat(encode, rs)| <= MAX_SAFE_INTEGER
    ensures var r := Fold(encode, apply, rs, at, s);
            var k := FirstUnknown(known, rs);
            r == if k == |rs| then Ok(Add(s, Sum(weigh, rs)))
                 else Err(Failure(InvalidKind, at + |Concat(encode, rs[..k])| + 4))
    decreases |rs|
  {
    if rs != [] {
      var k := FirstUnknown(known, rs);
      assert k > 0 ==> rs[..k][0] == rs[0] && rs[..k][1..] == rs[1..][..k - 1];
      assert WeighsAt(encode, apply, weigh, known, rs[0], at, s);
      if known(rs[0]) {
        FoldWeighs(encode, apply, weigh, known, rs[1..], at + |encode(rs[0])|, Add(s, weigh(rs[0])));
      }
    }
  }

  // ----- the summary of encoded records

  /**
   * The fields an application keeps, by kind: the plaintext of a delivery, the data of requests, responses and
   * channel messages, data and metadata of resources, and the stream of one that is still compressed.
   */
  const RETAINED: set<(int, int)> :=
    {(100, 3), (108, 3), (101, 9), (102, 9), (103, 9), (107, 9), (104, 9), (104, 14), (105, 9), (105, 14), (106, 31)}

  lemma RetainedAre(kind: int, field: int)
    ensures RetainsField(kind, field) <==> (kind, field) in RETAINED
  {
  }

  /** The bytes of the fields an application event keeps. */
  function RetainedLength(kind: int, fs: seq<WireField>): nat {
    if fs == [] then 0
    else (if (kind, fs[0].id) in RETAINED then |fs[0].value| else 0) + RetainedLength(kind, fs[1..])
  }

  predicate IsApplication(kind: int) {
    100 <= kind <= 108
  }

  predicate IsDiagnostic(kind: int) {
    200 <= kind <= 219
  }

  function Weight(r: WireRecord): Summary {
    Summary(if IsApplication(r.kind) then 1 else 0,
            if IsDiagnostic(r.kind) then 1 else 0,
            if r.Read? then RetainedLength(r.kind, r.fields) else 0)
  }

  predicate Known(r: WireRecord) {
    IsApplication(r.kind) || IsDiagnostic(r.kind)
  }

  predicate AllKnown(rs: seq<WireRecord>) {
    forall i :: 0 <= i < |rs| ==> Known(rs[i])
  }

  lemma {:induction false} FieldsWeigh(kind: int, fs: seq<WireField>, at: nat, s: Summary)
    requires s.retainedEventBytes <= at && at + |EncodeFields(fs)| <= MAX_SAFE_INTEGER
    ensures FoldFields(Summarizer(), kind, fs, at, s)
         == Ok(s.(retainedEventBytes := s.retainedEventBytes + RetainedLength(kind, fs)))
    ensures RetainedLength(kind, fs) <= |EncodeFields(fs)|
    decreases |fs|
  {
    if fs != [] {
      var added := if (kind, fs[0].id) in RETAINED then |fs[0].value| else 0;
      RetainedAre(kind, fs[0].id);
      FieldsWeigh(kind, fs[1..], at + |EncodeField(fs[0])|, s.(retainedEventBytes := s.retainedEventBytes + added));
    }
  }

  lemma RecordWeighs(r: WireRecord, at: nat, s: Summary)
    requires r.Read?
    ensures WeighsAt(EncodeRecord, ApplyRecord(Summarizer()), Weight, Known, r, at, s)
  {
    var entered := CountKind(r.kind, at, s);
    if entered.Ok? && s.retainedEventBytes <= at && at + |EncodeRecord(r)| <= MAX_SAFE_INTEGER {
      FieldsWeigh(r.kind, r.fields, at + RECORD_HEADER_BYTES, entered.value);
    }
    if at + |EncodeRecord(r)| <= MAX_SAFE_INTEGER {
      FieldsWeigh(r.kind, r.fields, at + RECORD_HEADER_BYTES, NOTHING);
    }
  }

  /** The summary never overflows: it succeeds exactly when every kind is known, and tells where the first is not. */
  lemma SummarizeEncoded(rs: seq<WireRecord>)
    requires |rs| < U32_LIMIT && AllRead(rs) && |EncodeBatch(rs)| <= MAX_SAFE_INTEGER
    ensures var k := FirstUnknown(Known, rs);
            Summarize(EncodeBatch(rs)) == if k == |rs| then Ok(Sum(Weight, rs))
                                          else Err(Failure(InvalidKind, 16 + |EncodeRecords(rs[..k])| + 4))
  {
    VisitEncoded(rs, None, Summarizer(), NOTHING);
    RecordsWeigh(rs, HEADER_BYTES);
  }

  lemma RecordsWeigh(rs: seq<WireRecord>, at: nat)
    requires AllRead(rs) && at + |EncodeRecords(rs)| <= MAX_SAFE_INTEGER
    ensures var r := FoldRecords(Summarizer(), rs, at, NOTHING);
            var k := FirstUnknown(Known, rs);
            r == if k == |rs| then Ok(Sum(Weight, rs))
                 else Err(Failure(InvalidKind, at + |EncodeRecords(rs[..k])| + 4))
  {
    var apply := ApplyRecord(Summarizer());
    forall i, at: nat, s | 0 <= i < |rs| ensures WeighsAt(EncodeRecord, apply, Weight, Known, rs[i], at, s) {
      RecordWeighs(rs[i], at, s);
    }
    FoldFromNothing(apply, rs, at);
  }

  lemma FoldFromNothing(apply: (WireRecord, nat, Summary) -> Result<Summary, Failure>, rs: seq<WireRecord>, at: nat)
    requires forall i, at, s :: 0 <= i < |rs| ==> WeighsAt(EncodeRecord, apply, Weight, Known, rs[i], at, s)
    requires at + |EncodeRecords(rs)| <= MAX_SAFE_INTEGER
    ensures var k := FirstUnknown(Known, rs);
            Fold(EncodeRecord, apply, rs, at, NOTHING)
            == if k == |rs| then Ok(Sum(Weight, rs)) else Err(Failure(InvalidKind, at + |EncodeRecords(rs[..k])| + 4))
  {
    FoldWeighs(EncodeRecord, apply, Weight, Known, rs, at, NOTHING);
    assert Add(NOTHING, Sum(Weight, rs)) == Sum(Weight, rs);
  }

  lemma SummarizedIsEncoded(b: seq<Byte>) returns (rs: seq<WireRecord>)
    requires |b| <= MAX_SAFE_INTEGER && Summarize(b).Ok?
    ensures |rs| < U32_LIMIT && AllRead(rs) && b == EncodeBatch(rs) && AllKnown(rs)
    ensures Summarize(b) == Ok(Sum(Weight, rs))
  {
    rs := VisitedIsEncoded(b, None, Summarizer(), NOTHING);
    EncodedIsRead(rs);
    SummarizeEncoded(rs);
  }

  // ----- the summary and the filters

  /** An item is of exactly one of two kinds, and only the first kind retains anything. */
  ghost predicate CountsAt<R>(weigh: R -> Summary, first: R -> bool, second: R -> bool, r: R) {
    && (first(r) <==> !second(r))
    && weigh(r).applicationEvents == (if first(r) then 1 else 0)
    && weigh(r).diagnostics == (if second(r) then 1 else 0)
    && (second(r) ==> weigh(r).retainedEventBytes == 0)
  }

  lemma SumCons<R>(weigh: R -> Summary, r: R, rs: seq<R>)
    ensures Sum(weigh, [r] + rs) == Add(weigh(r), Sum(weigh, rs))
  {
    assert ([r] + rs)[1..] == rs;
  }

  lemma {:induction false} SumFirsts<R>(weigh: R -> Summary, first: R -> bool, second: R -> bool, rs: seq<R>)
    requires forall i :: 0 <= i < |rs| ==> CountsAt(weigh, first, second, rs[i])
    ensures |Filtered(first, rs)| == Sum(weigh, rs).applicationEvents
    ensures Sum(weigh, Filtered(first, rs)) == Sum(weigh, rs).(diagnostics := 0)
    decreases |rs|
  {
    if rs != [] {
      assert CountsAt(weigh, first, second, rs[0]);
      SumFirsts(weigh, first, second, rs[1..]);
      SumCons(weigh, rs[0], Filtered(first, rs[1..]));
    }
  }

  lemma {:induction false} SumSeconds<R>(weigh: R -> Summary, first: R -> bool, second: R -> bool, rs: seq<R>)
    requires forall i :: 0 <= i < |rs| ==> CountsAt(weigh, first, second, rs[i])
    ensures |Filtered(second, rs)| == Sum(weigh, rs).diagnostics
    ensures Sum(weigh, Filtered(second, rs)) == Summary(0, Sum(weigh, rs).diagnostics, 0)
    decreases |rs|
  {
    if rs != [] {
      assert CountsAt(weigh, first, second, rs[0]);
      SumSeconds(weigh, first, second, rs[1..]);
      SumCons(weigh, rs[0], Filtered(second, rs[1..]));
    }
  }

  lemma SumCounts(rs: seq<WireRecord>)
    requires AllKnown(rs)
    ensures |Filtered(OfKinds(APPLICATION_KINDS), rs)| == Sum(Weight, rs).applicationEvents
    ensures |Filtered(OfKinds(DIAGNOSTIC_KINDS), rs)| == Sum(Weight, rs).diagnostics
    ensures Sum(Weight, Filtered(OfKinds(APPLICATION_KINDS), rs)) == Sum(Weight, rs).(diagnostics := 0)
    ensures Sum(Weight, Filtered(OfKinds(DIAGNOSTIC_KINDS), rs)) == Summary(0, Sum(Weight, rs).diagnostics, 0)
  {
    forall i | 0 <= i < |rs|
      ensures CountsAt(Weight, OfKinds(APPLICATION_KINDS), OfKinds(DIAGNOSTIC_KINDS), rs[i])
    {
      assert Known(rs[i]);
      DiagnosticsRetainNothing(rs[i]);
    }
    SumFirsts(Weight, OfKinds(APPLICATION_KINDS), OfKinds(DIAGNOSTIC_KINDS), rs);
    SumSeconds(Weight, OfKinds(APPLICATION_KINDS), OfKinds(DIAGNOSTIC_KINDS), rs);
  }

  lemma DiagnosticsRetainNothing(r: WireRecord)
    ensures r.kind in DIAGNOSTIC_KINDS ==> Weight(r).retainedEventBytes == 0
  {
    if r.kind in DIAGNOSTIC_KINDS && r.Read? {
      NothingRetained(r.kind, r.fields);
    }
  }

  lemma {:induction false} NothingRetained(kind: int, fs: seq<WireField>)
    requires kind in DIAGNOSTIC_KINDS
    ensures RetainedLength(kind, fs) == 0
  {
    if fs != [] {
      NothingRetained(kind, fs[1..]);
    }
  }

  /** Both halves of a batch, encoded, with what each summarizes to. */
  lemma HalfSummarized(rs: seq<WireRecord>, kinds: set<int>)
    requires |rs| < U32_LIMIT && AllRead(rs) && AllKnown(rs) && |EncodeBatch(rs)| <= MAX_SAFE_INTEGER
    ensures var half := Filtered(OfKinds(kinds), rs);
            && Retain(EncodeBatch(rs), kinds) == Ok(EncodeBatch(half))
            && ReadLe32(EncodeBatch(half), COUNT_OFFSET) == |half|
            && Summarize(EncodeBatch(half)) == Ok(Sum(Weight, half))
  {
    var half := Filtered(OfKinds(kinds), rs);
    RetainEncoded(rs, kinds);
    FilteredRead(rs, OfKinds(kinds));
    FilteredShorter(EncodeRecord, OfKinds(kinds), rs);
    assert AllKnown(half) by {
      forall i | 0 <= i < |half| ensures Known(half[i]) {
        assert half[i] in half;
      }
    }
    SummarizeEncoded(half);
    CountWritten(half);
  }

  lemma CountWritten(rs: seq<WireRecord>)
    requires |rs| < U32_LIMIT
    ensures ReadLe32(EncodeBatch(rs), COUNT_OFFSET) == |rs|
  {
    var b := EncodeBatch(rs);
    assert HoldsAt(b, 0, b);
    HoldsConcat(b, 0, EncodeHeader(|rs|), EncodeRecords(rs));
    HeaderAt(b, |rs|);
  }

  /**
   * A batch of known kinds splits in two: its application and its diagnostic half hold as many
   * records as the summary counted, the retained bytes are all in the first, and together they are
   * as long as the batch and one more header.
   */
  lemma SummaryMatchesRetained(b: seq<Byte>)
    requires |b| <= MAX_SAFE_INTEGER && Summarize(b).Ok?
    ensures var s := Summarize(b).value;
            var applications, diagnostics := Retain(b, APPLICATION_KINDS), Retain(b, DIAGNOSTIC_KINDS);
            && applications.Ok? && diagnostics.Ok?
            && |applications.value| + |diagnostics.value| == |b| + HEADER_BYTES
            && COUNT_OFFSET + 4 <= |applications.value|
            && ReadLe32(applications.value, COUNT_OFFSET) == s.applicationEvents
            && COUNT_OFFSET + 4 <= |diagnostics.value| && ReadLe32(diagnostics.value, COUNT_OFFSET) == s.diagnostics
            && Summarize(applications.value) == Ok(s.(diagnostics := 0))
            && Summarize(diagnostics.value) == Ok(Summary(0, s.diagnostics, 0))
  {
    var rs := SummarizedIsEncoded(b);
    HalfSummarized(rs, APPLICATION_KINDS);
    HalfSummarized(rs, DIAGNOSTIC_KINDS);
    SumCounts(rs);
    FilteredSplits(EncodeRecord, OfKinds(APPLICATION_KINDS), OfKinds(DIAGNOSTIC_KINDS), rs);
  }

  /** A total past the largest exact integer is refused at the field that would bring it there. */
  lemma TotalsAreChecked(kind: int, id: int, wire: int, offset: nat, value: seq<Byte>, s: Summary, f: Failure)
    ensures Summarizer().field(kind, id, wire, offset, value, s) == Err(f) <==>
            && (kind, id) in RETAINED && s.retainedEventBytes + |value| > 0x1f_ffff_ffff_ffff
            && f == Failure(InvalidWireLength, offset)
  {
    RetainedAre(kind, id);
  }
}
