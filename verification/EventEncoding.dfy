/** The batch format the walk accepts, written down independently of the walk, and their exact match. */
module EventEncoding {
  import opened Bytes
  import opened CountedWalk
  import opened EventBatch

  // ----- the format

  predicate FitsField(f: Field) {
    0 < f.id < U16_LIMIT && 0 <= f.wire < 0x100 && |f.value| < U32_LIMIT
  }

  type WireField = f: Field | FitsField(f) witness Field(1, 0, [])

  function EncodeField(f: WireField): (r: seq<Byte>)
    ensures |r| == FIELD_HEADER_BYTES + |f.value|
  {
    Le16(f.id) + [f.wire, 0] + Le32(|f.value|) + f.value
  }

  function EncodeFields(fs: seq<WireField>): seq<Byte> {
    Concat(EncodeField, fs)
  }

  predicate DistinctIds(fs: seq<Field>) {
    forall i, j :: 0 <= i < j < |fs| ==> fs[i].id != fs[j].id
  }

  /** A record the walk reads field by field, or one it steps over because its kind is not wanted. */
  datatype Record = Read(kind: int, fields: seq<WireField>) | Skipped(kind: int, count: nat, body: seq<Byte>)

  function Count(r: Record): nat {
    if r.Read? then |r.fields| else r.count
  }

  function Body(r: Record): seq<Byte> {
    if r.Read? then EncodeFields(r.fields) else r.body
  }

  predicate FitsRecord(r: Record) {
    && 0 < r.kind < U16_LIMIT && Count(r) < U16_LIMIT && |Body(r)| < U32_LIMIT
    && (r.Read? ==> DistinctIds(r.fields))
  }

  type WireRecord = r: Record | FitsRecord(r) witness Skipped(1, 0, [])

  function EncodeRecord(r: WireRecord): (s: seq<Byte>)
    ensures |s| == RECORD_HEADER_BYTES + |Body(r)|
  {
    Le32(|Body(r)|) + Le16(r.kind) + Le16(Count(r)) + Body(r)
  }

  function EncodeRecords(rs: seq<WireRecord>): seq<Byte> {
    Concat(EncodeRecord, rs)
  }

  function EncodeHeader(count: int): (r: seq<Byte>)
    requires 0 <= count < U32_LIMIT
    ensures |r| == HEADER_BYTES
  {
    Le32(MAGIC) + Le16(FORMAT_VERSION) + Le16(0) + Le32(SCHEMA_VERSION) + Le32(count)
  }

  function EncodeBatch(rs: seq<WireRecord>): seq<Byte>
    requires |rs| < U32_LIMIT
  {
    EncodeHeader(|rs|) + EncodeRecords(rs)
  }

  /** A record is stepped over exactly when its kind is not accepted. */
  predicate Chosen(accepted: Option<set<int>>, r: Record) {
    r.Read? <==> Accepts(accepted, r.kind)
  }

  predicate AllChosen(accepted: Option<set<int>>, rs: seq<Record>) {
    forall i :: 0 <= i < |rs| ==> Chosen(accepted, rs[i])
  }

  // ----- what a visitor makes of the records

  function ApplyField<S>(v: Visitor<S>, kind: int): (WireField, nat, S) -> Result<S, Failure> {
    (f: WireField, at: nat, s: S) => v.field(kind, f.id, f.wire, at + FIELD_HEADER_BYTES, f.value, s)
  }

  function FoldFields<S>(v: Visitor<S>, kind: int, fs: seq<WireField>, at: nat, s: S): Result<S, Failure> {
    Fold(EncodeField, ApplyField(v, kind), fs, at, s)
  }

  function VisitOne<S>(v: Visitor<S>, r: WireRecord, at: nat, s: S): Result<S, Failure> {
    if r.Skipped? then Ok(s)
    else
      var end := at + RECORD_HEADER_BYTES + |Body(r)|;
      match v.enter(r.kind, at, end, s)
      case Err(e) => Err(e)
      case Ok(t) =>
        match FoldFields(v, r.kind, r.fields, at + RECORD_HEADER_BYTES, t)
        case Err(e) => Err(e)
        case Ok(u) => Ok(v.leave(r.kind, at, end, u))
  }

  function ApplyRecord<S>(v: Visitor<S>): (WireRecord, nat, S) -> Result<S, Failure> {
    (r: WireRecord, at: nat, s: S) => VisitOne(v, r, at, s)
  }

  function FoldRecords<S>(v: Visitor<S>, rs: seq<WireRecord>, at: nat, s: S): Result<S, Failure> {
    Fold(EncodeRecord, ApplyRecord(v), rs, at, s)
  }

  // ----- fields

  /** The header and value of a field, as the walk reads them. */
  lemma FieldAt(b: seq<Byte>, at: nat, f: WireField)
    requires at + FIELD_HEADER_BYTES <= |b|
    ensures HoldsAt(b, at, EncodeField(f)) <==>
            && ReadLe16(b, at) == f.id && b[at + 2] == f.wire && b[at + 3] == 0
            && ReadLe32(b, at + 4) == |f.value| && HoldsAt(b, at + FIELD_HEADER_BYTES, f.value)
  {
    var id, flags, length := Le16(f.id), [f.wire, 0], Le32(|f.value|);
    HoldsConcat(b, at, id + flags + length, f.value);
    HoldsConcat(b, at, id + flags, length);
    HoldsConcat(b, at, id, flags);
    Le16RoundTrip(b, at, f.id);
    Le32RoundTrip(b, at + 4, |f.value|);
    assert b[at + 2..at + 4] == [b[at + 2], b[at + 3]];
  }

  /** Below the record's end, the walk reads a field exactly where it is written. */
  lemma FieldRead(b: seq<Byte>, end: nat, at: nat, seen: set<int>, f: WireField)
    requires end <= |b| <= MAX_SAFE_INTEGER
    ensures ReadField(b, end, at, seen) == Ok(f) <==> f.id !in seen && HoldsAt(b[..end], at, EncodeField(f))
    ensures f.id in seen && HoldsAt(b[..end], at, EncodeField(f)) ==>
            ReadField(b, end, at, seen) == Err(Failure(DuplicateField, at))
  {
    if at + FIELD_HEADER_BYTES <= |b| {
      FieldAt(b, at, f);
    }
    Within(b, end, at, EncodeField(f));
  }

  lemma Within(b: seq<Byte>, end: nat, at: nat, part: seq<Byte>)
    requires end <= |b|
    ensures HoldsAt(b[..end], at, part) <==> HoldsAt(b, at, part) && at + |part| <= end
  {
    if at + |part| <= end {
      assert b[..end][at..at + |part|] == b[at..at + |part|];
    }
  }

  /** What a field does on the walk, which also refuses an id seen before. */
  function StepField<S>(v: Visitor<S>, kind: int): (WireField, nat, Progress<S>) -> Result<Progress<S>, Failure> {
    (f: WireField, at: nat, p: Progress<S>) =>
      if f.id in p.seen then Err(Failure(DuplicateField, at))
      else
        match v.field(kind, f.id, f.wire, at + FIELD_HEADER_BYTES, f.value, p.state)
        case Err(e) => Err(e)
        case Ok(t) => Ok(Progress(p.seen + {f.id}, t))
  }

  lemma FieldsAreRead<S(!new)>(b: seq<Byte>, end: nat, v: Visitor<S>, kind: int, fs: seq<WireField>)
    requires end <= |b| <= MAX_SAFE_INTEGER
    ensures Reads(FieldsIn(b, end, v, kind), EncodeField, StepField(v, kind), b[..end], fs)
  {
    var next, step := FieldsIn(b, end, v, kind), StepField(v, kind);
    forall i, at: nat, p | 0 <= i < |fs| ensures ReadsAt(next, EncodeField, step, b[..end], fs[i], at, p) {
      FieldRead(b, end, at, p.seen, fs[i]);
    }
  }

  predicate AnyField(f: WireField) {
    true
  }

  lemma FieldsWereWritten<S(!new)>(b: seq<Byte>, end: nat, v: Visitor<S>, kind: int)
    requires end <= |b| <= MAX_SAFE_INTEGER
    ensures Explained(FieldsIn(b, end, v, kind), EncodeField, StepField(v, kind), AnyField, b[..end])
  {
    var next, step := FieldsIn(b, end, v, kind), StepField(v, kind);
    forall at: nat, p ensures ExplainedAt(next, EncodeField, step, AnyField, b[..end], at, p) {
      if next(at, p).Ok? {
        var f: WireField := ReadField(b, end, at, p.seen).value;
        FieldRead(b, end, at, p.seen, f);
        assert Explains(next, EncodeField, step, AnyField, b[..end], at, p, f);
      }
    }
  }

  predicate Unseen(fs: seq<Field>, seen: set<int>) {
    forall i :: 0 <= i < |fs| ==> fs[i].id !in seen
  }

  /** Distinct new ids pass the walk's check for duplicates. */
  lemma {:induction false} DistinctPass<S>(v: Visitor<S>, kind: int, fs: seq<WireField>, at: nat, p: Progress<S>)
    requires DistinctIds(fs) && Unseen(fs, p.seen)
    ensures match FoldFields(v, kind, fs, at, p.state)
            case Err(e) => Fold(EncodeField, StepField(v, kind), fs, at, p) == Err(e)
            case Ok(t) =>
              var r := Fold(EncodeField, StepField(v, kind), fs, at, p);
              r.Ok? && r.value.state == t
    decreases |fs|
  {
    if fs != [] {
      var stepped := StepField(v, kind)(fs[0], at, p);
      if stepped.Ok? {
        DistinctPass(v, kind, fs[1..], at + |EncodeField(fs[0])|, stepped.value);
      }
    }
  }

  /** Only distinct new ids do. */
  lemma {:induction false} PassedDistinct<S>(v: Visitor<S>, kind: int, fs: seq<WireField>, at: nat, p: Progress<S>)
    requires Fold(EncodeField, StepField(v, kind), fs, at, p).Ok?
    ensures DistinctIds(fs) && Unseen(fs, p.seen)
    decreases |fs|
  {
    if fs != [] {
      PassedDistinct(v, kind, fs[1..], at + |EncodeField(fs[0])|, StepField(v, kind)(fs[0], at, p).value);
    }
  }

  /** Written fields are visited in order. */
  lemma FieldsVisited<S(!new)>(
    next: Reader<Progress<S>, Failure>, region: seq<Byte>, v: Visitor<S>, kind: int, fs: seq<WireField>, at: nat, s: S)
    requires Reads(next, EncodeField, StepField(v, kind), region, fs)
    requires DistinctIds(fs) && HoldsAt(region, at, EncodeFields(fs))
    ensures var r := Walk(next, at, |fs|, Progress({}, s));
            match FoldFields(v, kind, fs, at, s)
            case Err(e) => r == Err(e)
            case Ok(t) => r.Ok? && r.value.0.state == t && r.value.1 == at + |EncodeFields(fs)|
  {
    WalkWritten(next, EncodeField, StepField(v, kind), region, fs, at, Progress({}, s));
    DistinctPass(v, kind, fs, at, Progress({}, s));
  }

  /** Visited fields were written. */
  lemma VisitedFields<S(!new)>(
    next: Reader<Progress<S>, Failure>, region: seq<Byte>, v: Visitor<S>, kind: int, at: nat, count: nat, s: S)
    returns (fs: seq<WireField>)
    requires at <= |region| && Explained(next, EncodeField, StepField(v, kind), AnyField, region)
    requires Walk(next, at, count, Progress({}, s)).Ok?
    ensures |fs| == count && DistinctIds(fs) && HoldsAt(region, at, EncodeFields(fs))
    ensures var (p, offset) := Walk(next, at, count, Progress({}, s)).value;
            FoldFields(v, kind, fs, at, s) == Ok(p.state) && offset == at + |EncodeFields(fs)|
  {
    fs := WalkedIsWritten(next, EncodeField, StepField(v, kind), AnyField, region, at, count, Progress({}, s));
    PassedDistinct(v, kind, fs, at, Progress({}, s));
    DistinctPass(v, kind, fs, at, Progress({}, s));
  }

  // ----- records

  lemma RecordAt(b: seq<Byte>, at: nat, r: WireRecord)
    requires at + RECORD_HEADER_BYTES <= |b|
    ensures HoldsAt(b, at, EncodeRecord(r)) <==>
            && ReadLe32(b, at) == |Body(r)| && ReadLe16(b, at + 4) == r.kind && ReadLe16(b, at + 6) == Count(r)
            && HoldsAt(b, at + RECORD_HEADER_BYTES, Body(r))
  {
    var length, kind, count := Le32(|Body(r)|), Le16(r.kind), Le16(Count(r));
    HoldsConcat(b, at, length + kind + count, Body(r));
    HoldsConcat(b, at, length + kind, count);
    HoldsConcat(b, at, length, kind);
    Le32RoundTrip(b, at, |Body(r)|);
    Le16RoundTrip(b, at + 4, r.kind);
    Le16RoundTrip(b, at + 6, Count(r));
  }

  lemma PrefixRead(b: seq<Byte>, at: nat, r: WireRecord)
    requires |b| <= MAX_SAFE_INTEGER && HoldsAt(b, at, EncodeRecord(r))
    ensures ReadPrefix(b, at) == Ok(Prefix(r.kind, Count(r), at + |EncodeRecord(r)|))
    ensures HoldsAt(b[..at + |EncodeRecord(r)|], at + RECORD_HEADER_BYTES, Body(r))
  {
    var body, size := Body(r), |EncodeRecord(r)|;
    assert ReadLe32(b, at) == |body| && ReadLe16(b, at + 4) == r.kind && ReadLe16(b, at + 6) == Count(r) by {
      RecordAt(b, at, r);
    }
    PrefixIs(b, at, |body|, r.kind, Count(r));
    assert HoldsAt(b, at + RECORD_HEADER_BYTES, body) by {
      RecordAt(b, at, r);
    }
    Within(b, at + size, at + RECORD_HEADER_BYTES, body);
  }

  lemma PrefixIs(b: seq<Byte>, at: nat, length: nat, kind: int, count: nat)
    requires at + RECORD_HEADER_BYTES + length <= |b| <= MAX_SAFE_INTEGER && kind != 0
    requires ReadLe32(b, at) == length && ReadLe16(b, at + 4) == kind && ReadLe16(b, at + 6) == count
    ensures ReadPrefix(b, at) == Ok(Prefix(kind, count, at + RECORD_HEADER_BYTES + length))
  {
  }

  lemma RecordVisited<S(!new)>(
    fields: Reader<Progress<S>, Failure>, region: seq<Byte>, v: Visitor<S>, at: nat, r: WireRecord, s: S)
    requires r.Read? && Reads(fields, EncodeField, StepField(v, r.kind), region, r.fields)
    requires HoldsAt(region, at + RECORD_HEADER_BYTES, Body(r))
    ensures VisitRecord(fields, v, r.kind, |r.fields|, at, at + RECORD_HEADER_BYTES + |Body(r)|, s)
         == VisitOne(v, r, at, s)
  {
    var entered := v.enter(r.kind, at, at + RECORD_HEADER_BYTES + |Body(r)|, s);
    if entered.Ok? {
      FieldsVisited(fields, region, v, r.kind, r.fields, at + RECORD_HEADER_BYTES, entered.value);
    }
  }

  predicate FitsPrefix(p: Prefix, at: nat, limit: nat) {
    && 0 < p.kind < U16_LIMIT && p.count < U16_LIMIT
    && at + RECORD_HEADER_BYTES <= p.end <= limit && p.end - at - RECORD_HEADER_BYTES < U32_LIMIT
  }

  lemma PrefixFits(b: seq<Byte>, at: nat, p: Prefix)
    requires ReadPrefix(b, at) == Ok(p)
    ensures FitsPrefix(p, at, |b|)
  {
  }

  /** The record has this prefix, and its body lies after it. */
  predicate Behind(b: seq<Byte>, at: nat, p: Prefix, r: WireRecord) {
    && r.kind == p.kind && Count(r) == p.count && at + RECORD_HEADER_BYTES + |Body(r)| == p.end
    && HoldsAt(b, at + RECORD_HEADER_BYTES, Body(r))
  }

  lemma PrefixWritten(b: seq<Byte>, at: nat, p: Prefix, r: WireRecord)
    requires ReadPrefix(b, at) == Ok(p) && Behind(b, at, p, r)
    ensures HoldsAt(b, at, EncodeRecord(r))
  {
    RecordAt(b, at, r);
  }

  lemma VisitedRecord<S(!new)>(
    fields: Reader<Progress<S>, Failure>, b: seq<Byte>, v: Visitor<S>, at: nat, p: Prefix, s: S) returns (r: WireRecord)
    requires FitsPrefix(p, at, |b|) && Explained(fields, EncodeField, StepField(v, p.kind), AnyField, b[..p.end])
    requires VisitRecord(fields, v, p.kind, p.count, at, p.end, s).Ok?
    ensures r.Read? && Behind(b, at, p, r)
    ensures VisitOne(v, r, at, s) == VisitRecord(fields, v, p.kind, p.count, at, p.end, s)
  {
    var start := at + RECORD_HEADER_BYTES;
    var fs := VisitedFields(fields, b[..p.end], v, p.kind, start, p.count, v.enter(p.kind, at, p.end, s).value);
    Within(b, p.end, start, EncodeFields(fs));
    r := Read(p.kind, fs);
  }

  lemma SkippedRecord(b: seq<Byte>, at: nat, p: Prefix) returns (r: WireRecord)
    requires FitsPrefix(p, at, |b|)
    ensures r.Skipped? && Behind(b, at, p, r)
  {
    r := Skipped(p.kind, p.count, b[at + RECORD_HEADER_BYTES..p.end]);
  }

  lemma RecordIsRead<S(!new)>(b: seq<Byte>, accepted: Option<set<int>>, v: Visitor<S>, r: WireRecord, at: nat, s: S)
    requires |b| <= MAX_SAFE_INTEGER && Chosen(accepted, r)
    ensures ReadsAt(RecordsIn(b, accepted, v), EncodeRecord, ApplyRecord(v), b, r, at, s)
  {
    if HoldsAt(b, at, EncodeRecord(r)) {
      PrefixRead(b, at, r);
      if r.Read? {
        var end := at + |EncodeRecord(r)|;
        FieldsAreRead(b, end, v, r.kind, r.fields);
        RecordVisited(FieldsIn(b, end, v, r.kind), b[..end], v, at, r, s);
      }
    }
  }

  function IsChosen(accepted: Option<set<int>>): WireRecord -> bool {
    (r: WireRecord) => Chosen(accepted, r)
  }

  lemma RecordFound<S(!new)>(b: seq<Byte>, accepted: Option<set<int>>, v: Visitor<S>, at: nat, s: S)
    returns (r: WireRecord)
    requires |b| <= MAX_SAFE_INTEGER && NextRecord(b, accepted, v, at, s).Ok?
    ensures Chosen(accepted, r) && HoldsAt(b, at, EncodeRecord(r))
    ensures VisitOne(v, r, at, s) == Ok(NextRecord(b, accepted, v, at, s).value.0)
    ensures NextRecord(b, accepted, v, at, s).value.1 == at + |EncodeRecord(r)|
  {
    var p := ReadPrefix(b, at).value;
    PrefixFits(b, at, p);
    if Accepts(accepted, p.kind) {
      FieldsWereWritten(b, p.end, v, p.kind);
      r := VisitedRecord(FieldsIn(b, p.end, v, p.kind), b, v, at, p, s);
    } else {
      r := SkippedRecord(b, at, p);
    }
    PrefixWritten(b, at, p, r);
  }

  lemma RecordReadIs<S(!new)>(
    next: Reader<S, Failure>, b: seq<Byte>, accepted: Option<set<int>>, v: Visitor<S>, at: nat, s: S)
    returns (r: WireRecord)
    requires |b| <= MAX_SAFE_INTEGER && next(at, s).Ok? && Steps(next, b, accepted, v)
    ensures Chosen(accepted, r) && HoldsAt(b, at, EncodeRecord(r))
    ensures VisitOne(v, r, at, s) == Ok(next(at, s).value.0) && next(at, s).value.1 == at + |EncodeRecord(r)|
  {
    assert StepAt(next, b, accepted, v, at, s);
    r := RecordFound(b, accepted, v, at, s);
  }

  lemma RecordWasWritten<S(!new)>(
    next: Reader<S, Failure>, b: seq<Byte>, accepted: Option<set<int>>, v: Visitor<S>, at: nat, s: S)
    requires |b| <= MAX_SAFE_INTEGER && Steps(next, b, accepted, v)
    ensures ExplainedAt(next, EncodeRecord, ApplyRecord(v), IsChosen(accepted), b, at, s)
  {
    if next(at, s).Ok? {
      var r := RecordReadIs(next, b, accepted, v, at, s);
      assert Explains(next, EncodeRecord, ApplyRecord(v), IsChosen(accepted), b, at, s, r);
    }
  }

  // ----- batches

  lemma HeaderAt(b: seq<Byte>, count: int)
    requires 0 <= count < U32_LIMIT && HEADER_BYTES <= |b|
    ensures HoldsAt(b, 0, EncodeHeader(count)) <==> HeaderFault(b).None? && ReadLe32(b, 12) == count
  {
    var magic, format, reserved := Le32(MAGIC), Le16(FORMAT_VERSION), Le16(0);
    var schema, records := Le32(SCHEMA_VERSION), Le32(count);
    HoldsConcat(b, 0, magic + format + reserved + schema, records);
    HoldsConcat(b, 0, magic + format + reserved, schema);
    HoldsConcat(b, 0, magic + format, reserved);
    HoldsConcat(b, 0, magic, format);
    Le32RoundTrip(b, 0, MAGIC);
    Le16RoundTrip(b, 4, FORMAT_VERSION);
    Le16RoundTrip(b, 6, 0);
    Le32RoundTrip(b, 8, SCHEMA_VERSION);
    Le32RoundTrip(b, 12, count);
  }

  /** On an encoded batch, the walk hands the visitor every accepted record, once and in order. */
  lemma VisitEncoded<S(!new)>(rs: seq<WireRecord>, accepted: Option<set<int>>, v: Visitor<S>, s: S)
    requires |rs| < U32_LIMIT && AllChosen(accepted, rs) && |EncodeBatch(rs)| <= MAX_SAFE_INTEGER
    ensures Visit(EncodeBatch(rs), accepted, v, s) == FoldRecords(v, rs, HEADER_BYTES, s)
  {
    var b := EncodeBatch(rs);
    assert HoldsAt(b, 0, b);
    HoldsConcat(b, 0, EncodeHeader(|rs|), EncodeRecords(rs));
    HeaderAt(b, |rs|);
    var next := RecordsIn(b, accepted, v);
    forall i, at: nat, s | 0 <= i < |rs| ensures ReadsAt(next, EncodeRecord, ApplyRecord(v), b, rs[i], at, s) {
      RecordIsRead(b, accepted, v, rs[i], at, s);
    }
    WalkWritten(next, EncodeRecord, ApplyRecord(v), b, rs, HEADER_BYTES, s);
  }

  /** Whatever the visitor, a walk that succeeds walked an encoded batch. */
  lemma VisitedIsEncoded<S(!new)>(b: seq<Byte>, accepted: Option<set<int>>, v: Visitor<S>, s: S)
    returns (rs: seq<WireRecord>)
    requires |b| <= MAX_SAFE_INTEGER && Visit(b, accepted, v, s).Ok?
    ensures |rs| < U32_LIMIT && AllChosen(accepted, rs) && b == EncodeBatch(rs)
    ensures Visit(b, accepted, v, s) == FoldRecords(v, rs, HEADER_BYTES, s)
  {
    var count, next := ReadLe32(b, 12), RecordsIn(b, accepted, v);
    forall at: nat, s ensures ExplainedAt(next, EncodeRecord, ApplyRecord(v), IsChosen(accepted), b, at, s) {
      RecordWasWritten(next, b, accepted, v, at, s);
    }
    rs := WalkedIsWritten(next, EncodeRecord, ApplyRecord(v), IsChosen(accepted), b, HEADER_BYTES, count, s);
    HeaderAt(b, count);
    HoldsConcat(b, 0, EncodeHeader(count), EncodeRecords(rs));
    assert b[0..0 + |EncodeBatch(rs)|] == b;
  }

  /**
   * The walk accepts exactly the encodings of valid batches, and what it computes is what the visitor
   * makes of their records.
   */
  lemma VisitExact<S(!new)>(b: seq<Byte>, accepted: Option<set<int>>, v: Visitor<S>, s: S, t: S)
    requires |b| <= MAX_SAFE_INTEGER
    ensures Visit(b, accepted, v, s) == Ok(t) <==>
            exists rs: seq<WireRecord> ::
              && |rs| < U32_LIMIT && AllChosen(accepted, rs) && b == EncodeBatch(rs)
              && FoldRecords(v, rs, HEADER_BYTES, s) == Ok(t)
  {
    if Visit(b, accepted, v, s) == Ok(t) {
      var rs := VisitedIsEncoded(b, accepted, v, s);
    }
    forall rs: seq<WireRecord> |
      && |rs| < U32_LIMIT && AllChosen(accepted, rs) && b == EncodeBatch(rs)
      && FoldRecords(v, rs, HEADER_BYTES, s) == Ok(t)
      ensures Visit(b, accepted, v, s) == Ok(t)
    {
      VisitEncoded(rs, accepted, v, s);
    }
  }
}
