/** What a batch is refused for: the first thing in it that is not written as a batch is, or that the visitor denies. */
module EventFaults {
  import opened Bytes
  import opened CountedWalk
  import opened EventBatch
  import opened EventEncoding

  // ----- a walk that fails

  /** These items are there, and behind them the reader fails. */
  ghost predicate FailsBehind<R, S, E>(
    next: Reader<S, E>, encode: R -> seq<Byte>, apply: (R, nat, S) -> Result<S, E>, ok: R -> bool,
    b: seq<Byte>, at: nat, left: nat, s: S, rs: seq<R>, e: E)
  {
    && |rs| < left && (forall i :: 0 <= i < |rs| ==> ok(rs[i])) && HoldsAt(b, at, Concat(encode, rs))
    && Fold(encode, apply, rs, at, s).Ok?
    && next(at + |Concat(encode, rs)|, Fold(encode, apply, rs, at, s).value) == Err(e)
  }

  ghost predicate ReadsAll<R(!new), S(!new), E>(
    next: Reader<S, E>, encode: R -> seq<Byte>, apply: (R, nat, S) -> Result<S, E>, ok: R -> bool, b: seq<Byte>)
  {
    forall r, at, s :: ok(r) ==> ReadsAt(next, encode, apply, b, r, at, s)
  }

  lemma {:induction false} FailureFound<R(!new), S(!new), E>(
    next: Reader<S, E>, encode: R -> seq<Byte>, apply: (R, nat, S) -> Result<S, E>, ok: R -> bool,
    b: seq<Byte>, at: nat, left: nat, s: S, e: E) returns (rs: seq<R>)
    requires at <= |b| && Explained(next, encode, apply, ok, b) && Walk(next, at, left, s) == Err(e)
    ensures FailsBehind(next, encode, apply, ok, b, at, left, s, rs, e)
    decreases left
  {
    rs := [];
    if next(at, s).Ok? {
      assert ExplainedAt(next, encode, apply, ok, b, at, s);
      var r :| Explains(next, encode, apply, ok, b, at, s, r);
      var end, t := at + |encode(r)|, apply(r, at, s).value;
      var rest := FailureFound(next, encode, apply, ok, b, end, left - 1, t, e);
      HoldsConcat(b, at, encode(r), Concat(encode, rest));
      rs := [r] + rest;
      assert rs[1..] == rest;
    }
  }

  lemma {:induction false} FailureFails<R(!new), S(!new), E>(
    next: Reader<S, E>, encode: R -> seq<Byte>, apply: (R, nat, S) -> Result<S, E>, ok: R -> bool,
    b: seq<Byte>, at: nat, left: nat, s: S, rs: seq<R>, e: E)
    requires ReadsAll(next, encode, apply, ok, b) && FailsBehind(next, encode, apply, ok, b, at, left, s, rs, e)
    ensures Walk(next, at, left, s) == Err(e)
    decreases |rs|
  {
    if rs != [] {
      var r, rest := rs[0], rs[1..];
      HoldsConcat(b, at, encode(r), Concat(encode, rest));
      assert ok(r) && ReadsAt(next, encode, apply, b, r, at, s);
      FailureFails(next, encode, apply, ok, b, at + |encode(r)|, left - 1, apply(r, at, s).value, rest, e);
    }
  }

  // ----- fields

  function Ids(fs: seq<WireField>): set<int> {
    set i | 0 <= i < |fs| :: fs[i].id
  }

  /** The first thing wrong with the header of a field, or with where it ends. */
  predicate FieldFault(b: seq<Byte>, end: nat, at: nat, ids: set<int>, f: Failure) {
    if at + 8 > |b| then f == Failure(Truncated, at)
    else if b[at] == 0 && b[at + 1] == 0 then f == Failure(InvalidFieldId, at)
    else if b[at + 3] != 0 then f == Failure(InvalidReservedValue, at + 3)
    else if ReadLe16(b, at) in ids then f == Failure(DuplicateField, at)
    else at + 8 + ReadLe32(b, at + 4) > end && f == Failure(Truncated, at + 8)
  }

  /** A new field is written there, but the visitor will not have it. */
  ghost predicate FieldDenied<S>(
    b: seq<Byte>, end: nat, v: Visitor<S>, kind: int, at: nat, ids: set<int>, s: S, x: WireField, f: Failure)
    requires end <= |b|
  {
    x.id !in ids && HoldsAt(b[..end], at, EncodeField(x)) && v.field(kind, x.id, x.wire, at + 8, x.value, s) == Err(f)
  }

  ghost predicate FieldRefused<S>(
    b: seq<Byte>, end: nat, v: Visitor<S>, kind: int, at: nat, ids: set<int>, s: S, f: Failure)
    requires end <= |b|
  {
    FieldFault(b, end, at, ids, f) || exists x: WireField :: FieldDenied(b, end, v, kind, at, ids, s, x, f)
  }

  lemma FieldFaultIff(b: seq<Byte>, end: nat, at: nat, ids: set<int>, f: Failure)
    requires end <= |b| <= MAX_SAFE_INTEGER
    ensures ReadField(b, end, at, ids) == Err(f) <==> FieldFault(b, end, at, ids, f)
  {
  }

  lemma FieldRefusedIff<S>(
    b: seq<Byte>, end: nat, v: Visitor<S>, kind: int, at: nat, p: Progress<S>, f: Failure)
    requires end <= |b| <= MAX_SAFE_INTEGER
    ensures NextField(b, end, v, kind, at, p) == Err(f) <==> FieldRefused(b, end, v, kind, at, p.seen, p.state, f)
  {
    FieldFaultIff(b, end, at, p.seen, f);
    var read := ReadField(b, end, at, p.seen);
    if read.Ok? {
      var x: WireField := read.value;
      FieldRead(b, end, at, p.seen, x);
      assert NextField(b, end, v, kind, at, p) == Err(f) ==> FieldDenied(b, end, v, kind, at, p.seen, p.state, x, f);
    }
    forall x: WireField | FieldDenied(b, end, v, kind, at, p.seen, p.state, x, f)
      ensures NextField(b, end, v, kind, at, p) == Err(f)
    {
      FieldRead(b, end, at, p.seen, x);
    }
  }

  lemma {:induction false} SeenAre<S>(v: Visitor<S>, kind: int, fs: seq<WireField>, at: nat, p: Progress<S>)
    requires Fold(EncodeField, StepField(v, kind), fs, at, p).Ok?
    ensures Fold(EncodeField, StepField(v, kind), fs, at, p).value.seen == p.seen + Ids(fs)
    decreases |fs|
  {
    if fs != [] {
      var q := StepField(v, kind)(fs[0], at, p).value;
      SeenAre(v, kind, fs[1..], at + |EncodeField(fs[0])|, q);
      assert Ids(fs) == {fs[0].id} + Ids(fs[1..]) by {
        assert forall i :: 0 < i < |fs| ==> fs[i] == fs[1..][i - 1];
      }
    }
  }

  /** The walk over written fields, and what the visitor makes of them. */
  lemma FoldsAlike<S>(v: Visitor<S>, kind: int, fs: seq<WireField>, at: nat, s: S)
    ensures var stepped, folded := Fold(EncodeField, StepField(v, kind), fs, at, Progress({}, s)),
                                   FoldFields(v, kind, fs, at, s);
            && (stepped.Ok? <==> DistinctIds(fs) && folded.Ok?)
            && (stepped.Ok? ==> stepped.value == Progress(Ids(fs), folded.value))
  {
    var p := Progress({}, s);
    if Fold(EncodeField, StepField(v, kind), fs, at, p).Ok? {
      PassedDistinct(v, kind, fs, at, p);
      SeenAre(v, kind, fs, at, p);
    }
    if DistinctIds(fs) {
      DistinctPass(v, kind, fs, at, p);
    }
  }

  /** These fields are written from there on, and behind them the record goes on too long or has no further field. */
  ghost predicate StopsBehind<S>(
    b: seq<Byte>, end: nat, v: Visitor<S>, kind: int, count: nat, at: nat, s: S, fs: seq<WireField>, f: Failure)
    requires end <= |b|
  {
    && |fs| <= count && DistinctIds(fs) && HoldsAt(b[..end], at, EncodeFields(fs))
    && FoldFields(v, kind, fs, at, s).Ok?
    && var t, next := FoldFields(v, kind, fs, at, s).value, at + |EncodeFields(fs)|;
       if |fs| == count then next != end && f == Failure(TrailingBytes, next)
       else FieldRefused(b, end, v, kind, next, Ids(fs), t, f)
  }

  /** How the fields of a record come out: the state after them, if they end where the record does. */
  function FieldsEnd<S>(walked: Result<(Progress<S>, nat), Failure>, end: nat): Result<S, Failure> {
    match walked
    case Err(e) => Err(e)
    case Ok((p, offset)) => if offset != end then Err(Failure(TrailingBytes, offset)) else Ok(p.state)
  }

  lemma StopFound<S(!new)>(
    b: seq<Byte>, end: nat, v: Visitor<S>, kind: int, count: nat, at: nat, s: S, f: Failure)
    returns (fs: seq<WireField>)
    requires at <= end <= |b| <= MAX_SAFE_INTEGER
    requires FieldsEnd(Walk(FieldsIn(b, end, v, kind), at, count, Progress({}, s)), end) == Err(f)
    ensures StopsBehind(b, end, v, kind, count, at, s, fs, f)
  {
    var next, step, p := FieldsIn(b, end, v, kind), StepField(v, kind), Progress({}, s);
    FieldsWereWritten(b, end, v, kind);
    var walked := Walk(next, at, count, p);
    if walked.Ok? {
      fs := VisitedFields(next, b[..end], v, kind, at, count, s);
    } else {
      fs := FailureFound(next, EncodeField, step, AnyField, b[..end], at, count, p, f);
      FoldsAlike(v, kind, fs, at, s);
      FieldRefusedIff(b, end, v, kind, at + |EncodeFields(fs)|, Fold(EncodeField, step, fs, at, p).value, f);
    }
  }

  lemma StopStops<S(!new)>(
    b: seq<Byte>, end: nat, v: Visitor<S>, kind: int, count: nat, at: nat, s: S, fs: seq<WireField>, f: Failure)
    requires at <= end <= |b| <= MAX_SAFE_INTEGER && StopsBehind(b, end, v, kind, count, at, s, fs, f)
    ensures FieldsEnd(Walk(FieldsIn(b, end, v, kind), at, count, Progress({}, s)), end) == Err(f)
  {
    if |fs| == count {
      FieldsAreRead(b, end, v, kind, fs);
      FieldsVisited(FieldsIn(b, end, v, kind), b[..end], v, kind, fs, at, s);
    } else {
      FieldStops(b, end, v, kind, count, at, s, fs, f);
    }
  }

  lemma AnyFieldIsRead<S(!new)>(b: seq<Byte>, end: nat, v: Visitor<S>, kind: int)
    requires end <= |b| <= MAX_SAFE_INTEGER
    ensures ReadsAll(FieldsIn(b, end, v, kind), EncodeField, StepField(v, kind), AnyField, b[..end])
  {
    var next, step := FieldsIn(b, end, v, kind), StepField(v, kind);
    forall x: WireField, i, q | AnyField(x) ensures ReadsAt(next, EncodeField, step, b[..end], x, i, q) {
      FieldsAreRead(b, end, v, kind, [x]);
      assert ReadsAt(next, EncodeField, step, b[..end], [x][0], i, q);
    }
  }

  lemma FieldStops<S(!new)>(
    b: seq<Byte>, end: nat, v: Visitor<S>, kind: int, count: nat, at: nat, s: S, fs: seq<WireField>, f: Failure)
    requires at <= end <= |b| <= MAX_SAFE_INTEGER && StopsBehind(b, end, v, kind, count, at, s, fs, f) && |fs| < count
    ensures Walk(FieldsIn(b, end, v, kind), at, count, Progress({}, s)) == Err(f)
  {
    var next, step, p := FieldsIn(b, end, v, kind), StepField(v, kind), Progress({}, s);
    FoldsAlike(v, kind, fs, at, s);
    FieldRefusedIff(b, end, v, kind, at + |EncodeFields(fs)|, Fold(EncodeField, step, fs, at, p).value, f);
    AnyFieldIsRead(b, end, v, kind);
    FailureFails(next, EncodeField, step, AnyField, b[..end], at, count, p, fs, f);
  }

  // ----- records

  /** The visitor will not have the record, or its fields stop short. */
  ghost predicate RecordRefused<S>(
    b: seq<Byte>, v: Visitor<S>, kind: int, count: nat, at: nat, end: nat, s: S, f: Failure)
    requires at + 8 <= end <= |b|
  {
    match v.enter(kind, at, end, s)
    case Err(e) => f == e
    case Ok(t) =>
      var start := at + 8;
      exists fs: seq<WireField> :: StopsBehind(b, end, v, kind, count, start, t, fs, f)
  }

  /** The first thing wrong with the record there. */
  ghost predicate RecordFault<S>(
    b: seq<Byte>, accepted: Option<set<int>>, v: Visitor<S>, at: nat, s: S, f: Failure)
  {
    if at + 8 > |b| then f == Failure(Truncated, at)
    else
      var length, kind, count := ReadLe32(b, at), ReadLe16(b, at + 4), ReadLe16(b, at + 6);
      if kind == 0 then f == Failure(InvalidKind, at + 4)
      else if at + 8 + length > |b| then f == Failure(Truncated, at + 8)
      else (accepted.Some? ==> kind in accepted.value) && RecordRefused(b, v, kind, count, at, at + 8 + length, s, f)
  }

  lemma RecordRefusedIff<S(!new)>(
    b: seq<Byte>, v: Visitor<S>, kind: int, count: nat, at: nat, end: nat, s: S, f: Failure)
    requires at + 8 <= end <= |b| <= MAX_SAFE_INTEGER
    ensures VisitRecord(FieldsIn(b, end, v, kind), v, kind, count, at, end, s) == Err(f)
       <==> RecordRefused(b, v, kind, count, at, end, s, f)
  {
    var entered := v.enter(kind, at, end, s);
    if entered.Ok? {
      var start := at + 8;
      var walked := Walk(FieldsIn(b, end, v, kind), start, count, Progress({}, entered.value));
      if FieldsEnd(walked, end) == Err(f) {
        var fs := StopFound(b, end, v, kind, count, start, entered.value, f);
      }
      forall fs: seq<WireField> | StopsBehind(b, end, v, kind, count, start, entered.value, fs, f)
        ensures FieldsEnd(walked, end) == Err(f)
      {
        StopStops(b, end, v, kind, count, start, entered.value, fs, f);
      }
    }
  }

  lemma RecordFaultIff<S(!new)>(
    b: seq<Byte>, accepted: Option<set<int>>, v: Visitor<S>, at: nat, s: S, f: Failure)
    requires |b| <= MAX_SAFE_INTEGER
    ensures NextRecord(b, accepted, v, at, s) == Err(f) <==> RecordFault(b, accepted, v, at, s, f)
  {
    if at + 8 <= |b| {
      var length, kind, count := ReadLe32(b, at), ReadLe16(b, at + 4), ReadLe16(b, at + 6);
      if at + 8 + length <= |b| {
        RecordRefusedIff(b, v, kind, count, at, at + 8 + length, s, f);
      }
    }
  }

  // ----- batches

  /** The first thing wrong with the header of a batch. */
  predicate HeaderWrong(b: seq<Byte>, f: Failure) {
    if |b| < 16 then f == Failure(Truncated, |b|)
    else if b[..4] != [0x50, 0x52, 0x4e, 0x45] then f == Failure(InvalidMagic, 0)
    else if b[4..6] != [1, 0] then f == Failure(UnsupportedFormat, 4)
    else if b[6..8] != [0, 0] then f == Failure(InvalidReservedValue, 6)
    else b[8..12] != [1, 0, 0, 0] && f == Failure(SchemaMismatch, 8)
  }

  lemma HeaderWrongIff(b: seq<Byte>, f: Failure)
    ensures HeaderFault(b) == Some(f) <==> HeaderWrong(b, f)
  {
    if |b| >= 16 {
      HeaderWords(b);
    }
  }

  lemma HeaderWords(b: seq<Byte>)
    requires |b| >= 16
    ensures ReadLe32(b, 0) == MAGIC <==> b[..4] == [0x50, 0x52, 0x4e, 0x45]
    ensures ReadLe16(b, 4) == FORMAT_VERSION <==> b[4..6] == [1, 0]
    ensures ReadLe16(b, 6) == 0 <==> b[6..8] == [0, 0]
    ensures ReadLe32(b, 8) == SCHEMA_VERSION <==> b[8..12] == [1, 0, 0, 0]
  {
    Le32RoundTrip(b, 0, MAGIC);
    Le16RoundTrip(b, 4, FORMAT_VERSION);
    Le16RoundTrip(b, 6, 0);
    Le32RoundTrip(b, 8, SCHEMA_VERSION);
    assert b[0..4] == b[..4];
    assert Le32(MAGIC) == [0x50, 0x52, 0x4e, 0x45] && Le16(FORMAT_VERSION) == [1, 0] && Le16(0) == [0, 0];
    assert Le32(SCHEMA_VERSION) == [1, 0, 0, 0];
  }

  predicate HeaderRight(b: seq<Byte>) {
    |b| >= 16 && b[..12] == [0x50, 0x52, 0x4e, 0x45, 1, 0, 0, 0, 1, 0, 0, 0]
  }

  lemma HeaderRightIff(b: seq<Byte>)
    ensures HeaderFault(b).None? <==> HeaderRight(b)
  {
    if |b| >= 16 {
      assert b[..12] == b[..4] + b[4..6] + b[6..8] + b[8..12];
      if HeaderRight(b) {
        assert b[..4] == b[..12][..4] && b[4..6] == b[..12][4..6];
        assert b[6..8] == b[..12][6..8] && b[8..12] == b[..12][8..];
      }
      if HeaderFault(b).Some? {
        HeaderWrongIff(b, HeaderFault(b).value);
      } else {
        HeaderWrongIff(b, Failure(InvalidMagic, 0));
        HeaderWrongIff(b, Failure(UnsupportedFormat, 4));
        HeaderWrongIff(b, Failure(InvalidReservedValue, 6));
        HeaderWrongIff(b, Failure(SchemaMismatch, 8));
      }
    }
  }

  /** These records are written behind the header, and behind them the batch goes on too long or has no further one. */
  ghost predicate BatchStops<S>(
    b: seq<Byte>, accepted: Option<set<int>>, v: Visitor<S>, s: S, rs: seq<WireRecord>, f: Failure)
    requires |b| >= 16
  {
    && |rs| <= ReadLe32(b, 12) && AllChosen(accepted, rs) && HoldsAt(b, 16, EncodeRecords(rs))
    && FoldRecords(v, rs, 16, s).Ok?
    && var t, next := FoldRecords(v, rs, 16, s).value, 16 + |EncodeRecords(rs)|;
       if |rs| == ReadLe32(b, 12) then next != |b| && f == Failure(TrailingBytes, next)
       else RecordFault(b, accepted, v, next, t, f)
  }

  lemma BatchStopFound<S(!new)>(b: seq<Byte>, accepted: Option<set<int>>, v: Visitor<S>, s: S, f: Failure)
    returns (rs: seq<WireRecord>)
    requires |b| <= MAX_SAFE_INTEGER && HeaderFault(b).None? && Visit(b, accepted, v, s) == Err(f)
    ensures BatchStops(b, accepted, v, s, rs, f)
  {
    var count, next := ReadLe32(b, 12), RecordsIn(b, accepted, v);
    forall at: nat, s ensures ExplainedAt(next, EncodeRecord, ApplyRecord(v), IsChosen(accepted), b, at, s) {
      RecordWasWritten(next, b, accepted, v, at, s);
    }
    if Walk(next, 16, count, s).Ok? {
      rs := WalkedIsWritten(next, EncodeRecord, ApplyRecord(v), IsChosen(accepted), b, 16, count, s);
    } else {
      rs := FailureFound(next, EncodeRecord, ApplyRecord(v), IsChosen(accepted), b, 16, count, s, f);
      RecordFaultIff(b, accepted, v, 16 + |EncodeRecords(rs)|, FoldRecords(v, rs, 16, s).value, f);
    }
  }

  lemma BatchStopStops<S(!new)>(
    b: seq<Byte>, accepted: Option<set<int>>, v: Visitor<S>, s: S, rs: seq<WireRecord>, f: Failure)
    requires |b| <= MAX_SAFE_INTEGER && HeaderFault(b).None? && BatchStops(b, accepted, v, s, rs, f)
    ensures Visit(b, accepted, v, s) == Err(f)
  {
    if |rs| == ReadLe32(b, 12) {
      RecordsAreRead(b, accepted, v);
      TrailingStops(RecordsIn(b, accepted, v), b, accepted, v, s, rs);
    } else {
      FaultStops(b, accepted, v, s, rs, f);
    }
  }

  lemma FaultStops<S(!new)>(
    b: seq<Byte>, accepted: Option<set<int>>, v: Visitor<S>, s: S, rs: seq<WireRecord>, f: Failure)
    requires 16 <= |b| <= MAX_SAFE_INTEGER && BatchStops(b, accepted, v, s, rs, f) && |rs| < ReadLe32(b, 12)
    ensures Walk(RecordsIn(b, accepted, v), 16, ReadLe32(b, 12), s) == Err(f)
  {
    var next := RecordsIn(b, accepted, v);
    RecordsAreRead(b, accepted, v);
    RecordFaultIff(b, accepted, v, 16 + |EncodeRecords(rs)|, FoldRecords(v, rs, 16, s).value, f);
    FailureFails(next, EncodeRecord, ApplyRecord(v), IsChosen(accepted), b, 16, ReadLe32(b, 12), s, rs, f);
  }

  lemma RecordsAreRead<S(!new)>(b: seq<Byte>, accepted: Option<set<int>>, v: Visitor<S>)
    requires |b| <= MAX_SAFE_INTEGER
    ensures ReadsAll(RecordsIn(b, accepted, v), EncodeRecord, ApplyRecord(v), IsChosen(accepted), b)
  {
    forall r: WireRecord, at: nat, s | IsChosen(accepted)(r)
      ensures ReadsAt(RecordsIn(b, accepted, v), EncodeRecord, ApplyRecord(v), b, r, at, s)
    {
      RecordIsRead(b, accepted, v, r, at, s);
    }
  }

  lemma TrailingStops<S(!new)>(
    next: Reader<S, Failure>, b: seq<Byte>, accepted: Option<set<int>>, v: Visitor<S>, s: S, rs: seq<WireRecord>)
    requires ReadsAll(next, EncodeRecord, ApplyRecord(v), IsChosen(accepted), b) && AllChosen(accepted, rs)
    requires HoldsAt(b, 16, EncodeRecords(rs)) && FoldRecords(v, rs, 16, s).Ok?
    ensures Walk(next, 16, |rs|, s) == Ok((FoldRecords(v, rs, 16, s).value, 16 + |EncodeRecords(rs)|))
  {
    WalkWritten(next, EncodeRecord, ApplyRecord(v), b, rs, 16, s);
  }

  /**
   * Whatever the visitor, a batch is refused exactly for the first thing wrong with it: something in the header, or
   * else, behind records and fields that are all written as they should be and taken by the visitor, a record or
   * field that is not, or bytes left over.
   */
  lemma RefusedExactly<S(!new)>(b: seq<Byte>, accepted: Option<set<int>>, v: Visitor<S>, s: S, f: Failure)
    requires |b| <= MAX_SAFE_INTEGER
    ensures Visit(b, accepted, v, s) == Err(f) <==>
            || HeaderWrong(b, f)
            || (HeaderRight(b) && exists rs: seq<WireRecord> :: BatchStops(b, accepted, v, s, rs, f))
  {
    HeaderWrongIff(b, f);
    HeaderRightIff(b);
    if HeaderRight(b) {
      if Visit(b, accepted, v, s) == Err(f) {
        var rs := BatchStopFound(b, accepted, v, s, f);
      }
      forall rs: seq<WireRecord> | BatchStops(b, accepted, v, s, rs, f) ensures Visit(b, accepted, v, s) == Err(f) {
        BatchStopStops(b, accepted, v, s, rs, f);
      }
    }
  }
}
