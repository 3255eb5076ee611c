/** The walk over an encoded event batch (`prns-js/src/event_projection.ts`). */
module EventBatch {
  import opened Bytes
  import opened CountedWalk

  const MAGIC := 0x454e5250
  const FORMAT_VERSION := 1
  const SCHEMA_VERSION := 1
  const HEADER_BYTES := 16
  const RECORD_HEADER_BYTES := 8
  const FIELD_HEADER_BYTES := 8

  /** `Number.MAX_SAFE_INTEGER`, which also bounds the length of every `Uint8Array`. */
  const MAX_SAFE_INTEGER := 0x1f_ffff_ffff_ffff

  datatype Code =
    | Truncated
    | InvalidMagic
    | UnsupportedFormat
    | SchemaMismatch
    | InvalidReservedValue
    | InvalidKind
    | InvalidFieldId
    | DuplicateField
    | UnknownWireType
    | InvalidWireLength
    | InvalidText
    | TrailingBytes

  datatype Failure = Failure(code: Code, offset: nat)

  /**
   * What a caller does on entering a record, at each field, and on leaving the record. The state is
   * threaded through; a record is given by its kind, start and end, a field by its kind, id, wire
   * type, offset and bytes.
   */
  datatype Visitor<!S> = Visitor(
    enter: (int, nat, nat, S) -> Result<S, Failure>,
    field: (int, int, int, nat, seq<Byte>, S) -> Result<S, Failure>,
    leave: (int, nat, nat, S) -> S)

  /** `checkedEnd` and `requireAvailable`: both say whether the bytes are there. */
  predicate Available(b: seq<Byte>, offset: nat, length: nat) {
    offset + length <= MAX_SAFE_INTEGER && offset + length <= |b|
  }

  // ----- the walk as a recursive reading

  datatype Field = Field(id: int, wire: int, value: seq<Byte>)

  /** The field at `offset`, in a record that ends at `recordEnd` and already holds the ids in `seen`. */
  function ReadField(b: seq<Byte>, recordEnd: nat, offset: nat, seen: set<int>): Result<Field, Failure> {
    if !Available(b, offset, FIELD_HEADER_BYTES) then Err(Failure(Truncated, offset))
    else
      var id, wire, reserved, length := ReadLe16(b, offset), b[offset + 2], b[offset + 3], ReadLe32(b, offset + 4);
      var start := offset + FIELD_HEADER_BYTES;
      if id == 0 then Err(Failure(InvalidFieldId, offset))
      else if reserved != 0 then Err(Failure(InvalidReservedValue, offset + 3))
      else if id in seen then Err(Failure(DuplicateField, offset))
      else if !Available(b, start, length) || start + length > recordEnd then Err(Failure(Truncated, start))
      else Ok(Field(id, wire, b[start..start + length]))
  }

  /** The ids of the record's fields so far, and the visitor's state. */
  datatype Progress<S> = Progress(seen: set<int>, state: S)

  function NextField<S>(b: seq<Byte>, recordEnd: nat, v: Visitor<S>, kind: int, offset: nat, p: Progress<S>)
    : Result<(Progress<S>, nat), Failure>
  {
    match ReadField(b, recordEnd, offset, p.seen)
    case Err(e) => Err(e)
    case Ok(f) =>
      var start := offset + FIELD_HEADER_BYTES;
      match v.field(kind, f.id, f.wire, start, f.value, p.state)
      case Err(e) => Err(e)
      case Ok(t) => Ok((Progress(p.seen + {f.id}, t), start + |f.value|))
  }

  function FieldsIn<S>(b: seq<Byte>, recordEnd: nat, v: Visitor<S>, kind: int): Reader<Progress<S>, Failure> {
    (offset: nat, p: Progress<S>) => NextField(b, recordEnd, v, kind, offset, p)
  }

  function VisitRecord<S>(
    fields: Reader<Progress<S>, Failure>, v: Visitor<S>, kind: int, count: nat, start: nat, end: nat, s: S)
    : Result<S, Failure>
  {
    match v.enter(kind, start, end, s)
    case Err(e) => Err(e)
    case Ok(t) =>
      match Walk(fields, start + RECORD_HEADER_BYTES, count, Progress({}, t))
      case Err(e) => Err(e)
      case Ok((p, offset)) =>
        if offset != end then Err(Failure(TrailingBytes, offset)) else Ok(v.leave(kind, start, end, p.state))
  }

  predicate Accepts(accepted: Option<set<int>>, kind: int) {
    accepted.Some? ==> kind in accepted.value
  }

  datatype Prefix = Prefix(kind: int, count: nat, end: nat)

  /** The header of the record at `offset`, and where the record ends. */
  function ReadPrefix(b: seq<Byte>, offset: nat): Result<Prefix, Failure> {
    if !Available(b, offset, RECORD_HEADER_BYTES) then Err(Failure(Truncated, offset))
    else
      var length, kind, count := ReadLe32(b, offset), ReadLe16(b, offset + 4), ReadLe16(b, offset + 6);
      var start := offset + RECORD_HEADER_BYTES;
      if kind == 0 then Err(Failure(InvalidKind, offset + 4))
      else if !Available(b, start, length) then Err(Failure(Truncated, start))
      else Ok(Prefix(kind, count, start + length))
  }

  function NextRecord<S>(b: seq<Byte>, accepted: Option<set<int>>, v: Visitor<S>, offset: nat, s: S)
    : Result<(S, nat), Failure>
  {
    match ReadPrefix(b, offset)
    case Err(e) => Err(e)
    case Ok(Prefix(kind, count, end)) =>
      if !Accepts(accepted, kind) then Ok((s, end))
      else
        match VisitRecord(FieldsIn(b, end, v, kind), v, kind, count, offset, end, s)
        case Err(e) => Err(e)
        case Ok(t) => Ok((t, end))
  }

  function RecordsIn<S>(b: seq<Byte>, accepted: Option<set<int>>, v: Visitor<S>): Reader<S, Failure> {
    (offset: nat, s: S) => NextRecord(b, accepted, v, offset, s)
  }

  function HeaderFault(b: seq<Byte>): Option<Failure> {
    if |b| < HEADER_BYTES then Some(Failure(Truncated, |b|))
    else if ReadLe32(b, 0) != MAGIC then Some(Failure(InvalidMagic, 0))
    else if ReadLe16(b, 4) != FORMAT_VERSION then Some(Failure(UnsupportedFormat, 4))
    else if ReadLe16(b, 6) != 0 then Some(Failure(InvalidReservedValue, 6))
    else if ReadLe32(b, 8) != SCHEMA_VERSION then Some(Failure(SchemaMismatch, 8))
    else None
  }

  function Visit<S>(b: seq<Byte>, accepted: Option<set<int>>, v: Visitor<S>, s: S): Result<S, Failure> {
    var fault := HeaderFault(b);
    if fault.Some? then Err(fault.value)
    else
      match Walk(RecordsIn(b, accepted, v), HEADER_BYTES, ReadLe32(b, 12), s)
      case Err(e) => Err(e)
      case Ok((t, offset)) => if offset != |b| then Err(Failure(TrailingBytes, offset)) else Ok(t)
  }

  // ----- the walk as the source runs it

  ghost predicate FieldStepAt<S>(
    next: Reader<Progress<S>, Failure>, b: seq<Byte>, recordEnd: nat, v: Visitor<S>,
    kind: int, offset: nat, p: Progress<S>)
  {
    next(offset, p) == NextField(b, recordEnd, v, kind, offset, p)
  }

  /** The reader steps through the fields of a record that ends there. */
  ghost predicate FieldSteps<S(!new)>(
    next: Reader<Progress<S>, Failure>, b: seq<Byte>, recordEnd: nat, v: Visitor<S>, kind: int)
  {
    forall offset, p :: FieldStepAt(next, b, recordEnd, v, kind, offset, p)
  }

  ghost predicate StepAt<S>(
    next: Reader<S, Failure>, b: seq<Byte>, accepted: Option<set<int>>, v: Visitor<S>, offset: nat, s: S)
  {
    next(offset, s) == NextRecord(b, accepted, v, offset, s)
  }

  /** The reader steps through the records of the batch. */
  ghost predicate Steps<S(!new)>(next: Reader<S, Failure>, b: seq<Byte>, accepted: Option<set<int>>, v: Visitor<S>) {
    forall offset, s :: StepAt(next, b, accepted, v, offset, s)
  }

  /** The checks on one field, in the source's order. */
  method CheckField(b: seq<Byte>, recordEnd: nat, offset: nat, fieldIds: set<int>) returns (r: Result<Field, Failure>)
    ensures r == ReadField(b, recordEnd, offset, fieldIds)
  {
    if !Available(b, offset, FIELD_HEADER_BYTES) {
      return Err(Failure(Truncated, offset));
    }
    var id, wire, reserved, length := ReadLe16(b, offset), b[offset + 2], b[offset + 3], ReadLe32(b, offset + 4);
    if id == 0 {
      return Err(Failure(InvalidFieldId, offset));
    }
    if reserved != 0 {
      return Err(Failure(InvalidReservedValue, offset + 3));
    }
    if id in fieldIds {
      return Err(Failure(DuplicateField, offset));
    }
    var start := offset + FIELD_HEADER_BYTES;
    if !Available(b, start, length) {
      return Err(Failure(Truncated, start));
    }
    if start + length > recordEnd {
      return Err(Failure(Truncated, start));
    }
    return Ok(Field(id, wire, b[start..start + length]));
  }

  /** One turn of the loop over the fields. */
  method FieldTurn<S(!new)>(
    b: seq<Byte>, recordEnd: nat, v: Visitor<S>, kind: int, offset: nat, p: Progress<S>,
    ghost next: Reader<Progress<S>, Failure>)
    returns (r: Result<(Progress<S>, nat), Failure>)
    requires FieldSteps(next, b, recordEnd, v, kind)
    ensures r == next(offset, p)
  {
    assert FieldStepAt(next, b, recordEnd, v, kind, offset, p);
    var field := CheckField(b, recordEnd, offset, p.seen);
    if field.Err? {
      return Err(field.error);
    }
    var start := offset + FIELD_HEADER_BYTES;
    var visited := v.field(kind, field.value.id, field.value.wire, start, field.value.value, p.state);
    if visited.Err? {
      return Err(visited.error);
    }
    return Ok((Progress(p.seen + {field.value.id}, visited.value), start + |field.value.value|));
  }

  method FieldLoop<S(!new)>(
    b: seq<Byte>, recordEnd: nat, v: Visitor<S>, kind: int, start: nat, count: nat, from: S,
    ghost next: Reader<Progress<S>, Failure>) returns (r: Result<(Progress<S>, nat), Failure>)
    requires FieldSteps(next, b, recordEnd, v, kind)
    ensures r == Walk(next, start, count, Progress({}, from))
  {
    var offset: nat, p := start, Progress({}, from);
    for i := 0 to count
      invariant Walk(next, start, count, Progress({}, from)) == Walk(next, offset, count - i, p)
    {
      var visited := FieldTurn(b, recordEnd, v, kind, offset, p, next);
      if visited.Err? {
        return Err(visited.error);
      }
      p, offset := visited.value.0, visited.value.1;
    }
    return Ok((p, offset));
  }

  /** One turn of the loop over the records. */
  method RecordTurn<S(!new)>(
    b: seq<Byte>, accepted: Option<set<int>>, v: Visitor<S>, recordStart: nat, s: S, ghost next: Reader<S, Failure>)
    returns (r: Result<(S, nat), Failure>)
    requires Steps(next, b, accepted, v)
    ensures r == next(recordStart, s)
  {
    assert StepAt(next, b, accepted, v, recordStart, s);
    var offset := recordStart;
    if !Available(b, offset, RECORD_HEADER_BYTES) {
      return Err(Failure(Truncated, offset));
    }
    var bodyBytes, kind, fieldCount := ReadLe32(b, offset), ReadLe16(b, offset + 4), ReadLe16(b, offset + 6);
    if kind == 0 {
      return Err(Failure(InvalidKind, offset + 4));
    }
    offset := offset + RECORD_HEADER_BYTES;
    if !Available(b, offset, bodyBytes) {
      return Err(Failure(Truncated, offset));
    }
    var recordEnd := offset + bodyBytes;
    if accepted.Some? && kind !in accepted.value {
      return Ok((s, recordEnd));
    }
    var entered := v.enter(kind, recordStart, recordEnd, s);
    if entered.Err? {
      return Err(entered.error);
    }
    var fields := FieldLoop(b, recordEnd, v, kind, offset, fieldCount, entered.value, FieldsIn(b, recordEnd, v, kind));
    if fields.Err? {
      return Err(fields.error);
    }
    if fields.value.1 != recordEnd {
      return Err(Failure(TrailingBytes, fields.value.1));
    }
    return Ok((v.leave(kind, recordStart, recordEnd, fields.value.0.state), recordEnd));
  }

  method RecordLoop<S(!new)>(
    b: seq<Byte>, accepted: Option<set<int>>, v: Visitor<S>, recordCount: nat, from: S, ghost next: Reader<S, Failure>)
    returns (r: Result<(S, nat), Failure>)
    requires Steps(next, b, accepted, v)
    ensures r == Walk(next, HEADER_BYTES, recordCount, from)
  {
    var offset: nat, s := HEADER_BYTES, from;
    for i := 0 to recordCount
      invariant Walk(next, HEADER_BYTES, recordCount, from) == Walk(next, offset, recordCount - i, s)
    {
      var visited := RecordTurn(b, accepted, v, offset, s, next);
      if visited.Err? {
        return Err(visited.error);
      }
      s, offset := visited.value.0, visited.value.1;
    }
    return Ok((s, offset));
  }

  method VisitBatch<S(!new)>(b: seq<Byte>, accepted: Option<set<int>>, v: Visitor<S>, from: S)
    returns (r: Result<S, Failure>)
    ensures r == Visit(b, accepted, v, from)
  {
    var fault := HeaderFault(b);
    if fault.Some? {
      return Err(fault.value);
    }
    var records := RecordLoop(b, accepted, v, ReadLe32(b, 12), from, RecordsIn(b, accepted, v));
    if records.Err? {
      return Err(records.error);
    }
    var (s, offset) := records.value;
    return if offset != |b| then Err(Failure(TrailingBytes, offset)) else Ok(s);
  }
}
