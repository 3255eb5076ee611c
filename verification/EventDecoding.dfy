/** Decoding commutes with filtering, for every batch. */
module EventDecoding {
  import opened Sequences
  import opened Bytes
  import opened CountedWalk
  import opened EventBatch
  import opened EventEncoding
  import opened EventProjection
  import opened EventFilter
  import opened EventLaws

  // ----- walks that append what each item yields

  /** What the items yield, in order, unless one of them yields nothing at all. */
  function Yield<R, P>(project: R -> Option<seq<P>>, rs: seq<R>): Option<seq<P>> {
    if rs == [] then Some([])
    else
      match (project(rs[0]), Yield(project, rs[1..]))
      case (Some(first), Some(rest)) => Some(first + rest)
      case _ => None
  }

  ghost predicate AppendsAt<R, S, P, E>(
    apply: (R, nat, S) -> Result<S, E>, view: S -> seq<P>, project: R -> Option<seq<P>>, r: R, at: nat, s: S)
  {
    match project(r)
    case None => apply(r, at, s).Err?
    case Some(ps) => apply(r, at, s).Ok? && view(apply(r, at, s).value) == view(s) + ps
  }

  lemma {:induction false} FoldAppends<R, S(!new), P, E>(
    encode: R -> seq<Byte>, apply: (R, nat, S) -> Result<S, E>, view: S -> seq<P>, project: R -> Option<seq<P>>,
    rs: seq<R>, at: nat, s: S)
    requires forall i, at, s :: 0 <= i < |rs| ==> AppendsAt(apply, view, project, rs[i], at, s)
    ensures var r := Fold(encode, apply, rs, at, s);
            match Yield(project, rs)
            case None => r.Err?
            case Some(ps) => r.Ok? && view(r.value) == view(s) + ps
    decreases |rs|
  {
    if rs == [] {
      assert view(s) + [] == view(s);
    } else {
      assert AppendsAt(apply, view, project, rs[0], at, s);
      var first := apply(rs[0], at, s);
      if first.Ok? {
        FoldAppends(encode, apply, view, project, rs[1..], at + |encode(rs[0])|, first.value);
        var rest := Yield(project, rs[1..]);
        if rest.Some? {
          Regroup(view(s), project(rs[0]).value, rest.value);
        }
      }
    }
  }

  lemma {:induction false} FilteredConcat<P>(keep: P -> bool, x: seq<P>, y: seq<P>)
    ensures Filtered(keep, x + y) == Filtered(keep, x) + Filtered(keep, y)
  {
    if x == [] {
      assert x + y == y;
    } else {
      assert (x + y)[1..] == x[1..] + y;
      FilteredConcat(keep, x[1..], y);
    }
  }

  ghost predicate YieldsLike<R, P>(project: R -> Option<seq<P>>, keep: R -> bool, wanted: P -> bool, r: R) {
    project(r).Some? ==> Filtered(wanted, project(r).value) == if keep(r) then project(r).value else []
  }

  /** Filtering what is yielded is yielding from the filtered items. */
  lemma {:induction false} YieldFiltered<R, P>(
    project: R -> Option<seq<P>>, keep: R -> bool, wanted: P -> bool, rs: seq<R>)
    requires Yield(project, rs).Some? && forall r :: r in rs ==> YieldsLike(project, keep, wanted, r)
    ensures Yield(project, Filtered(keep, rs)) == Some(Filtered(wanted, Yield(project, rs).value))
  {
    if rs != [] {
      assert rs[0] in rs;
      YieldFiltered(project, keep, wanted, rs[1..]);
      FilteredConcat(wanted, project(rs[0]).value, Yield(project, rs[1..]).value);
      var kept, rest := Filtered(keep, rs[1..]), Filtered(wanted, Yield(project, rs[1..]).value);
      assert ([rs[0]] + kept)[1..] == kept && [] + rest == rest;
    }
  }

  function Mapped<R, Q>(f: R -> Q, rs: seq<R>): (r: seq<Q>)
    ensures |r| == |rs|
    ensures forall i :: 0 <= i < |rs| ==> r[i] == f(rs[i])
  {
    if rs == [] then [] else [f(rs[0])] + Mapped(f, rs[1..])
  }

  lemma {:induction false} MappedEncoding<R>(encode: R -> seq<Byte>, f: R -> R, rs: seq<R>)
    requires forall r :: r in rs ==> encode(f(r)) == encode(r)
    ensures Concat(encode, Mapped(f, rs)) == Concat(encode, rs)
  {
    if rs != [] {
      assert rs[0] in rs;
      MappedEncoding(encode, f, rs[1..]);
      assert ([f(rs[0])] + Mapped(f, rs[1..]))[1..] == Mapped(f, rs[1..]);
    }
  }

  /** Items replaced by ones that yield nothing might as well be filtered out. */
  lemma {:induction false} YieldMasked<R, P>(project: R -> Option<seq<P>>, keep: R -> bool, mask: R -> R, rs: seq<R>)
    requires forall r :: r in rs ==> project(mask(r)) == if keep(r) then project(r) else Some([])
    ensures Yield(project, Mapped(mask, rs)) == Yield(project, Filtered(keep, rs))
  {
    if rs != [] {
      assert rs[0] in rs;
      YieldMasked(project, keep, mask, rs[1..]);
      var kept, masked := Filtered(keep, rs[1..]), Mapped(mask, rs[1..]);
      assert ([rs[0]] + kept)[1..] == kept && ([mask(rs[0])] + masked)[1..] == masked;
      var rest := Yield(project, kept);
      if rest.Some? {
        assert [] + rest.value == rest.value;
      }
    }
  }

  // ----- numbers

  function LittleEndian(s: seq<Byte>): nat {
    if s == [] then 0 else s[0] as int + 0x100 * LittleEndian(s[1..])
  }

  lemma LittleEndianCons(x: Byte, s: seq<Byte>)
    ensures LittleEndian([x] + s) == x as int + 0x100 * LittleEndian(s)
  {
    assert ([x] + s)[1..] == s;
  }

  lemma FourBytesFirst(s: seq<Byte>, at: nat)
    requires at + 4 <= |s|
    ensures LittleEndian(s[at..]) == ReadLe32(s, at) + U32_LIMIT * LittleEndian(s[at + 4..])
  {
    assert s[at..] == [s[at]] + s[at + 1..] && s[at + 1..] == [s[at + 1]] + s[at + 2..];
    assert s[at + 2..] == [s[at + 2]] + s[at + 3..] && s[at + 3..] == [s[at + 3]] + s[at + 4..];
    LittleEndianCons(s[at], s[at + 1..]);
    LittleEndianCons(s[at + 1], s[at + 2..]);
    LittleEndianCons(s[at + 2], s[at + 3..]);
    LittleEndianCons(s[at + 3], s[at + 4..]);
  }

  /** Both widths of number decode to the little-endian value of all their bytes. */
  lemma NumbersAreLittleEndian(text: TextDecoder, offset: nat, value: seq<Byte>)
    ensures |value| == 8 ==> DecodeValue(text, 3, offset, value) == Ok(Number(LittleEndian(value)))
    ensures |value| == 16 ==> DecodeValue(text, 4, offset, value) == Ok(Number(LittleEndian(value)))
  {
    assert value[0..] == value;
    if |value| == 8 {
      FourBytesFirst(value, 0);
      FourBytesFirst(value, 4);
      assert value[8..] == [];
    } else if |value| == 16 {
      FourBytesFirst(value, 0);
      FourBytesFirst(value, 4);
      FourBytesFirst(value, 8);
      FourBytesFirst(value, 12);
      assert value[16..] == [];
    }
  }

  // ----- what a batch decodes to

  function FieldEntry(text: TextDecoder): WireField -> Option<seq<Entry>> {
    (f: WireField) =>
      match DecodeValue(text, f.wire, 0, f.value)
      case Err(_) => None
      case Ok(x) => Some([Entry(f.id, x)])
  }

  /** The event a record denotes: its fields in wire order. */
  function RecordEvent(text: TextDecoder): WireRecord -> Option<seq<Projection>> {
    (r: WireRecord) =>
      if r.Skipped? then Some([])
      else
        match Yield(FieldEntry(text), r.fields)
        case None => None
        case Some(fields) => Some([Projection(r.kind, fields)])
  }

  predicate Absent(fields: seq<Entry>, fs: seq<Field>) {
    forall i, j :: 0 <= i < |fields| && 0 <= j < |fs| ==> fields[i].id != fs[j].id
  }

  lemma {:induction false} PutFresh(fields: seq<Entry>, id: int, value: Value)
    requires forall i :: 0 <= i < |fields| ==> fields[i].id != id
    ensures Put(fields, id, value) == fields + [Entry(id, value)]
  {
    if fields != [] {
      PutFresh(fields[1..], id, value);
    }
  }

  lemma FieldDecodes(text: TextDecoder, kind: int, f: WireField, at: nat, d: Decoding)
    requires forall i :: 0 <= i < |d.fields| ==> d.fields[i].id != f.id
    ensures var r := ApplyField(Decoder(text), kind)(f, at, d);
            match FieldEntry(text)(f)
            case None => r.Err?
            case Some(entry) => r == Ok(d.(fields := d.fields + entry))
  {
    var x := DecodeValue(text, f.wire, 0, f.value);
    if x.Ok? {
      PutFresh(d.fields, f.id, x.value);
    }
  }

  lemma {:induction false} FieldsDecode(text: TextDecoder, kind: int, fs: seq<WireField>, at: nat, d: Decoding)
    requires DistinctIds(fs) && Absent(d.fields, fs)
    ensures var r := FoldFields(Decoder(text), kind, fs, at, d);
            match Yield(FieldEntry(text), fs)
            case None => r.Err?
            case Some(fields) => r == Ok(d.(fields := d.fields + fields))
    decreases |fs|
  {
    if fs == [] {
      assert d.fields + [] == d.fields;
    } else {
      var f, entry := fs[0], FieldEntry(text)(fs[0]);
      FieldDecodes(text, kind, f, at, d);
      if entry.Some? {
        FieldsDecode(text, kind, fs[1..], at + |EncodeField(f)|, d.(fields := d.fields + entry.value));
        var rest := Yield(FieldEntry(text), fs[1..]);
        if rest.Some? {
          Regroup(d.fields, entry.value, rest.value);
        }
      }
    }
  }

  function Records(d: Decoding): seq<Projection> {
    d.records
  }

  lemma RecordDecodes(text: TextDecoder, r: WireRecord, at: nat, d: Decoding)
    ensures AppendsAt(ApplyRecord(Decoder(text)), Records, RecordEvent(text), r, at, d)
  {
    if r.Read? {
      var cleared := d.(fields := []);
      FieldsDecode(text, r.kind, r.fields, at + RECORD_HEADER_BYTES, cleared);
      var fields := Yield(FieldEntry(text), r.fields);
      if fields.Some? {
        assert [] + fields.value == fields.value;
      }
    } else {
      assert d.records + [] == d.records;
    }
  }

  lemma RecordsDecode(text: TextDecoder, rs: seq<WireRecord>, at: nat, d: Decoding)
    ensures var r := FoldRecords(Decoder(text), rs, at, d);
            match Yield(RecordEvent(text), rs)
            case None => r.Err?
            case Some(ps) => r.Ok? && r.value.records == d.records + ps
  {
    var apply, project := ApplyRecord(Decoder(text)), RecordEvent(text);
    forall i, at: nat, d | 0 <= i < |rs| ensures AppendsAt(apply, Records, project, rs[i], at, d) {
      RecordDecodes(text, rs[i], at, d);
    }
    FoldAppends(EncodeRecord, apply, Records, project, rs, at, d);
  }

  /** Decoding an encoded batch gives the events its accepted records denote. */
  lemma DecodeEncoded(text: TextDecoder, rs: seq<WireRecord>, accepted: Option<set<int>>)
    requires |rs| < U32_LIMIT && AllChosen(accepted, rs) && |EncodeBatch(rs)| <= MAX_SAFE_INTEGER
    ensures match Yield(RecordEvent(text), rs)
            case None => Decode(text, EncodeBatch(rs), accepted).Err?
            case Some(ps) => Decode(text, EncodeBatch(rs), accepted) == Ok(ps)
  {
    VisitEncoded(rs, accepted, Decoder(text), Decoding([], []));
    RecordsDecode(text, rs, HEADER_BYTES, Decoding([], []));
    var ps := Yield(RecordEvent(text), rs);
    if ps.Some? {
      assert [] + ps.value == ps.value;
    }
  }

  lemma DecodedIsEncoded(text: TextDecoder, b: seq<Byte>, accepted: Option<set<int>>) returns (rs: seq<WireRecord>)
    requires |b| <= MAX_SAFE_INTEGER && Decode(text, b, accepted).Ok?
    ensures |rs| < U32_LIMIT && AllChosen(accepted, rs) && b == EncodeBatch(rs)
    ensures Yield(RecordEvent(text), rs) == Some(Decode(text, b, accepted).value)
  {
    rs := VisitedIsEncoded(b, accepted, Decoder(text), Decoding([], []));
    DecodeEncoded(text, rs, accepted);
  }

  // ----- what fields and records mean, apart from the decoder

  /** Wire type 1 carries octets, 2 a text, 3 a number in eight bytes and 4 a number in sixteen, both little-endian. */
  predicate Denotes(text: TextDecoder, f: Field, v: Value) {
    match v
    case Octets(bytes) => f.wire == 1 && f.value == bytes
    case Text(t) => f.wire == 2 && text(f.value) == Some(t)
    case Number(n) =>
      ((f.wire == 3 && |f.value| == 8) || (f.wire == 4 && |f.value| == 16)) && LittleEndian(f.value) == n
  }

  /** A field decodes to what it denotes; otherwise the failure tells what its wire type asked for. */
  lemma DecodeValueIff(text: TextDecoder, f: Field, offset: nat, v: Value)
    ensures DecodeValue(text, f.wire, offset, f.value) == Ok(v) <==> Denotes(text, f, v)
    ensures DecodeValue(text, f.wire, offset, f.value).Err? ==>
              DecodeValue(text, f.wire, offset, f.value).error
              == Failure(if f.wire == 2 then InvalidText else if f.wire in {3, 4} then InvalidWireLength
                         else UnknownWireType, offset)
  {
    NumbersAreLittleEndian(text, offset, f.value);
  }

  /** The same ids in the same order, each with the value its field denotes. */
  predicate FieldsDenote(text: TextDecoder, fs: seq<Field>, entries: seq<Entry>) {
    && |fs| == |entries|
    && forall i :: 0 <= i < |fs| ==> entries[i].id == fs[i].id && Denotes(text, fs[i], entries[i].value)
  }

  /** One event for each record that is read, in order, of the same kind and with the fields it denotes. */
  predicate RecordsDenote(text: TextDecoder, rs: seq<Record>, ps: seq<Projection>) {
    if rs == [] then ps == []
    else if rs[0].Skipped? then RecordsDenote(text, rs[1..], ps)
    else
      && ps != [] && ps[0].kind == rs[0].kind && FieldsDenote(text, rs[0].fields, ps[0].fields)
      && RecordsDenote(text, rs[1..], ps[1..])
  }

  lemma {:induction false} YieldsFields(text: TextDecoder, fs: seq<WireField>, entries: seq<Entry>)
    ensures Yield(FieldEntry(text), fs) == Some(entries) <==> FieldsDenote(text, fs, entries)
    decreases |fs|
  {
    if fs != [] {
      var f, rest := fs[0], Yield(FieldEntry(text), fs[1..]);
      if rest.Some? {
        YieldsFields(text, fs[1..], rest.value);
        if FieldEntry(text)(f).Some? {
          DecodeValueIff(text, f, 0, FieldEntry(text)(f).value[0].value);
        }
      }
      if entries != [] {
        YieldsFields(text, fs[1..], entries[1..]);
        DecodeValueIff(text, f, 0, entries[0].value);
        FieldsCons(text, fs, entries);
        assert entries[0].id == f.id ==> [Entry(f.id, entries[0].value)] + entries[1..] == entries;
      }
    }
  }

  lemma FieldsCons(text: TextDecoder, fs: seq<Field>, entries: seq<Entry>)
    requires fs != [] && entries != []
    ensures FieldsDenote(text, fs, entries) <==>
            && entries[0].id == fs[0].id && Denotes(text, fs[0], entries[0].value)
            && FieldsDenote(text, fs[1..], entries[1..])
  {
    assert forall i :: 0 < i < |fs| ==> fs[i] == fs[1..][i - 1];
    assert forall i :: 0 < i < |entries| ==> entries[i] == entries[1..][i - 1];
  }

  lemma {:induction false} YieldsRecords(text: TextDecoder, rs: seq<WireRecord>, ps: seq<Projection>)
    ensures Yield(RecordEvent(text), rs) == Some(ps) <==> RecordsDenote(text, rs, ps)
    decreases |rs|
  {
    if rs != [] {
      var r, rest := rs[0], Yield(RecordEvent(text), rs[1..]);
      if r.Skipped? {
        YieldsRecords(text, rs[1..], ps);
        assert rest.Some? ==> [] + rest.value == rest.value;
      } else {
        var fields := Yield(FieldEntry(text), r.fields);
        if fields.Some? && rest.Some? && [Projection(r.kind, fields.value)] + rest.value == ps {
          assert ps[1..] == rest.value;
        }
        if ps != [] {
          YieldsRecords(text, rs[1..], ps[1..]);
          YieldsFields(text, r.fields, ps[0].fields);
          assert ps == [ps[0]] + ps[1..];
        }
      }
    }
  }

  /**
   * A batch decodes to these events if and only if it encodes records that denote them: of the accepted kinds, in
   * order, field by field.
   */
  lemma DecodeExact(text: TextDecoder, b: seq<Byte>, accepted: Option<set<int>>, ps: seq<Projection>)
    requires |b| <= MAX_SAFE_INTEGER
    ensures Decode(text, b, accepted) == Ok(ps) <==>
            exists rs: seq<WireRecord> ::
              && |rs| < U32_LIMIT && AllChosen(accepted, rs) && b == EncodeBatch(rs)
              && RecordsDenote(text, rs, ps)
  {
    if Decode(text, b, accepted) == Ok(ps) {
      var rs := DecodedIsEncoded(text, b, accepted);
      YieldsRecords(text, rs, ps);
    }
    forall rs: seq<WireRecord> |
      |rs| < U32_LIMIT && AllChosen(accepted, rs) && b == EncodeBatch(rs) && RecordsDenote(text, rs, ps)
      ensures Decode(text, b, accepted) == Ok(ps)
    {
      YieldsRecords(text, rs, ps);
      DecodeEncoded(text, rs, accepted);
    }
  }

  // ----- writing events down

  type TextEncoder = string -> seq<Byte>

  function Le64(n: nat): (r: seq<Byte>)
    requires n < U64_LIMIT
    ensures |r| == 8
  {
    Le32(n % U32_LIMIT) + Le32(n / U32_LIMIT)
  }

  lemma Le64Value(n: nat, rest: seq<Byte>)
    requires n < U64_LIMIT
    ensures LittleEndian(Le64(n) + rest) == n + U64_LIMIT * LittleEndian(rest)
  {
    var s := Le64(n) + rest;
    assert s[0..4] == Le32(n % U32_LIMIT) && s[4..8] == Le32(n / U32_LIMIT) && s[0..] == s && s[8..] == rest;
    Le32RoundTrip(s, 0, n % U32_LIMIT);
    Le32RoundTrip(s, 4, n / U32_LIMIT);
    FourBytesFirst(s, 0);
    FourBytesFirst(s, 4);
  }

  /** The wire type and the bytes of a value; a number takes sixteen bytes only if it has to. */
  function WriteValue(encode: TextEncoder, v: Value): (int, seq<Byte>)
    requires v.Number? ==> v.value < U64_LIMIT * U64_LIMIT
  {
    match v
    case Octets(bytes) => (1, bytes)
    case Text(t) => (2, encode(t))
    case Number(n) => if n < U64_LIMIT then (3, Le64(n)) else (4, Le64(n % U64_LIMIT) + Le64(n / U64_LIMIT))
  }

  predicate Writable(encode: TextEncoder, e: Entry) {
    && (e.value.Number? ==> e.value.value < U64_LIMIT * U64_LIMIT)
    && 0 < e.id < U16_LIMIT && |WriteValue(encode, e.value).1| < U32_LIMIT
  }

  function WriteField(encode: TextEncoder, e: Entry): WireField
    requires Writable(encode, e)
  {
    Field(e.id, WriteValue(encode, e.value).0, WriteValue(encode, e.value).1)
  }

  predicate AllWritable(encode: TextEncoder, entries: seq<Entry>) {
    forall i :: 0 <= i < |entries| ==> Writable(encode, entries[i])
  }

  function WriteFields(encode: TextEncoder, entries: seq<Entry>): (r: seq<WireField>)
    requires AllWritable(encode, entries)
    ensures |r| == |entries|
  {
    seq(|entries|, i requires 0 <= i < |entries| => WriteField(encode, entries[i]))
  }

  predicate WritableEvent(encode: TextEncoder, p: Projection) {
    AllWritable(encode, p.fields) && FitsRecord(Read(p.kind, WriteFields(encode, p.fields)))
  }

  predicate WritableEvents(encode: TextEncoder, ps: seq<Projection>) {
    forall i :: 0 <= i < |ps| ==> WritableEvent(encode, ps[i])
  }

  function WriteEvents(encode: TextEncoder, ps: seq<Projection>): (r: seq<WireRecord>)
    requires WritableEvents(encode, ps)
    ensures |r| == |ps|
  {
    if ps == [] then []
    else
      assert WritableEvent(encode, ps[0]);
      [Read(ps[0].kind, WriteFields(encode, ps[0].fields))] + WriteEvents(encode, ps[1..])
  }

  lemma WrittenDenotes(encode: TextEncoder, text: TextDecoder, e: Entry)
    requires Writable(encode, e) && (e.value.Text? ==> text(encode(e.value.text)) == Some(e.value.text))
    ensures Denotes(text, WriteField(encode, e), e.value)
  {
    if e.value.Number? {
      var n := e.value.value;
      if n < U64_LIMIT {
        Le64Value(n, []);
        assert Le64(n) + [] == Le64(n);
      } else {
        Le64Value(n % U64_LIMIT, Le64(n / U64_LIMIT));
        Le64Value(n / U64_LIMIT, []);
        assert Le64(n / U64_LIMIT) + [] == Le64(n / U64_LIMIT);
      }
    }
  }

  lemma {:induction false} WrittenRecords(encode: TextEncoder, text: TextDecoder, ps: seq<Projection>)
    requires WritableEvents(encode, ps) && forall t :: text(encode(t)) == Some(t)
    ensures RecordsDenote(text, WriteEvents(encode, ps), ps) && AllChosen(None, WriteEvents(encode, ps))
    decreases |ps|
  {
    if ps != [] {
      var p, rs := ps[0], WriteEvents(encode, ps);
      assert WritableEvent(encode, p);
      forall i | 0 <= i < |p.fields| ensures Denotes(text, WriteFields(encode, p.fields)[i], p.fields[i].value) {
        WrittenDenotes(encode, text, p.fields[i]);
      }
      WrittenRecords(encode, text, ps[1..]);
      assert rs[1..] == WriteEvents(encode, ps[1..]);
    }
  }

  /** Events written down decode to the same events, for every pair of text coders that fit together. */
  lemma EventsReadBack(encode: TextEncoder, text: TextDecoder, ps: seq<Projection>)
    requires forall t :: text(encode(t)) == Some(t)
    requires WritableEvents(encode, ps) && |ps| < U32_LIMIT
    requires |EncodeBatch(WriteEvents(encode, ps))| <= MAX_SAFE_INTEGER
    ensures Decode(text, EncodeBatch(WriteEvents(encode, ps)), None) == Ok(ps)
  {
    var rs := WriteEvents(encode, ps);
    WrittenRecords(encode, text, ps);
    DecodeExact(text, EncodeBatch(rs), None, ps);
  }

  // ----- filtering and decoding

  function HasKind(kinds: set<int>): Projection -> bool {
    (p: Projection) => p.kind in kinds
  }

  /** The record as the walk sees it when its kind is not wanted. */
  function Mask(kinds: set<int>): WireRecord -> WireRecord {
    (r: WireRecord) => if r.kind in kinds then r else Skipped(r.kind, Count(r), Body(r))
  }

  lemma MaskedBatch(text: TextDecoder, rs: seq<WireRecord>, kinds: set<int>)
    requires |rs| < U32_LIMIT && AllRead(rs)
    ensures var masked := Mapped(Mask(kinds), rs);
            && EncodeBatch(masked) == EncodeBatch(rs)
            && AllChosen(Some(kinds), masked)
            && Yield(RecordEvent(text), masked) == Yield(RecordEvent(text), Filtered(OfKinds(kinds), rs))
  {
    forall r | r in rs ensures EncodeRecord(Mask(kinds)(r)) == EncodeRecord(r) {
      MaskKeepsEncoding(r, kinds);
    }
    MappedEncoding(EncodeRecord, Mask(kinds), rs);
    MaskedEvents(text, rs, kinds);
    MaskedChosen(rs, kinds);
  }

  lemma MaskKeepsEncoding(r: WireRecord, kinds: set<int>)
    ensures EncodeRecord(Mask(kinds)(r)) == EncodeRecord(r)
  {
    var masked := Mask(kinds)(r);
    assert Body(masked) == Body(r) && Count(masked) == Count(r) && masked.kind == r.kind;
  }

  lemma MaskedEvents(text: TextDecoder, rs: seq<WireRecord>, kinds: set<int>)
    ensures Yield(RecordEvent(text), Mapped(Mask(kinds), rs)) == Yield(RecordEvent(text), Filtered(OfKinds(kinds), rs))
  {
    YieldMasked(RecordEvent(text), OfKinds(kinds), Mask(kinds), rs);
  }

  lemma MaskedChosen(rs: seq<WireRecord>, kinds: set<int>)
    requires AllRead(rs)
    ensures AllChosen(Some(kinds), Mapped(Mask(kinds), rs))
  {
    var masked := Mapped(Mask(kinds), rs);
    forall i | 0 <= i < |masked| ensures Chosen(Some(kinds), masked[i]) {
      assert masked[i] == Mask(kinds)(rs[i]);
    }
  }

  lemma EventsFiltered(text: TextDecoder, rs: seq<WireRecord>, kinds: set<int>)
    requires Yield(RecordEvent(text), rs).Some?
    ensures Yield(RecordEvent(text), Filtered(OfKinds(kinds), rs))
         == Some(Filtered(HasKind(kinds), Yield(RecordEvent(text), rs).value))
  {
    forall r | r in rs ensures YieldsLike(RecordEvent(text), OfKinds(kinds), HasKind(kinds), r) {
    }
    YieldFiltered(RecordEvent(text), OfKinds(kinds), HasKind(kinds), rs);
  }

  /**
   * For every batch that decodes, three ways to get the events of some kinds agree: filter the batch
   * and decode it, decode it and filter the events, or tell the decoder which kinds to accept.
   */
  lemma RetainCommutesWithDecode(text: TextDecoder, b: seq<Byte>, kinds: set<int>)
    requires |b| <= MAX_SAFE_INTEGER && Decode(text, b, None).Ok?
    ensures var wanted := Ok(Filtered(HasKind(kinds), Decode(text, b, None).value));
            && Retain(b, kinds).Ok?
            && Decode(text, Retain(b, kinds).value, None) == wanted
            && Decode(text, b, Some(kinds)) == wanted
  {
    var rs := DecodedIsEncoded(text, b, None);
    EncodedIsRead(rs);
    RetainEncoded(rs, kinds);
    EventsFiltered(text, rs, kinds);
    var kept := Filtered(OfKinds(kinds), rs);
    FilteredRead(rs, OfKinds(kinds));
    FilteredShorter(EncodeRecord, OfKinds(kinds), rs);
    DecodeEncoded(text, kept, None);
    MaskedBatch(text, rs, kinds);
    DecodeEncoded(text, Mapped(Mask(kinds), rs), Some(kinds));
  }
}
