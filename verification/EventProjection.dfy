/** Decoding, summarizing and filtering an event batch (`prns-js/src/event_projection.ts`). */
module EventProjection {
  import opened Bytes
  import opened EventBatch

  // ----- decoding

  datatype Value = Octets(bytes: seq<Byte>) | Text(text: string) | Number(value: nat)

  datatype Entry = Entry(id: int, value: Value)

  /** A decoded event; the fields of its map, in insertion order. */
  datatype Projection = Projection(kind: int, fields: seq<Entry>)

  /** `new TextDecoder("utf-8", { fatal: true }).decode`, which may refuse. */
  type TextDecoder = seq<Byte> -> Option<string>

  /** `getBigUint64(at, true)`. */
  function ReadLe64(b: seq<Byte>, at: nat): (n: nat)
    requires at + 8 <= |b|
  {
    ReadLe32(b, at) + U32_LIMIT * ReadLe32(b, at + 4)
  }

  const U64_LIMIT := 0x1_0000_0000_0000_0000

  function DecodeValue(text: TextDecoder, wire: int, offset: nat, value: seq<Byte>): Result<Value, Failure> {
    if wire == 1 then Ok(Octets(value))
    else if wire == 2 then
      match text(value)
      case None => Err(Failure(InvalidText, offset))
      case Some(t) => Ok(Text(t))
    else if wire == 3 then
      if |value| != 8 then Err(Failure(InvalidWireLength, offset)) else Ok(Number(ReadLe64(value, 0)))
    else if wire == 4 then
      if |value| != 16 then Err(Failure(InvalidWireLength, offset))
      else Ok(Number(ReadLe64(value, 0) + U64_LIMIT * ReadLe64(value, 8)))
    else Err(Failure(UnknownWireType, offset))
  }

  /** `Map.set`: a known id keeps its place. */
  function Put(fields: seq<Entry>, id: int, value: Value): seq<Entry> {
    if fields == [] then [Entry(id, value)]
    else if fields[0].id == id then [Entry(id, value)] + fields[1..]
    else [fields[0]] + Put(fields[1..], id, value)
  }

  datatype Decoding = Decoding(records: seq<Projection>, fields: seq<Entry>)

  function DecodeField(text: TextDecoder, id: int, wire: int, offset: nat, value: seq<Byte>, d: Decoding)
    : Result<Decoding, Failure>
  {
    match DecodeValue(text, wire, offset, value)
    case Err(e) => Err(e)
    case Ok(x) => Ok(d.(fields := Put(d.fields, id, x)))
  }

  function Decoder(text: TextDecoder): Visitor<Decoding> {
    Visitor(
      (kind: int, start: nat, end: nat, d: Decoding) => Ok(d.(fields := [])),
      (kind: int, id: int, wire: int, offset: nat, value: seq<Byte>, d: Decoding) =>
        DecodeField(text, id, wire, offset, value, d),
      (kind: int, start: nat, end: nat, d: Decoding) => d.(records := d.records + [Projection(kind, d.fields)]))
  }

  function Decode(text: TextDecoder, b: seq<Byte>, accepted: Option<set<int>>): Result<seq<Projection>, Failure> {
    match Visit(b, accepted, Decoder(text), Decoding([], []))
    case Err(e) => Err(e)
    case Ok(d) => Ok(d.records)
  }

  method DecodeBatch(text: TextDecoder, b: seq<Byte>, accepted: Option<set<int>>)
    returns (r: Result<seq<Projection>, Failure>)
    ensures r == Decode(text, b, accepted)
  {
    var visited := VisitBatch(b, accepted, Decoder(text), Decoding([], []));
    return if visited.Err? then Err(visited.error) else Ok(visited.value.records);
  }

  // ----- summarizing

  const APPLICATION_KINDS: set<int> := set kind: int | 100 <= kind <= 108
  const DIAGNOSTIC_KINDS: set<int> := set kind: int | 200 <= kind <= 219

  const SINGLE_DELIVERY := 100
  const REQUEST := 101
  const RESPONSE := 102
  const RESPONSE_SEGMENT := 103
  const RESOURCE_AVAILABLE := 104
  const RESOURCE_SEGMENT := 105
  const RESOURCE_NEEDS_DECOMPRESSION := 106
  const CHANNEL_MESSAGE := 107
  const LINK_DELIVERY := 108

  const PLAINTEXT := 3
  const DATA := 9
  const METADATA := 14
  const STREAM := 31

  predicate RetainsField(kind: int, field: int) {
    if kind == SINGLE_DELIVERY || kind == LINK_DELIVERY then field == PLAINTEXT
    else if kind == REQUEST || kind == RESPONSE || kind == RESPONSE_SEGMENT || kind == CHANNEL_MESSAGE then
      field == DATA
    else if kind == RESOURCE_AVAILABLE || kind == RESOURCE_SEGMENT then field == DATA || field == METADATA
    else if kind == RESOURCE_NEEDS_DECOMPRESSION then field == STREAM
    else false
  }

  function CheckedTotal(total: int, added: int, offset: nat): Result<int, Failure> {
    if total + added > MAX_SAFE_INTEGER then Err(Failure(InvalidWireLength, offset)) else Ok(total + added)
  }

  datatype Summary = Summary(applicationEvents: nat, diagnostics: nat, retainedEventBytes: nat)

  function CountKind(kind: int, start: nat, s: Summary): Result<Summary, Failure> {
    if kind in APPLICATION_KINDS then Ok(s.(applicationEvents := s.applicationEvents + 1))
    else if kind in DIAGNOSTIC_KINDS then Ok(s.(diagnostics := s.diagnostics + 1))
    else Err(Failure(InvalidKind, start + 4))
  }

  function CountField(kind: int, id: int, offset: nat, value: seq<Byte>, s: Summary): Result<Summary, Failure> {
    if !RetainsField(kind, id) then Ok(s)
    else
      match CheckedTotal(s.retainedEventBytes, |value|, offset)
      case Err(e) => Err(e)
      case Ok(total) => Ok(s.(retainedEventBytes := total))
  }

  function Summarizer(): Visitor<Summary> {
    Visitor(
      (kind: int, start: nat, end: nat, s: Summary) => CountKind(kind, start, s),
      (kind: int, id: int, wire: int, offset: nat, value: seq<Byte>, s: Summary) =>
        CountField(kind, id, offset, value, s),
      (kind: int, start: nat, end: nat, s: Summary) => s)
  }

  function Summarize(b: seq<Byte>): Result<Summary, Failure> {
    Visit(b, None, Summarizer(), Summary(0, 0, 0))
  }

  method SummarizeBatch(b: seq<Byte>) returns (r: Result<Summary, Failure>)
    ensures r == Summarize(b)
  {
    r := VisitBatch(b, None, Summarizer(), Summary(0, 0, 0));
  }

  // ----- filtering

  datatype Span = Span(start: nat, end: nat)

  function Keep(kinds: set<int>, kind: int, start: nat, end: nat, spans: seq<Span>): seq<Span> {
    if kind in kinds then spans + [Span(start, end)] else spans
  }

  function Keeper(kinds: set<int>): Visitor<seq<Span>> {
    Visitor(
      (kind: int, start: nat, end: nat, spans: seq<Span>) => Ok(spans),
      (kind: int, id: int, wire: int, offset: nat, value: seq<Byte>, spans: seq<Span>) => Ok(spans),
      (kind: int, start: nat, end: nat, spans: seq<Span>) => Keep(kinds, kind, start, end, spans))
  }

  /** `subarray`, which clamps its bounds. */
  function Subarray(b: seq<Byte>, span: Span): seq<Byte> {
    if span.start <= span.end <= |b| then b[span.start..span.end]
    else if span.start <= |b| < span.end then b[span.start..]
    else []
  }

  /** The bytes of the spans, one after another. */
  function Pieces(b: seq<Byte>, spans: seq<Span>): seq<Byte> {
    if spans == [] then [] else Subarray(b, spans[0]) + Pieces(b, spans[1..])
  }

  /** The checked sum of the spans' lengths. */
  function TotalFrom(spans: seq<Span>, total: int): Result<int, Failure> {
    if spans == [] then Ok(total)
    else
      match CheckedTotal(total, spans[0].end - spans[0].start, spans[0].start)
      case Err(e) => Err(e)
      case Ok(t) => TotalFrom(spans[1..], t)
  }

  const COUNT_OFFSET := 12

  /** The conversion `setUint32` makes. */
  function ToUint32(n: nat): (r: int)
    ensures 0 <= r < U32_LIMIT
  {
    if n < U32_LIMIT then n else n % U32_LIMIT
  }

  /** A copy of the header with the new count, then the spans. */
  function Rebuild(b: seq<Byte>, spans: seq<Span>): Result<seq<Byte>, Failure>
    requires HEADER_BYTES <= |b|
  {
    match TotalFrom(spans, HEADER_BYTES)
    case Err(e) => Err(e)
    case Ok(_) => Ok(b[..COUNT_OFFSET] + Le32(ToUint32(|spans|)) + Pieces(b, spans))
  }

  /** The batch holding only the records of these kinds. */
  function Retain(b: seq<Byte>, kinds: set<int>): Result<seq<Byte>, Failure> {
    match Visit(b, None, Keeper(kinds), [])
    case Err(e) => Err(e)
    case Ok(spans) => Rebuild(b, spans)
  }

  /** `TypedArray.set`. */
  method SetBytes(a: array<Byte>, at: nat, source: seq<Byte>)
    requires at + |source| <= a.Length
    modifies a
    ensures a[..] == old(a[..at]) + source + old(a[at + |source|..])
  {
    forall k | 0 <= k < |source| {
      a[at + k] := source[k];
    }
  }
}
