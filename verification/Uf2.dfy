/** Validation of UF2 recovery artifacts (`prns-flash-manifest/src/uf2.rs`). */
module Uf2 {
  import opened Bytes

  type Word = n: int | 0 <= n < U32_LIMIT

  const BLOCK_BYTES := 512
  const DATA_OFFSET := 32
  const DATA_BYTES := 476
  const PAYLOAD_BYTES := 256
  const PADDING_BYTES := 220
  const MAGIC_END_OFFSET := 508
  const MAGIC_START_ZERO := 0x0a32_4655
  const MAGIC_START_ONE := 0x9e5d_5157
  const MAGIC_END := 0x0ab1_6f30
  const FAMILY_ID_FLAG := 0x2000

  datatype Region = Region(start: Word, end: Word)

  predicate Contains(r: Region, start: int, end: int) {
    r.start <= start < end <= r.end
  }

  datatype Contract = Contract(applicationBase: Word, applicationEnd: Word, firmwareOwned: Region, familyId: Word)

  datatype Fault =
    | Length(bytes: nat)
    | Magic(block: nat)
    | Flags(block: nat)
    | Order(block: nat)
    | Family(block: nat)
    | Address(block: nat)
    | Payload(block: nat)
    | Bounds(block: nat)
    | FirmwareOwnership(block: nat)
    | Padding(block: nat)
    | ApplicationLength(applicationBytes: nat, uf2Blocks: nat)
    | ApplicationData(block: nat)

  predicate AllZero(s: seq<Byte>) {
    forall i :: 0 <= i < |s| ==> s[i] == 0
  }

  type Block = s: seq<Byte> | |s| == BLOCK_BYTES witness seq(BLOCK_BYTES, _ => 0)

  // ----- the checks

  /** The first check a block fails, in the source's order. */
  function BlockFault(c: Contract, declared: nat, index: nat, expected: nat, block: Block): Option<Fault> {
    if ReadLe32(block, 0) != MAGIC_START_ZERO || ReadLe32(block, 4) != MAGIC_START_ONE
       || ReadLe32(block, MAGIC_END_OFFSET) != MAGIC_END then Some(Magic(index))
    else if ReadLe32(block, 8) != FAMILY_ID_FLAG then Some(Flags(index))
    else if ReadLe32(block, 20) != index || ReadLe32(block, 24) != declared then Some(Order(index))
    else if ReadLe32(block, 28) != c.familyId then Some(Family(index))
    else if ReadLe32(block, 12) != expected then Some(Address(index))
    else if ReadLe32(block, 16) != PAYLOAD_BYTES then Some(Payload(index))
    else if expected + PAYLOAD_BYTES >= U32_LIMIT then Some(Bounds(index))
    else if expected + PAYLOAD_BYTES > c.applicationEnd then Some(Bounds(index))
    else if !Contains(c.firmwareOwned, expected, expected + PAYLOAD_BYTES) then Some(FirmwareOwnership(index))
    else if !AllZero(block[DATA_OFFSET + PAYLOAD_BYTES..DATA_OFFSET + DATA_BYTES]) then Some(Padding(index))
    else None
  }

  /** A check of the block with this number, expected at this address. */
  type BlockCheck = (nat, nat, Block) -> Option<Fault>

  function CheckOf(c: Contract, declared: nat): BlockCheck {
    (index: nat, expected: nat, block: Block) => BlockFault(c, declared, index, expected, block)
  }

  /** The first fault among the whole blocks of the bytes. */
  function BlocksFault(check: BlockCheck, index: nat, expected: nat, bytes: seq<Byte>): Option<Fault>
    decreases |bytes|
  {
    if |bytes| < BLOCK_BYTES then None
    else
      match check(index, expected, bytes[..BLOCK_BYTES])
      case Some(fault) => Some(fault)
      case None => BlocksFault(check, index + 1, expected + PAYLOAD_BYTES, bytes[BLOCK_BYTES..])
  }

  function Uf2Fault(c: Contract, bytes: seq<Byte>): Option<Fault> {
    if bytes == [] || |bytes| % BLOCK_BYTES != 0 || |bytes| / BLOCK_BYTES >= U32_LIMIT then Some(Length(|bytes|))
    else BlocksFault(CheckOf(c, |bytes| / BLOCK_BYTES), 0, c.applicationBase, bytes)
  }

  /** The payload begins with the piece, then only zeros. */
  predicate CarriesPiece(block: Block, piece: seq<Byte>)
    requires |piece| <= PAYLOAD_BYTES
  {
    var payload := block[DATA_OFFSET..DATA_OFFSET + PAYLOAD_BYTES];
    payload[..|piece|] == piece && AllZero(payload[|piece|..])
  }

  function PieceSize(application: seq<Byte>): (n: nat)
    ensures n <= PAYLOAD_BYTES && n <= |application|
  {
    if |application| < PAYLOAD_BYTES then |application| else PAYLOAD_BYTES
  }

  function PiecesFault(index: nat, application: seq<Byte>, bytes: seq<Byte>): Option<Fault>
    decreases |bytes|
  {
    if |bytes| < BLOCK_BYTES then None
    else
      var n := PieceSize(application);
      if !CarriesPiece(bytes[..BLOCK_BYTES], application[..n]) then Some(ApplicationData(index))
      else PiecesFault(index + 1, application[n..], bytes[BLOCK_BYTES..])
  }

  function BlocksFor(application: seq<Byte>): nat {
    (|application| + PAYLOAD_BYTES - 1) / PAYLOAD_BYTES
  }

  function ApplicationFault(application: seq<Byte>, recovery: seq<Byte>): Option<Fault> {
    var blocks := |recovery| / BLOCK_BYTES;
    if application == [] || blocks != BlocksFor(application) then Some(ApplicationLength(|application|, blocks))
    else PiecesFault(0, application, recovery)
  }

  function RecoveryFault(c: Contract, application: seq<Byte>, recovery: seq<Byte>): Option<Fault> {
    match Uf2Fault(c, recovery)
    case Some(fault) => Some(fault)
    case None => ApplicationFault(application, recovery)
  }

  // ----- the source's loops

  ghost predicate ChecksAt(check: BlockCheck, c: Contract, declared: nat, index: nat, expected: nat, block: Block) {
    check(index, expected, block) == BlockFault(c, declared, index, expected, block)
  }

  ghost predicate Checks(check: BlockCheck, c: Contract, declared: nat) {
    forall index, expected, block: Block :: ChecksAt(check, c, declared, index, expected, block)
  }

  method CheckBlock(c: Contract, declared: nat, index: nat, expected: nat, block: Block, ghost check: BlockCheck)
    returns (fault: Option<Fault>)
    requires Checks(check, c, declared)
    ensures fault == check(index, expected, block)
  {
    assert ChecksAt(check, c, declared, index, expected, block);
    if ReadLe32(block, 0) != MAGIC_START_ZERO || ReadLe32(block, 4) != MAGIC_START_ONE
       || ReadLe32(block, MAGIC_END_OFFSET) != MAGIC_END {
      return Some(Magic(index));
    }
    if ReadLe32(block, 8) != FAMILY_ID_FLAG {
      return Some(Flags(index));
    }
    if ReadLe32(block, 20) != index || ReadLe32(block, 24) != declared {
      return Some(Order(index));
    }
    if ReadLe32(block, 28) != c.familyId {
      return Some(Family(index));
    }
    var address, payload := ReadLe32(block, 12), ReadLe32(block, 16);
    if address != expected {
      return Some(Address(index));
    }
    if payload != PAYLOAD_BYTES || payload > DATA_BYTES {
      return Some(Payload(index));
    }
    var end := address + payload;
    if end >= U32_LIMIT || end > c.applicationEnd {
      return Some(Bounds(index));
    }
    if !Contains(c.firmwareOwned, address, end) {
      return Some(FirmwareOwnership(index));
    }
    if !AllZero(block[DATA_OFFSET + payload..DATA_OFFSET + DATA_BYTES]) {
      return Some(Padding(index));
    }
    return None;
  }

  method ValidateUf2Bytes(c: Contract, bytes: seq<Byte>) returns (fault: Option<Fault>)
    ensures fault == Uf2Fault(c, bytes)
  {
    if bytes == [] || |bytes| % BLOCK_BYTES != 0 {
      return Some(Length(|bytes|));
    }
    var declared := |bytes| / BLOCK_BYTES;
    if declared >= U32_LIMIT {
      return Some(Length(|bytes|));
    }
    fault := CheckBlocks(c, declared, bytes, CheckOf(c, declared));
  }

  method CheckBlocks(c: Contract, declared: nat, bytes: seq<Byte>, ghost check: BlockCheck)
    returns (fault: Option<Fault>)
    requires Checks(check, c, declared) && |bytes| == declared * BLOCK_BYTES
    ensures fault == BlocksFault(check, 0, c.applicationBase, bytes)
  {
    var expected: nat := c.applicationBase;
    for index := 0 to declared
      invariant BlocksFault(check, 0, c.applicationBase, bytes)
             == BlocksFault(check, index, expected, bytes[index * BLOCK_BYTES..])
    {
      var block := bytes[index * BLOCK_BYTES..index * BLOCK_BYTES + BLOCK_BYTES];
      FirstBlock(bytes, index);
      fault := CheckBlock(c, declared, index, expected, block, check);
      if fault.Some? {
        return fault;
      }
      expected := expected + PAYLOAD_BYTES;
    }
    return None;
  }

  lemma FirstBlock(bytes: seq<Byte>, index: nat)
    requires (index + 1) * BLOCK_BYTES <= |bytes|
    ensures var rest := bytes[index * BLOCK_BYTES..];
            && rest[..BLOCK_BYTES] == bytes[index * BLOCK_BYTES..index * BLOCK_BYTES + BLOCK_BYTES]
            && rest[BLOCK_BYTES..] == bytes[(index + 1) * BLOCK_BYTES..]
  {
  }

  method ValidateRecoveryApplication(application: seq<Byte>, recovery: seq<Byte>) returns (fault: Option<Fault>)
    ensures fault == ApplicationFault(application, recovery)
  {
    var expectedBlocks, actualBlocks := BlocksFor(application), |recovery| / BLOCK_BYTES;
    if application == [] || actualBlocks != expectedBlocks {
      return Some(ApplicationLength(|application|, actualBlocks));
    }
    for index := 0 to actualBlocks
      invariant index * PAYLOAD_BYTES < |application| + PAYLOAD_BYTES
      invariant PiecesFault(0, application, recovery)
             == PiecesFault(index, application[Least(index * PAYLOAD_BYTES, |application|)..],
                            recovery[index * BLOCK_BYTES..])
    {
      var block := recovery[index * BLOCK_BYTES..index * BLOCK_BYTES + BLOCK_BYTES];
      FirstBlock(recovery, index);
      var offset := index * PAYLOAD_BYTES;
      var end := Least(offset + PAYLOAD_BYTES, |application|);
      FirstPiece(application, index);
      if !CarriesPiece(block, application[offset..end]) {
        return Some(ApplicationData(index));
      }
    }
    return None;
  }

  lemma FirstPiece(application: seq<Byte>, index: nat)
    requires index * PAYLOAD_BYTES < |application|
    ensures var offset, end := index * PAYLOAD_BYTES, Least((index + 1) * PAYLOAD_BYTES, |application|);
            var rest := application[Least(offset, |application|)..];
            && rest[..PieceSize(rest)] == application[offset..end]
            && rest[PieceSize(rest)..] == application[end..]
  {
  }

  function Least(x: nat, y: nat): nat {
    if x < y then x else y
  }

  method ValidateRecoveryArtifact(c: Contract, application: seq<Byte>, recovery: seq<Byte>)
    returns (fault: Option<Fault>)
    ensures fault == RecoveryFault(c, application, recovery)
  {
    fault := ValidateUf2Bytes(c, recovery);
    if fault.None? {
      fault := ValidateRecoveryApplication(application, recovery);
    }
  }
}
