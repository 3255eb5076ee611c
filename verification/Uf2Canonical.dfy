/** The one UF2 file a recovery artifact may be, and the proof that validation accepts exactly that file. */
module Uf2Canonical {
  import opened Bytes
  import opened Uf2

  // ----- the canonical file

  function Words(ws: seq<Word>): (r: seq<Byte>)
    ensures |r| == 4 * |ws|
  {
    if ws == [] then [] else Le32(ws[0]) + Words(ws[1..])
  }

  function Zeros(n: nat): (r: seq<Byte>)
    ensures |r| == n && AllZero(r)
  {
    seq(n, _ => 0)
  }

  function Padded(piece: seq<Byte>): (r: seq<Byte>)
    requires |piece| <= PAYLOAD_BYTES
    ensures |r| == PAYLOAD_BYTES
  {
    piece + Zeros(PAYLOAD_BYTES - |piece|)
  }

  function EncodeBlock(family: Word, declared: Word, index: Word, address: Word, payload: seq<Byte>): (r: seq<Byte>)
    requires |payload| == PAYLOAD_BYTES
    ensures |r| == BLOCK_BYTES
  {
    Words([MAGIC_START_ZERO, MAGIC_START_ONE, FAMILY_ID_FLAG, address, PAYLOAD_BYTES, index, declared, family])
    + payload + Zeros(PADDING_BYTES) + Words([MAGIC_END])
  }

  /** The application cut into zero-padded pieces, in order, at consecutive addresses. */
  function EncodeBlocks(family: Word, declared: Word, index: nat, address: nat, application: seq<Byte>): seq<Byte>
    requires index + BlocksFor(application) <= declared && address + PAYLOAD_BYTES * BlocksFor(application) < U32_LIMIT
    decreases |application|
  {
    if application == [] then []
    else
      var n := PieceSize(application);
      OneBlockFewer(application);
      EncodeBlock(family, declared, index, address, Padded(application[..n]))
      + EncodeBlocks(family, declared, index + 1, address + PAYLOAD_BYTES, application[n..])
  }

  /** The whole span lies inside the transport envelope and the firmware-owned range. */
  predicate Fits(c: Contract, address: nat, end: nat) {
    end <= c.applicationEnd && end <= c.firmwareOwned.end && c.firmwareOwned.start <= address
  }

  function SpanEnd(address: nat, application: seq<Byte>): nat {
    address + PAYLOAD_BYTES * BlocksFor(application)
  }

  function CanonicalUf2(c: Contract, application: seq<Byte>): seq<Byte>
    requires BlocksFor(application) < U32_LIMIT && SpanEnd(c.applicationBase, application) < U32_LIMIT
  {
    EncodeBlocks(c.familyId, BlocksFor(application), 0, c.applicationBase, application)
  }

  lemma OneBlockFewer(application: seq<Byte>)
    requires application != []
    ensures BlocksFor(application) == 1 + BlocksFor(application[PieceSize(application)..])
  {
  }

  // ----- blocks

  predicate WordAt(b: seq<Byte>, at: nat, ws: seq<Word>, i: nat)
    requires i < |ws| && at + 4 * |ws| <= |b|
  {
    ReadLe32(b, at + 4 * i) == ws[i]
  }

  lemma FirstWord(b: seq<Byte>, at: nat, w: Word, tail: seq<Byte>)
    requires at + 4 <= |b|
    ensures HoldsAt(b, at, Le32(w) + tail) <==> ReadLe32(b, at) == w && HoldsAt(b, at + 4, tail)
  {
    HoldsConcat(b, at, Le32(w), tail);
    Le32RoundTrip(b, at, w);
  }

  /** Words are read back one by one. */
  lemma {:induction false} WordsAt(b: seq<Byte>, at: nat, ws: seq<Word>)
    requires at + 4 * |ws| <= |b|
    ensures HoldsAt(b, at, Words(ws)) <==> forall i :: 0 <= i < |ws| ==> WordAt(b, at, ws, i)
    decreases |ws|
  {
    if ws != [] {
      var rest, next := ws[1..], at + 4;
      WordsAt(b, next, rest);
      FirstWord(b, at, ws[0], Words(rest));
      assert WordAt(b, at, ws, 0) <==> ReadLe32(b, at) == ws[0];
      forall i | 0 <= i < |rest| ensures WordAt(b, next, rest, i) <==> WordAt(b, at, ws, i + 1) {
      }
      if forall i :: 0 <= i < |rest| ==> WordAt(b, next, rest, i) {
        forall i | 0 < i < |ws| ensures WordAt(b, at, ws, i) {
          assert WordAt(b, next, rest, i - 1);
        }
      }
    }
  }

  lemma ZerosAt(b: seq<Byte>, at: nat, n: nat)
    requires at + n <= |b|
    ensures HoldsAt(b, at, Zeros(n)) <==> AllZero(b[at..at + n])
  {
    assert HoldsAt(b, at, Zeros(n)) <==> b[at..at + n] == Zeros(n);
  }

  lemma PieceAt(block: Block, piece: seq<Byte>)
    requires |piece| <= PAYLOAD_BYTES
    ensures CarriesPiece(block, piece) <==> HoldsAt(block, DATA_OFFSET, Padded(piece))
  {
    var payload := block[DATA_OFFSET..DATA_OFFSET + PAYLOAD_BYTES];
    var n := |piece|;
    HoldsConcat(block, DATA_OFFSET, piece, Zeros(PAYLOAD_BYTES - n));
    ZerosAt(block, DATA_OFFSET + n, PAYLOAD_BYTES - n);
    assert payload[..n] == block[DATA_OFFSET..DATA_OFFSET + n];
    assert payload[n..] == block[DATA_OFFSET + n..DATA_OFFSET + PAYLOAD_BYTES];
  }

  predicate HeaderReads(block: seq<Byte>, family: Word, declared: Word, index: Word, address: Word)
    requires |block| == BLOCK_BYTES
  {
    && ReadLe32(block, 0) == MAGIC_START_ZERO && ReadLe32(block, 4) == MAGIC_START_ONE
    && ReadLe32(block, 8) == FAMILY_ID_FLAG && ReadLe32(block, 12) == address && ReadLe32(block, 16) == PAYLOAD_BYTES
    && ReadLe32(block, 20) == index && ReadLe32(block, 24) == declared && ReadLe32(block, 28) == family
  }

  lemma HeaderAt(block: seq<Byte>, family: Word, declared: Word, index: Word, address: Word, ws: seq<Word>)
    requires |block| == BLOCK_BYTES
    requires ws == [MAGIC_START_ZERO, MAGIC_START_ONE, FAMILY_ID_FLAG, address, PAYLOAD_BYTES, index, declared, family]
    ensures HoldsAt(block, 0, Words(ws)) <==> HeaderReads(block, family, declared, index, address)
  {
    WordsAt(block, 0, ws);
    assert forall i :: 0 <= i < 8 ==> (WordAt(block, 0, ws, i) <==> ReadLe32(block, 4 * i) == ws[i]);
    assert WordAt(block, 0, ws, 0) <==> ReadLe32(block, 0) == MAGIC_START_ZERO;
    assert WordAt(block, 0, ws, 1) <==> ReadLe32(block, 4) == MAGIC_START_ONE;
    assert WordAt(block, 0, ws, 2) <==> ReadLe32(block, 8) == FAMILY_ID_FLAG;
    assert WordAt(block, 0, ws, 3) <==> ReadLe32(block, 12) == address;
    assert WordAt(block, 0, ws, 4) <==> ReadLe32(block, 16) == PAYLOAD_BYTES;
    assert WordAt(block, 0, ws, 5) <==> ReadLe32(block, 20) == index;
    assert WordAt(block, 0, ws, 6) <==> ReadLe32(block, 24) == declared;
    assert WordAt(block, 0, ws, 7) <==> ReadLe32(block, 28) == family;
  }

  lemma FooterAt(block: seq<Byte>)
    requires |block| == BLOCK_BYTES
    ensures HoldsAt(block, MAGIC_END_OFFSET, Words([MAGIC_END])) <==> ReadLe32(block, MAGIC_END_OFFSET) == MAGIC_END
  {
    var ws: seq<Word> := [MAGIC_END];
    WordsAt(block, MAGIC_END_OFFSET, ws);
    assert WordAt(block, MAGIC_END_OFFSET, ws, 0) <==> ReadLe32(block, MAGIC_END_OFFSET) == MAGIC_END;
  }

  /** A block is the canonical one exactly when each of its parts is. */
  lemma BlockParts(block: seq<Byte>, family: Word, declared: Word, index: Word, address: Word, payload: seq<Byte>)
    requires |block| == BLOCK_BYTES && |payload| == PAYLOAD_BYTES
    ensures block == EncodeBlock(family, declared, index, address, payload) <==>
            && HeaderReads(block, family, declared, index, address)
            && HoldsAt(block, DATA_OFFSET, payload)
            && AllZero(block[DATA_OFFSET + PAYLOAD_BYTES..DATA_OFFSET + DATA_BYTES])
            && ReadLe32(block, MAGIC_END_OFFSET) == MAGIC_END
  {
    var ws: seq<Word> :=
      [MAGIC_START_ZERO, MAGIC_START_ONE, FAMILY_ID_FLAG, address, PAYLOAD_BYTES, index, declared, family];
    var header, padding, footer := Words(ws), Zeros(PADDING_BYTES), Words([MAGIC_END]);
    HoldsWhole(block, header + payload + padding + footer);
    HoldsConcat(block, 0, header + payload + padding, footer);
    HoldsConcat(block, 0, header + payload, padding);
    HoldsConcat(block, 0, header, payload);
    HeaderAt(block, family, declared, index, address, ws);
    ZerosAt(block, DATA_OFFSET + PAYLOAD_BYTES, PADDING_BYTES);
    FooterAt(block);
  }

  lemma HoldsWhole(b: seq<Byte>, whole: seq<Byte>)
    requires |b| == |whole|
    ensures b == whole <==> HoldsAt(b, 0, whole)
  {
    assert b[0..0 + |whole|] == b;
  }

  /** The checks on one block pass exactly for the canonical block inside the bounds. */
  lemma BlockExact(c: Contract, declared: Word, index: Word, address: Word, block: Block, piece: seq<Byte>)
    requires |piece| <= PAYLOAD_BYTES
    ensures BlockFault(c, declared, index, address, block).None? && CarriesPiece(block, piece) <==>
            && block == EncodeBlock(c.familyId, declared, index, address, Padded(piece))
            && Fits(c, address, address + PAYLOAD_BYTES)
  {
    BlockParts(block, c.familyId, declared, index, address, Padded(piece));
    PieceAt(block, piece);
  }

  // ----- files

  ghost predicate ExactAt(
    check: BlockCheck, c: Contract, declared: Word, index: Word, address: Word, block: Block, piece: seq<Byte>)
    requires |piece| <= PAYLOAD_BYTES
  {
    check(index, address, block).None? && CarriesPiece(block, piece) <==>
    && block == EncodeBlock(c.familyId, declared, index, address, Padded(piece))
    && Fits(c, address, address + PAYLOAD_BYTES)
  }

  ghost predicate Exact(check: BlockCheck, c: Contract, declared: Word) {
    forall index: Word, address: Word, block: Block, piece: seq<Byte> ::
      |piece| <= PAYLOAD_BYTES ==> ExactAt(check, c, declared, index, address, block, piece)
  }

  /** The first block and the first piece, then the rest. */
  lemma FirstPiece(check: BlockCheck, index: nat, address: nat, application: seq<Byte>, bytes: seq<Byte>)
    requires |bytes| >= BLOCK_BYTES
    ensures var n, block, rest := PieceSize(application), bytes[..BLOCK_BYTES], bytes[BLOCK_BYTES..];
            BlocksFault(check, index, address, bytes).None? && PiecesFault(index, application, bytes).None? <==>
            && check(index, address, block).None? && CarriesPiece(block, application[..n])
            && BlocksFault(check, index + 1, address + PAYLOAD_BYTES, rest).None?
            && PiecesFault(index + 1, application[n..], rest).None?
  {
  }

  lemma {:induction false} BlocksExact(
    check: BlockCheck, c: Contract, declared: Word, index: nat, address: Word, application: seq<Byte>, bytes: seq<Byte>)
    requires Exact(check, c, declared) && application != []
    requires |bytes| == BLOCK_BYTES * BlocksFor(application) && index + BlocksFor(application) <= declared
    ensures BlocksFault(check, index, address, bytes).None? && PiecesFault(index, application, bytes).None? <==>
            && Fits(c, address, SpanEnd(address, application))
            && bytes == EncodeBlocks(c.familyId, declared, index, address, application)
    decreases |application|
  {
    var n := PieceSize(application);
    var block, piece, rest, after := bytes[..BLOCK_BYTES], application[..n], bytes[BLOCK_BYTES..], application[n..];
    OneBlockFewer(application);
    FirstPiece(check, index, address, application, bytes);
    assert ExactAt(check, c, declared, index, address, block, piece);
    if after != [] {
      OneBlockFewer(after);
      if Fits(c, address, address + PAYLOAD_BYTES) {
        BlocksExact(check, c, declared, index + 1, address + PAYLOAD_BYTES, after, rest);
      }
    }
    assert bytes == block + rest;
  }

  lemma {:induction false} CanonicalLength(
    family: Word, declared: Word, index: nat, address: nat, application: seq<Byte>)
    requires index + BlocksFor(application) <= declared && address + PAYLOAD_BYTES * BlocksFor(application) < U32_LIMIT
    ensures |EncodeBlocks(family, declared, index, address, application)| == BLOCK_BYTES * BlocksFor(application)
    decreases |application|
  {
    if application != [] {
      OneBlockFewer(application);
      CanonicalLength(family, declared, index + 1, address + PAYLOAD_BYTES, application[PieceSize(application)..]);
    }
  }

  lemma BlockCount(recovery: seq<Byte>, blocks: nat)
    ensures |recovery| == BLOCK_BYTES * blocks <==> |recovery| % BLOCK_BYTES == 0 && |recovery| / BLOCK_BYTES == blocks
  {
  }

  /**
   * A recovery UF2 is accepted if and only if the application is not empty, its whole span fits, and
   * the file is byte for byte the canonical encoding; so each application has at most one file.
   */
  lemma AcceptedIffCanonical(c: Contract, application: seq<Byte>, recovery: seq<Byte>)
    ensures RecoveryFault(c, application, recovery).None? <==>
            && application != [] && BlocksFor(application) < U32_LIMIT
            && Fits(c, c.applicationBase, SpanEnd(c.applicationBase, application))
            && recovery == CanonicalUf2(c, application)
  {
    var blocks := BlocksFor(application);
    BlockCount(recovery, blocks);
    if application != [] && blocks < U32_LIMIT {
      OneBlockFewer(application);
      if |recovery| == BLOCK_BYTES * blocks {
        var check := CheckOf(c, blocks);
        forall index: Word, address: Word, block: Block, piece: seq<Byte> | |piece| <= PAYLOAD_BYTES
          ensures ExactAt(check, c, blocks, index, address, block, piece)
        {
          BlockExact(c, blocks, index, address, block, piece);
        }
        BlocksExact(check, c, blocks, 0, c.applicationBase, application, recovery);
      } else if Fits(c, c.applicationBase, SpanEnd(c.applicationBase, application)) {
        CanonicalLength(c.familyId, blocks, 0, c.applicationBase, application);
      }
    }
  }
}
