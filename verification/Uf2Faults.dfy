/** Why a recovery artifact is refused: for the first thing that is wrong with its first wrong block. */
module Uf2Faults {
  import opened Bytes
  import opened Uf2

  // ----- what is asked of a block

  /** A word a block has to hold, and what it is refused for if it holds another. */
  datatype Demand = Demand(at: nat, word: int, fault: Fault)

  function Demands(c: Contract, blocks: nat, k: nat): (r: seq<Demand>)
    ensures forall i :: 0 <= i < |r| ==> r[i].at + 4 <= 512
  {
    [Demand(0, 0x0a32_4655, Magic(k)), Demand(4, 0x9e5d_5157, Magic(k)), Demand(508, 0x0ab1_6f30, Magic(k)),
     Demand(8, 0x2000, Flags(k)), Demand(20, k, Order(k)), Demand(24, blocks, Order(k)),
     Demand(28, c.familyId, Family(k)), Demand(12, c.applicationBase + 256 * k, Address(k)),
     Demand(16, 256, Payload(k))]
  }

  predicate Met(block: Block, d: Demand)
    requires d.at + 4 <= 512
  {
    ReadLe32(block, d.at) == d.word
  }

  predicate MetUpTo(block: Block, ds: seq<Demand>, n: nat)
    requires n <= |ds| && forall i :: 0 <= i < |ds| ==> ds[i].at + 4 <= 512
  {
    forall i :: 0 <= i < n ==> Met(block, ds[i])
  }

  /** The words of the block are in order, but where it goes or what pads it is not. */
  predicate Misplaced(c: Contract, k: nat, block: Block, f: Fault) {
    var start, end := c.applicationBase + 256 * k, c.applicationBase + 256 * (k + 1);
    var owned := c.firmwareOwned.start <= start && end <= c.firmwareOwned.end;
    if end > c.applicationEnd then f == Bounds(k)
    else if !owned then f == FirmwareOwnership(k)
    else f == Padding(k) && exists i :: 288 <= i < 508 && block[i] != 0
  }

  /** The fault is that of the first demand not met, or all are met and the block is misplaced. */
  predicate Blamed(c: Contract, blocks: nat, k: nat, block: Block, f: Fault) {
    var ds := Demands(c, blocks, k);
    || (MetUpTo(block, ds, |ds|) && Misplaced(c, k, block, f))
    || exists i :: 0 <= i < |ds| && MetUpTo(block, ds, i) && !Met(block, ds[i]) && f == ds[i].fault
  }

  lemma WordsMet(c: Contract, blocks: nat, k: nat, block: Block, ds: seq<Demand>)
    requires ds == Demands(c, blocks, k)
    ensures MetUpTo(block, ds, |ds|) <==>
            && ReadLe32(block, 0) == MAGIC_START_ZERO && ReadLe32(block, 4) == MAGIC_START_ONE
            && ReadLe32(block, MAGIC_END_OFFSET) == MAGIC_END && ReadLe32(block, 8) == FAMILY_ID_FLAG
            && ReadLe32(block, 20) == k && ReadLe32(block, 24) == blocks && ReadLe32(block, 28) == c.familyId
            && ReadLe32(block, 12) == c.applicationBase + 256 * k && ReadLe32(block, 16) == PAYLOAD_BYTES
  {
    assert forall i :: 0 <= i < 9 ==> (Met(block, ds[i]) <==> ReadLe32(block, ds[i].at) == ds[i].word);
    if MetUpTo(block, ds, |ds|) {
      assert Met(block, ds[0]) && Met(block, ds[1]) && Met(block, ds[2]) && Met(block, ds[3]) && Met(block, ds[4]);
      assert Met(block, ds[5]) && Met(block, ds[6]) && Met(block, ds[7]) && Met(block, ds[8]);
    }
  }

  lemma UnmetDecides(c: Contract, blocks: nat, k: nat, block: Block, ds: seq<Demand>, i: nat)
    requires ds == Demands(c, blocks, k) && i < |ds| && MetUpTo(block, ds, i) && !Met(block, ds[i])
    ensures BlockFault(c, blocks, k, c.applicationBase + 256 * k, block) == Some(ds[i].fault)
  {
    assert ReadLe32(block, ds[i].at) != ds[i].word;
    assert i > 0 ==> Met(block, ds[0]);
    assert i > 1 ==> Met(block, ds[1]);
    assert i > 2 ==> Met(block, ds[2]);
    assert i > 3 ==> Met(block, ds[3]);
    assert i > 4 ==> Met(block, ds[4]);
    assert i > 5 ==> Met(block, ds[5]);
    assert i > 6 ==> Met(block, ds[6]);
    assert i > 7 ==> Met(block, ds[7]);
  }

  lemma MetDecides(c: Contract, blocks: nat, k: nat, block: Block, ds: seq<Demand>)
    requires ds == Demands(c, blocks, k) && MetUpTo(block, ds, |ds|)
    ensures var fault := BlockFault(c, blocks, k, c.applicationBase + 256 * k, block);
            && (fault.Some? ==> Misplaced(c, k, block, fault.value))
            && (forall f :: Misplaced(c, k, block, f) ==> fault == Some(f))
  {
    WordsMet(c, blocks, k, block, ds);
    var padding := block[DATA_OFFSET + PAYLOAD_BYTES..DATA_OFFSET + DATA_BYTES];
    if AllZero(padding) {
      assert forall i :: 288 <= i < 508 ==> block[i] == padding[i - 288];
    } else {
      var i :| 0 <= i < |padding| && padding[i] != 0;
      assert block[288 + i] != 0;
    }
  }

  lemma {:induction false} FirstUnmet(block: Block, ds: seq<Demand>, n: nat) returns (i: nat)
    requires n <= |ds| && (forall i :: 0 <= i < |ds| ==> ds[i].at + 4 <= 512) && !MetUpTo(block, ds, n)
    ensures i < n && MetUpTo(block, ds, i) && !Met(block, ds[i])
  {
    if MetUpTo(block, ds, n - 1) {
      i := n - 1;
    } else {
      i := FirstUnmet(block, ds, n - 1);
    }
  }

  /** A block is refused exactly for the first thing that is wrong with it. */
  lemma BlockBlamed(c: Contract, blocks: nat, k: nat, block: Block, f: Fault)
    ensures BlockFault(c, blocks, k, c.applicationBase + 256 * k, block) == Some(f) <==> Blamed(c, blocks, k, block, f)
  {
    var ds := Demands(c, blocks, k);
    if MetUpTo(block, ds, |ds|) {
      MetDecides(c, blocks, k, block, ds);
    } else {
      var i := FirstUnmet(block, ds, |ds|);
      UnmetDecides(c, blocks, k, block, ds, i);
      forall j | 0 <= j < |ds| && MetUpTo(block, ds, j) && !Met(block, ds[j]) ensures j == i {
      }
    }
  }

  // ----- the first wrong block

  function BlockAt(bytes: seq<Byte>, k: nat): Block
    requires 512 * (k + 1) <= |bytes|
  {
    bytes[512 * k..512 * (k + 1)]
  }

  function CheckAt(check: BlockCheck, index: nat, address: nat, bytes: seq<Byte>, k: nat): Option<Fault>
    requires 512 * (k + 1) <= |bytes|
  {
    check(index + k, address + 256 * k, BlockAt(bytes, k))
  }

  predicate FailsFirst(check: BlockCheck, index: nat, address: nat, bytes: seq<Byte>, k: nat, f: Fault) {
    && 512 * (k + 1) <= |bytes| && CheckAt(check, index, address, bytes, k) == Some(f)
    && forall j :: 0 <= j < k ==> CheckAt(check, index, address, bytes, j).None?
  }

  lemma CheckShifts(check: BlockCheck, index: nat, address: nat, bytes: seq<Byte>, k: nat)
    requires 512 * (k + 2) <= |bytes|
    ensures CheckAt(check, index, address, bytes, k + 1) == CheckAt(check, index + 1, address + 256, bytes[512..], k)
  {
    assert BlockAt(bytes[512..], k) == BlockAt(bytes, k + 1);
  }

  lemma FailsLater(check: BlockCheck, index: nat, address: nat, bytes: seq<Byte>, k: nat, f: Fault)
    requires |bytes| >= 512 && CheckAt(check, index, address, bytes, 0).None?
    ensures FailsFirst(check, index, address, bytes, k + 1, f)
       <==> FailsFirst(check, index + 1, address + 256, bytes[512..], k, f)
  {
    if 512 * (k + 2) <= |bytes| {
      var next, after, rest := index + 1, address + 256, bytes[512..];
      CheckShifts(check, index, address, bytes, k);
      forall j | 0 <= j < k
        ensures CheckAt(check, index, address, bytes, j + 1) == CheckAt(check, next, after, rest, j)
      {
        CheckShifts(check, index, address, bytes, j);
      }
      forall j | 0 < j < k + 1
        ensures CheckAt(check, index, address, bytes, j) == CheckAt(check, next, after, rest, j - 1)
      {
        CheckShifts(check, index, address, bytes, j - 1);
      }
    }
  }

  lemma {:induction false} BlocksFaultIff(check: BlockCheck, index: nat, address: nat, bytes: seq<Byte>, f: Fault)
    ensures BlocksFault(check, index, address, bytes) == Some(f)
       <==> exists k: nat :: FailsFirst(check, index, address, bytes, k, f)
    decreases |bytes|
  {
    if |bytes| >= 512 {
      var rest := bytes[512..];
      assert bytes[..512] == BlockAt(bytes, 0);
      var first := CheckAt(check, index, address, bytes, 0);
      if first.Some? {
        assert forall k: nat :: FailsFirst(check, index, address, bytes, k, f) ==> k == 0;
        assert first == Some(f) ==> FailsFirst(check, index, address, bytes, 0, f);
      } else {
        BlocksFaultIff(check, index + 1, address + 256, rest, f);
        var next, after := index + 1, address + 256;
        if k: nat :| FailsFirst(check, next, after, rest, k, f) {
          FailsLater(check, index, address, bytes, k, f);
        }
        if k: nat :| FailsFirst(check, index, address, bytes, k, f) {
          FailsLater(check, index, address, bytes, k - 1, f);
        }
      }
    }
  }

  // ----- the whole artifact

  /** The block is faultless where it stands. */
  predicate Blameless(c: Contract, blocks: nat, k: nat, block: Block) {
    var ds, end := Demands(c, blocks, k), c.applicationBase + 256 * (k + 1);
    && MetUpTo(block, ds, |ds|) && end <= c.applicationEnd
    && c.firmwareOwned.start <= c.applicationBase + 256 * k && end <= c.firmwareOwned.end
    && forall i :: 288 <= i < 508 ==> block[i] == 0
  }

  lemma BlamelessIff(c: Contract, blocks: nat, k: nat, block: Block)
    ensures BlockFault(c, blocks, k, c.applicationBase + 256 * k, block).None? <==> Blameless(c, blocks, k, block)
  {
    var ds := Demands(c, blocks, k);
    if MetUpTo(block, ds, |ds|) {
      MetDecides(c, blocks, k, block, ds);
      var fault := BlockFault(c, blocks, k, c.applicationBase + 256 * k, block);
      if !Blameless(c, blocks, k, block) {
        assert exists f :: Misplaced(c, k, block, f) by {
          var end := c.applicationBase + 256 * (k + 1);
          assert Misplaced(c, k, block, Bounds(k)) || Misplaced(c, k, block, FirmwareOwnership(k))
              || Misplaced(c, k, block, Padding(k));
        }
      }
    } else {
      var i := FirstUnmet(block, ds, |ds|);
      UnmetDecides(c, blocks, k, block, ds, i);
    }
  }

  /** The first block that is not blameless, and what it is blamed for. */
  predicate BlamedFirst(c: Contract, bytes: seq<Byte>, k: nat, f: Fault) {
    && 512 * (k + 1) <= |bytes| && Blamed(c, |bytes| / 512, k, BlockAt(bytes, k), f)
    && forall j :: 0 <= j < k ==> Blameless(c, |bytes| / 512, j, BlockAt(bytes, j))
  }

  /** The payload of the k-th block is the k-th piece of the application, and zeros after it. */
  predicate Carries(application: seq<Byte>, bytes: seq<Byte>, k: nat)
    requires 512 * (k + 1) <= |bytes|
  {
    var payload := BlockAt(bytes, k)[32..288];
    forall i :: 0 <= i < 256 ==>
      payload[i] == if 256 * k + i < |application| then application[256 * k + i] else 0
  }

  predicate LacksFirst(application: seq<Byte>, bytes: seq<Byte>, k: nat) {
    && 512 * (k + 1) <= |bytes| && !Carries(application, bytes, k)
    && forall j :: 0 <= j < k ==> Carries(application, bytes, j)
  }

  lemma ChecksAre(c: Contract, blocks: nat, bytes: seq<Byte>, k: nat, f: Fault)
    requires blocks == |bytes| / 512
    ensures FailsFirst(CheckOf(c, blocks), 0, c.applicationBase, bytes, k, f) <==> BlamedFirst(c, bytes, k, f)
  {
    if 512 * (k + 1) <= |bytes| {
      BlockBlamed(c, blocks, k, BlockAt(bytes, k), f);
      forall j | 0 <= j < k
        ensures CheckAt(CheckOf(c, blocks), 0, c.applicationBase, bytes, j).None?
           <==> Blameless(c, blocks, j, BlockAt(bytes, j))
      {
        BlamelessIff(c, blocks, j, BlockAt(bytes, j));
      }
    }
  }

  lemma {:induction false} NoFault(check: BlockCheck, index: nat, address: nat, bytes: seq<Byte>, k: nat)
    requires BlocksFault(check, index, address, bytes).None? && 512 * (k + 1) <= |bytes|
    ensures CheckAt(check, index, address, bytes, k).None?
    decreases |bytes|
  {
    assert bytes[..512] == BlockAt(bytes, 0);
    if k > 0 {
      CheckShifts(check, index, address, bytes, k - 1);
      NoFault(check, index + 1, address + 256, bytes[512..], k - 1);
    }
  }

  /** Bytes of a good length are refused exactly for their first wrong block. */
  lemma BlocksBlamed(c: Contract, bytes: seq<Byte>, f: Fault)
    ensures BlocksFault(CheckOf(c, |bytes| / 512), 0, c.applicationBase, bytes) == Some(f)
       <==> exists k: nat :: BlamedFirst(c, bytes, k, f)
  {
    var blocks := |bytes| / 512;
    BlocksFaultIff(CheckOf(c, blocks), 0, c.applicationBase, bytes, f);
    forall k: nat
      ensures FailsFirst(CheckOf(c, blocks), 0, c.applicationBase, bytes, k, f) <==> BlamedFirst(c, bytes, k, f)
    {
      ChecksAre(c, blocks, bytes, k, f);
    }
  }

  predicate AllBlameless(c: Contract, bytes: seq<Byte>) {
    forall k :: 0 <= k < |bytes| / 512 ==> Blameless(c, |bytes| / 512, k, BlockAt(bytes, k))
  }

  lemma BlamelessBlocks(c: Contract, bytes: seq<Byte>)
    ensures BlocksFault(CheckOf(c, |bytes| / 512), 0, c.applicationBase, bytes).None? <==> AllBlameless(c, bytes)
  {
    var blocks := |bytes| / 512;
    var fault := BlocksFault(CheckOf(c, blocks), 0, c.applicationBase, bytes);
    if fault.None? {
      forall k | 0 <= k < blocks ensures Blameless(c, blocks, k, BlockAt(bytes, k)) {
        NoFault(CheckOf(c, blocks), 0, c.applicationBase, bytes, k);
        BlamelessIff(c, blocks, k, BlockAt(bytes, k));
      }
    } else {
      BlocksBlamed(c, bytes, fault.value);
      var k: nat :| BlamedFirst(c, bytes, k, fault.value);
      BlamedIsNotBlameless(c, blocks, k, BlockAt(bytes, k), fault.value);
    }
  }

  lemma BlamedIsNotBlameless(c: Contract, blocks: nat, k: nat, block: Block, f: Fault)
    requires Blamed(c, blocks, k, block, f)
    ensures !Blameless(c, blocks, k, block)
  {
    BlockBlamed(c, blocks, k, block, f);
    BlamelessIff(c, blocks, k, block);
  }

  // ----- the pieces of the application

  lemma FirstCarried(application: seq<Byte>, bytes: seq<Byte>)
    requires |bytes| >= 512
    ensures Carries(application, bytes, 0)
       <==> CarriesPiece(bytes[..512], application[..PieceSize(application)])
  {
    var n, payload := PieceSize(application), BlockAt(bytes, 0)[32..288];
    assert bytes[..512] == BlockAt(bytes, 0);
    if payload[..n] == application[..n] {
      assert forall i :: 0 <= i < n ==> payload[i] == payload[..n][i];
      assert forall i :: n <= i < 256 ==> payload[i] == payload[n..][i - n];
    }
  }

  lemma CarriedShifts(application: seq<Byte>, bytes: seq<Byte>, k: nat)
    requires 512 * (k + 2) <= |bytes|
    ensures Carries(application, bytes, k + 1)
       <==> Carries(application[PieceSize(application)..], bytes[512..], k)
  {
    assert BlockAt(bytes[512..], k) == BlockAt(bytes, k + 1);
  }

  lemma LacksLater(application: seq<Byte>, bytes: seq<Byte>, k: nat)
    requires |bytes| >= 512 && Carries(application, bytes, 0)
    ensures LacksFirst(application, bytes, k + 1)
       <==> LacksFirst(application[PieceSize(application)..], bytes[512..], k)
  {
    if 512 * (k + 2) <= |bytes| {
      var after, rest := application[PieceSize(application)..], bytes[512..];
      CarriedShifts(application, bytes, k);
      forall j | 0 <= j < k ensures Carries(application, bytes, j + 1) <==> Carries(after, rest, j) {
        CarriedShifts(application, bytes, j);
      }
      forall j | 0 < j < k + 1 ensures Carries(application, bytes, j) <==> Carries(after, rest, j - 1) {
        CarriedShifts(application, bytes, j - 1);
      }
    }
  }

  lemma {:induction false} PiecesFaultIff(index: nat, application: seq<Byte>, bytes: seq<Byte>, f: Fault)
    ensures PiecesFault(index, application, bytes) == Some(f)
       <==> exists k: nat :: LacksFirst(application, bytes, k) && f == ApplicationData(index + k)
    decreases |bytes|
  {
    if |bytes| >= 512 {
      FirstCarried(application, bytes);
      if Carries(application, bytes, 0) {
        var after, rest := application[PieceSize(application)..], bytes[512..];
        PiecesFaultIff(index + 1, after, rest, f);
        if k: nat :| LacksFirst(after, rest, k) && f == ApplicationData(index + 1 + k) {
          LacksLater(application, bytes, k);
        }
        if k: nat :| LacksFirst(application, bytes, k) && f == ApplicationData(index + k) {
          LacksLater(application, bytes, k - 1);
        }
      } else {
        assert LacksFirst(application, bytes, 0);
      }
    }
  }

  /**
   * An artifact is refused exactly for this: a length that is no number of blocks a word can count; or else the first
   * wrong thing about its first wrong block; or else a number of blocks that is not the application's; or else the
   * first block that does not carry its piece.
   */
  lemma RefusedExactly(c: Contract, application: seq<Byte>, bytes: seq<Byte>, f: Fault)
    ensures RecoveryFault(c, application, bytes) == Some(f) <==>
            if bytes == [] || |bytes| % 512 != 0 || |bytes| / 512 >= 0x1_0000_0000 then f == Length(|bytes|)
            else if !AllBlameless(c, bytes) then exists k: nat :: BlamedFirst(c, bytes, k, f)
            else if application == [] || |bytes| / 512 != (|application| + 255) / 256 then
              f == ApplicationLength(|application|, |bytes| / 512)
            else exists k: nat :: LacksFirst(application, bytes, k) && f == ApplicationData(k)
  {
    BlocksBlamed(c, bytes, f);
    BlamelessBlocks(c, bytes);
    PiecesFaultIff(0, application, bytes, f);
  }
}
