/** Validation of sparse ESP images (`prns-flash-manifest/src/esp.rs`). */
module EspImage {
  import opened Bytes

  const SECTOR := 0x1000
  const CONFIG_OFFSET := 0xd000
  const CONFIG_SIZE := 0x1000

  datatype Kind = Bootloader | PartitionTable | Application | Uf2 | DfuApplication | DfuInitPacket

  const REQUIRED := [Bootloader, PartitionTable, Application]

  datatype Part = Part(kind: Kind, path: string, offset: Option<nat>, size: nat, sha256: string)

  datatype Region = Region(start: nat, end: nat)

  predicate Contains(r: Region, start: nat, end: nat) {
    r.start <= start < end <= r.end
  }

  /** The memory profile, the flash size, and which paths and digests are well formed. */
  datatype Board = Board(
    bootloader: Option<Region>,
    partitionTable: Option<Region>,
    firmwareOwned: Region,
    flashSize: nat,
    immutablePath: string -> bool,
    digest: string -> bool)

  datatype Violation =
    | Empty
    | Path
    | Digest
    | DuplicatePath
    | WrongKind(kind: Kind)
    | MemoryProfile
    | MissingOffset
    | Size(size: nat)
    | Alignment(offset: nat)
    | EraseOverflow
    | PhysicalFlash(eraseEnd: nat, flashSize: nat)
    | OutsideRegion(offset: nat, eraseEnd: nat)
    | Provisioning
    | Overlap(other: string)

  datatype Fault = MissingParts | PartOrder(actual: seq<Kind>) | InPart(path: string, violation: Violation)

  /** An entry of the ordered map: a placed part, by its offset. */
  datatype Placed = Placed(start: nat, end: nat, path: string)

  // ----- the ordered map

  /** `range(..=key).next_back()`. */
  function AtOrBefore(ranges: seq<Placed>, key: nat): Option<Placed> {
    if ranges == [] then None
    else if ranges[|ranges| - 1].start <= key then Some(ranges[|ranges| - 1])
    else AtOrBefore(ranges[..|ranges| - 1], key)
  }

  /** `range(key..).next()`. */
  function AtOrAfter(ranges: seq<Placed>, key: nat): Option<Placed> {
    if ranges == [] then None
    else if ranges[0].start >= key then Some(ranges[0])
    else AtOrAfter(ranges[1..], key)
  }

  /** `insert`, which replaces an entry with the same offset. */
  function Insert(ranges: seq<Placed>, x: Placed): seq<Placed> {
    if ranges == [] then [x]
    else if x.start < ranges[0].start then [x] + ranges
    else if x.start == ranges[0].start then [x] + ranges[1..]
    else [ranges[0]] + Insert(ranges[1..], x)
  }

  // ----- the checks

  function RoundUp(size: nat): nat {
    (size + SECTOR - 1) / SECTOR * SECTOR
  }

  function Overlaps(ranges: seq<Placed>, start: nat, end: nat): Option<Violation> {
    var previous, next := AtOrBefore(ranges, start), AtOrAfter(ranges, start);
    if previous.Some? && previous.value.end > start then Some(Overlap(previous.value.path))
    else if next.Some? && end > next.value.start then Some(Overlap(next.value.path))
    else None
  }

  /** The sector-rounded range of a part, if it may go into this region at all. */
  function Footprint(board: Board, part: Part, region: Region): Result<Placed, Violation> {
    if part.offset.None? then Err(MissingOffset)
    else if part.size >= U32_LIMIT then Err(Size(part.size))
    else
      var offset := part.offset.value;
      var end := offset + RoundUp(part.size);
      if offset % SECTOR != 0 then Err(Alignment(offset))
      else if part.size + SECTOR - 1 >= U32_LIMIT || end >= U32_LIMIT then Err(EraseOverflow)
      else if end > board.flashSize then Err(PhysicalFlash(end, board.flashSize))
      else if offset != region.start || !Contains(region, offset, end) then Err(OutsideRegion(offset, end))
      else if offset < CONFIG_OFFSET + CONFIG_SIZE && CONFIG_OFFSET < end then Err(Provisioning)
      else Ok(Placed(offset, end, part.path))
  }

  function AssignedRegion(board: Board, kind: Kind): Result<Region, Violation> {
    match kind
    case Bootloader => if board.bootloader.None? then Err(MemoryProfile) else Ok(board.bootloader.value)
    case PartitionTable => if board.partitionTable.None? then Err(MemoryProfile) else Ok(board.partitionTable.value)
    case Application => Ok(board.firmwareOwned)
    case _ => Err(WrongKind(kind))
  }

  /** The map with the range added, unless the range cannot be had or overlaps another. */
  function PlacedAmong(x: Result<Placed, Violation>, ranges: seq<Placed>): Result<seq<Placed>, Violation> {
    if x.Err? then Err(x.error)
    else
      match Overlaps(ranges, x.value.start, x.value.end)
      case Some(e) => Err(e)
      case None => Ok(Insert(ranges, x.value))
  }

  /** Where the part goes, when it is judged on its own. */
  function Placement(board: Board, part: Part): Result<Placed, Violation> {
    match AssignedRegion(board, part.kind)
    case Err(e) => Err(e)
    case Ok(region) => Footprint(board, part, region)
  }

  datatype Progress = Progress(paths: set<string>, ranges: seq<Placed>)

  /** One part, in the source's order of checks. */
  function AddPart(board: Board, part: Part, p: Progress): Result<Progress, Violation> {
    if part.size == 0 then Err(Empty)
    else if !board.immutablePath(part.path) then Err(Path)
    else if !board.digest(part.sha256) then Err(Digest)
    else if part.path in p.paths then Err(DuplicatePath)
    else
      match PlacedAmong(Placement(board, part), p.ranges)
      case Err(e) => Err(e)
      case Ok(ranges) => Ok(Progress(p.paths + {part.path}, ranges))
  }

  function AddParts(board: Board, parts: seq<Part>, p: Progress): (r: Result<Progress, Fault>)
    ensures r.Err? ==> r.error.InPart?
  {
    if parts == [] then Ok(p)
    else
      match AddPart(board, parts[0], p)
      case Err(e) => Err(InPart(parts[0].path, e))
      case Ok(q) => AddParts(board, parts[1..], q)
  }

  function Kinds(parts: seq<Part>): (r: seq<Kind>)
    ensures |r| == |parts|
  {
    seq(|parts|, i requires 0 <= i < |parts| => parts[i].kind)
  }

  /** The ranges an accepted image occupies. */
  function Validate(board: Board, parts: seq<Part>): Result<seq<Placed>, Fault> {
    if parts == [] then Err(MissingParts)
    else if Kinds(parts) != REQUIRED then Err(PartOrder(Kinds(parts)))
    else
      match AddParts(board, parts, Progress({}, []))
      case Err(e) => Err(e)
      case Ok(p) => Ok(p.ranges)
  }

  // ----- the source's loop

  method ValidateRange(board: Board, part: Part, region: Region, ranges: seq<Placed>)
    returns (r: Result<seq<Placed>, Violation>)
    ensures r == PlacedAmong(Footprint(board, part, region), ranges)
  {
    if part.offset.None? {
      return Err(MissingOffset);
    }
    var offset, size := part.offset.value, part.size;
    if size >= U32_LIMIT {
      return Err(Size(size));
    }
    if offset % SECTOR != 0 {
      return Err(Alignment(offset));
    }
    if size + (SECTOR - 1) >= U32_LIMIT {
      return Err(EraseOverflow);
    }
    var eraseEnd := offset + (size + (SECTOR - 1)) / SECTOR * SECTOR;
    if eraseEnd >= U32_LIMIT {
      return Err(EraseOverflow);
    }
    if eraseEnd > board.flashSize {
      return Err(PhysicalFlash(eraseEnd, board.flashSize));
    }
    if offset != region.start || !Contains(region, offset, eraseEnd) {
      return Err(OutsideRegion(offset, eraseEnd));
    }
    var provisioningEnd := CONFIG_OFFSET + CONFIG_SIZE;
    if offset < provisioningEnd && CONFIG_OFFSET < eraseEnd {
      return Err(Provisioning);
    }
    var previous := AtOrBefore(ranges, offset);
    if previous.Some? && previous.value.end > offset {
      return Err(Overlap(previous.value.path));
    }
    var next := AtOrAfter(ranges, offset);
    if next.Some? && eraseEnd > next.value.start {
      return Err(Overlap(next.value.path));
    }
    return Ok(Insert(ranges, Placed(offset, eraseEnd, part.path)));
  }

  method ValidatePart(board: Board, part: Part, p: Progress) returns (r: Result<Progress, Violation>)
    ensures r == AddPart(board, part, p)
  {
    if part.size == 0 {
      return Err(Empty);
    }
    if !board.immutablePath(part.path) {
      return Err(Path);
    }
    if !board.digest(part.sha256) {
      return Err(Digest);
    }
    if part.path in p.paths {
      return Err(DuplicatePath);
    }
    var region := AssignedRegion(board, part.kind);
    if region.Err? {
      return Err(region.error);
    }
    var ranges := ValidateRange(board, part, region.value, p.ranges);
    return if ranges.Err? then Err(ranges.error) else Ok(Progress(p.paths + {part.path}, ranges.value));
  }

  method ValidateImage(board: Board, parts: seq<Part>) returns (r: Result<seq<Placed>, Fault>)
    ensures r == Validate(board, parts)
  {
    if parts == [] {
      return Err(MissingParts);
    }
    if Kinds(parts) != REQUIRED {
      return Err(PartOrder(Kinds(parts)));
    }
    var p := Progress({}, []);
    for i := 0 to |parts|
      invariant AddParts(board, parts, Progress({}, [])) == AddParts(board, parts[i..], p)
    {
      assert parts[i..][1..] == parts[i + 1..];
      var added := ValidatePart(board, parts[i], p);
      if added.Err? {
        return Err(InPart(parts[i].path, added.error));
      }
      p := added.value;
    }
    return Ok(p.ranges);
  }
}
