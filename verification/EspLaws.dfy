/** Two neighbours in the ordered map are enough to keep every placed range apart. */
module EspLaws {
  import opened Bytes
  import opened EspImage

  predicate Apart(x: Placed, start: nat, end: nat) {
    x.end <= start || end <= x.start
  }

  predicate ApartFromAll(ranges: seq<Placed>, start: nat, end: nat) {
    forall i :: 0 <= i < |ranges| ==> Apart(ranges[i], start, end)
  }

  /** Nonempty ranges in order, none reaching into the next. */
  predicate Tidy(ranges: seq<Placed>) {
    && (forall i :: 0 <= i < |ranges| ==> ranges[i].start < ranges[i].end)
    && (forall i, j :: 0 <= i < j < |ranges| ==> ranges[i].end <= ranges[j].start)
  }

  // ----- the neighbours

  /** The last range that starts no later than the key bounds all ranges that do. */
  lemma {:induction false} PreviousBounds(ranges: seq<Placed>, key: nat)
    requires Tidy(ranges)
    ensures var previous := AtOrBefore(ranges, key);
            forall i :: 0 <= i < |ranges| && ranges[i].start <= key ==>
              previous.Some? && ranges[i].end <= previous.value.end
    ensures var previous := AtOrBefore(ranges, key);
            previous.Some? ==> previous.value in ranges && previous.value.start <= key
    decreases |ranges|
  {
    if ranges != [] && ranges[|ranges| - 1].start > key {
      PreviousBounds(ranges[..|ranges| - 1], key);
    }
  }

  /** The first range that starts no earlier than the key comes before all ranges that do. */
  lemma {:induction false} NextBounds(ranges: seq<Placed>, key: nat)
    requires Tidy(ranges)
    ensures var next := AtOrAfter(ranges, key);
            forall i :: 0 <= i < |ranges| && ranges[i].start >= key ==>
              next.Some? && next.value.start <= ranges[i].start
    ensures var next := AtOrAfter(ranges, key);
            next.Some? ==> next.value in ranges && next.value.start >= key
    decreases |ranges|
  {
    if ranges != [] && ranges[0].start < key {
      NextBounds(ranges[1..], key);
      assert forall i :: 0 < i < |ranges| ==> ranges[i] == ranges[1..][i - 1];
    }
  }

  /** Checking the two neighbours decides whether a range is apart from every placed one. */
  lemma NeighboursDecide(ranges: seq<Placed>, start: nat, end: nat)
    requires Tidy(ranges) && start < end
    ensures Overlaps(ranges, start, end).None? <==> ApartFromAll(ranges, start, end)
  {
    PreviousBounds(ranges, start);
    NextBounds(ranges, start);
    var previous, next := AtOrBefore(ranges, start), AtOrAfter(ranges, start);
    if ApartFromAll(ranges, start, end) {
      if previous.Some? {
        var i :| 0 <= i < |ranges| && ranges[i] == previous.value;
        assert Apart(ranges[i], start, end);
      }
      if next.Some? {
        var i :| 0 <= i < |ranges| && ranges[i] == next.value;
        assert Apart(ranges[i], start, end);
      }
    }
  }

  lemma TidyCons(x: Placed, rest: seq<Placed>)
    requires x.start < x.end && Tidy(rest) && (rest == [] || x.end <= rest[0].start)
    ensures Tidy([x] + rest)
  {
    var all := [x] + rest;
    forall i, j | 0 <= i < j < |all| ensures all[i].end <= all[j].start {
      assert all[j] == rest[j - 1];
      assert rest[0].start <= rest[j - 1].start;
    }
  }

  lemma TidyTail(ranges: seq<Placed>)
    requires ranges != [] && Tidy(ranges)
    ensures Tidy(ranges[1..]) && ranges == [ranges[0]] + ranges[1..]
    ensures |ranges| > 1 ==> ranges[0].end <= ranges[1].start
  {
  }

  /** A range that is apart from all others keeps the map tidy. */
  lemma {:induction false} InsertKeepsTidy(ranges: seq<Placed>, x: Placed)
    requires Tidy(ranges) && x.start < x.end && ApartFromAll(ranges, x.start, x.end)
    ensures Tidy(Insert(ranges, x))
    decreases |ranges|
  {
    if ranges == [] {
      TidyCons(x, []);
    } else {
      TidyTail(ranges);
      assert Apart(ranges[0], x.start, x.end);
      if x.start < ranges[0].start {
        TidyCons(x, ranges);
      } else if x.start > ranges[0].start {
        InsertKeepsTidy(ranges[1..], x);
        TidyCons(ranges[0], Insert(ranges[1..], x));
      }
    }
  }

  /** It is added, and replaces nothing. */
  lemma {:induction false} InsertAdds(ranges: seq<Placed>, x: Placed)
    requires Tidy(ranges) && x.start < x.end && ApartFromAll(ranges, x.start, x.end)
    ensures multiset(Insert(ranges, x)) == multiset(ranges) + multiset{x}
    decreases |ranges|
  {
    if ranges != [] {
      TidyTail(ranges);
      assert Apart(ranges[0], x.start, x.end);
      if x.start > ranges[0].start {
        InsertAdds(ranges[1..], x);
      }
    }
  }

  // ----- one part on its own

  /** The range starts with the part's own region and ends within it: one region for each of three kinds. */
  predicate InOwnRegion(board: Board, kind: Kind, x: Placed) {
    match kind
    case Bootloader => board.bootloader.Some? && Within(board.bootloader.value, x)
    case PartitionTable => board.partitionTable.Some? && Within(board.partitionTable.value, x)
    case Application => Within(board.firmwareOwned, x)
    case _ => false
  }

  predicate Within(r: Region, x: Placed) {
    x.start == r.start && x.end <= r.end
  }

  /**
   * The part's range in flash: it starts at the part's offset, on a sector, and ends at the least sector that
   * covers the part; it lies within 32 bits, the flash and the part's own region, clear of the provisioning slot.
   */
  predicate Occupies(board: Board, part: Part, x: Placed) {
    && part.offset == Some(x.start) && x.path == part.path && x.start < x.end
    && x.start % 0x1000 == 0 && x.end % 0x1000 == 0
    && x.start + part.size <= x.end < x.start + part.size + 0x1000
    && x.end < 0x1_0000_0000 && x.end <= board.flashSize
    && InOwnRegion(board, part.kind, x)
    && (x.end <= 0xd000 || 0xe000 <= x.start)
  }

  lemma RoundedUp(size: nat)
    ensures size <= RoundUp(size) < size + SECTOR && RoundUp(size) % SECTOR == 0
  {
  }

  lemma SumOfSectors(start: nat, size: nat)
    requires start % SECTOR == 0
    ensures (start + size) % SECTOR == 0 <==> size % SECTOR == 0
  {
  }

  /** Only one end of a range is on a sector and covers the part with less than a sector to spare. */
  lemma OneSector(size: nat, a: nat, b: nat)
    requires a % SECTOR == 0 && b % SECTOR == 0 && size <= a < size + SECTOR && size <= b < size + SECTOR
    ensures a == b
  {
  }

  /** A part is placed exactly where it may be, and refused if that is nowhere. */
  lemma PlacementIff(board: Board, part: Part, x: Placed)
    ensures Placement(board, part) == Ok(x) <==> Occupies(board, part, x)
  {
    RoundedUp(part.size);
    if part.offset.Some? && part.offset.value % SECTOR == 0 {
      SumOfSectors(part.offset.value, RoundUp(part.size));
      if Occupies(board, part, x) {
        SumOfSectors(x.start, x.end - x.start);
        OneSector(part.size, RoundUp(part.size), x.end - x.start);
      }
    }
  }

  lemma PlacementOccupies(board: Board, part: Part)
    requires Placement(board, part).Ok?
    ensures Occupies(board, part, Placement(board, part).value)
  {
    PlacementIff(board, part, Placement(board, part).value);
  }

  predicate Acceptable(board: Board, part: Part) {
    part.size > 0 && board.immutablePath(part.path) && board.digest(part.sha256) && Placement(board, part).Ok?
  }

  // ----- all parts

  predicate Compatible(board: Board, part: Part, other: Part)
    requires Acceptable(board, part) && Acceptable(board, other)
  {
    var x := Placement(board, other).value;
    part.path != other.path && Apart(Placement(board, part).value, x.start, x.end)
  }

  predicate Admits(board: Board, p: Progress, part: Part) {
    && Acceptable(board, part) && part.path !in p.paths
    && ApartFromAll(p.ranges, Placement(board, part).value.start, Placement(board, part).value.end)
  }

  predicate AllAcceptable(board: Board, parts: seq<Part>) {
    forall i :: 0 <= i < |parts| ==> Acceptable(board, parts[i])
  }

  predicate AllCompatible(board: Board, parts: seq<Part>)
    requires AllAcceptable(board, parts)
  {
    forall i, j :: 0 <= i < j < |parts| ==> Compatible(board, parts[i], parts[j])
  }

  function Placements(board: Board, parts: seq<Part>): (r: seq<Placed>)
    requires AllAcceptable(board, parts)
    ensures |r| == |parts|
  {
    if parts == [] then [] else [Placement(board, parts[0]).value] + Placements(board, parts[1..])
  }

  lemma AddedPart(board: Board, part: Part, p: Progress)
    requires Tidy(p.ranges)
    ensures AddPart(board, part, p).Ok? <==> Admits(board, p, part)
    ensures AddPart(board, part, p).Ok? ==>
            var q, x := AddPart(board, part, p).value, Placement(board, part).value;
            Tidy(q.ranges) && q.paths == p.paths + {part.path} && multiset(q.ranges) == multiset(p.ranges) + multiset{x}
  {
    if part.size > 0 && Placement(board, part).Ok? {
      var x := Placement(board, part).value;
      PlacementOccupies(board, part);
      NeighboursDecide(p.ranges, x.start, x.end);
      if ApartFromAll(p.ranges, x.start, x.end) {
        InsertKeepsTidy(p.ranges, x);
        InsertAdds(p.ranges, x);
      }
    }
  }

  /** Being admitted after a part is being admitted before it and being compatible with it. */
  lemma AdmitsNext(board: Board, p: Progress, part: Part, q: Progress, other: Part)
    requires Acceptable(board, part) && q.paths == p.paths + {part.path}
    requires multiset(q.ranges) == multiset(p.ranges) + multiset{Placement(board, part).value}
    ensures Admits(board, q, other) <==> Admits(board, p, other) && Compatible(board, part, other)
  {
    if Acceptable(board, other) {
      var x := Placement(board, other).value;
      ApartAsBag(p.ranges, x.start, x.end);
      ApartAsBag(q.ranges, x.start, x.end);
      var y := Placement(board, part).value;
      assert y in multiset(q.ranges);
      assert forall z :: z in multiset(q.ranges) <==> z in multiset(p.ranges) || z == y;
    }
  }

  lemma ApartAsBag(ranges: seq<Placed>, start: nat, end: nat)
    ensures ApartFromAll(ranges, start, end) <==> forall x :: x in multiset(ranges) ==> Apart(x, start, end)
  {
    if ApartFromAll(ranges, start, end) {
      forall x | x in multiset(ranges) ensures Apart(x, start, end) {
        var i :| 0 <= i < |ranges| && ranges[i] == x;
      }
    } else {
      var i :| 0 <= i < |ranges| && !Apart(ranges[i], start, end);
      assert ranges[i] in multiset(ranges);
    }
  }

  predicate AllAdmitted(board: Board, parts: seq<Part>, p: Progress) {
    forall i :: 0 <= i < |parts| ==> Admits(board, p, parts[i])
  }

  /** The loop accepts exactly the parts that are admissible one by one and compatible two by two. */
  lemma {:induction false} LoopExact(board: Board, parts: seq<Part>, p: Progress)
    requires Tidy(p.ranges)
    ensures AddParts(board, parts, p).Ok? <==>
            AllAdmitted(board, parts, p) && AllAcceptable(board, parts) && AllCompatible(board, parts)
    ensures AddParts(board, parts, p).Ok? ==>
            var q := AddParts(board, parts, p).value;
            Tidy(q.ranges) && multiset(q.ranges) == multiset(p.ranges) + multiset(Placements(board, parts))
    decreases |parts|
  {
    if parts != [] {
      AddedPart(board, parts[0], p);
      if Admits(board, p, parts[0]) {
        var q, rest := AddPart(board, parts[0], p).value, parts[1..];
        LoopExact(board, rest, q);
        AdmittedSplit(board, parts, p, q);
      } else {
        assert !AllAdmitted(board, parts, p);
      }
    }
  }

  lemma AdmittedSplit(board: Board, parts: seq<Part>, p: Progress, q: Progress)
    requires parts != [] && Admits(board, p, parts[0]) && q.paths == p.paths + {parts[0].path}
    requires multiset(q.ranges) == multiset(p.ranges) + multiset{Placement(board, parts[0]).value}
    ensures AllAdmitted(board, parts, p) && AllAcceptable(board, parts) && AllCompatible(board, parts) <==>
            AllAdmitted(board, parts[1..], q) && AllAcceptable(board, parts[1..]) && AllCompatible(board, parts[1..])
  {
    var rest := parts[1..];
    forall i | 0 <= i < |rest|
      ensures Admits(board, q, rest[i]) <==> Admits(board, p, rest[i]) && Compatible(board, parts[0], rest[i])
    {
      AdmitsNext(board, p, parts[0], q, rest[i]);
    }
    assert forall i :: 0 < i < |parts| ==> parts[i] == rest[i - 1];
  }

  lemma LoopAccepts(board: Board, parts: seq<Part>)
    ensures Validate(board, parts).Ok? <==>
            Kinds(parts) == REQUIRED && AllAcceptable(board, parts) && AllCompatible(board, parts)
    ensures Validate(board, parts).Ok? ==>
            var ranges := Validate(board, parts).value;
            Tidy(ranges) && multiset(ranges) == multiset(Placements(board, parts))
  {
    LoopExact(board, parts, Progress({}, []));
    assert |Kinds([])| == 0;
  }

  // ----- the whole image

  /** A part that is not empty, with a path and digest of the right form, occupies this range. */
  predicate Sits(board: Board, part: Part, x: Placed) {
    part.size > 0 && board.immutablePath(part.path) && board.digest(part.sha256) && Occupies(board, part, x)
  }

  /** These are the ranges of the parts, and no two parts share a path or any flash. */
  predicate Occupied(board: Board, parts: seq<Part>, xs: seq<Placed>) {
    && |xs| == |parts|
    && (forall i :: 0 <= i < |parts| ==> Sits(board, parts[i], xs[i]))
    && (forall i, j :: 0 <= i < j < |parts| ==> parts[i].path != parts[j].path && Apart(xs[i], xs[j].start, xs[j].end))
  }

  lemma {:induction false} PlacementsAt(board: Board, parts: seq<Part>, i: nat)
    requires AllAcceptable(board, parts) && i < |parts|
    ensures Placements(board, parts)[i] == Placement(board, parts[i]).value
    decreases |parts|
  {
    if i > 0 {
      PlacementsAt(board, parts[1..], i - 1);
    }
  }

  lemma AcceptableOccupies(board: Board, parts: seq<Part>)
    requires AllAcceptable(board, parts) && AllCompatible(board, parts)
    ensures Occupied(board, parts, Placements(board, parts))
  {
    var xs := Placements(board, parts);
    forall i | 0 <= i < |parts| ensures Sits(board, parts[i], xs[i]) && xs[i] == Placement(board, parts[i]).value {
      PlacementsAt(board, parts, i);
      assert Acceptable(board, parts[i]);
      PlacementOccupies(board, parts[i]);
    }
    forall i, j | 0 <= i < j < |parts| ensures parts[i].path != parts[j].path && Apart(xs[i], xs[j].start, xs[j].end) {
      assert Compatible(board, parts[i], parts[j]);
    }
  }

  lemma OccupiedAcceptable(board: Board, parts: seq<Part>, xs: seq<Placed>)
    requires Occupied(board, parts, xs)
    ensures AllAcceptable(board, parts) && AllCompatible(board, parts) && Placements(board, parts) == xs
  {
    forall i | 0 <= i < |parts| ensures Acceptable(board, parts[i]) && Placement(board, parts[i]) == Ok(xs[i]) {
      assert Sits(board, parts[i], xs[i]);
      PlacementIff(board, parts[i], xs[i]);
    }
    forall i | 0 <= i < |parts| ensures Placements(board, parts)[i] == xs[i] {
      PlacementsAt(board, parts, i);
    }
  }

  /**
   * An image is accepted if and only if it consists of a bootloader, a partition table and an application, in
   * this order, each of which has a range it may occupy, no two sharing a path or any flash; the map then holds
   * exactly these ranges, in order.
   */
  lemma AcceptedExactly(board: Board, parts: seq<Part>)
    ensures Validate(board, parts).Ok? <==>
            && Kinds(parts) == [Bootloader, PartitionTable, Application]
            && exists xs :: Occupied(board, parts, xs)
    ensures forall xs :: Validate(board, parts).Ok? && Occupied(board, parts, xs) ==>
              Tidy(Validate(board, parts).value) && multiset(Validate(board, parts).value) == multiset(xs)
  {
    LoopAccepts(board, parts);
    if Validate(board, parts).Ok? {
      AcceptableOccupies(board, parts);
    }
    forall xs | Occupied(board, parts, xs)
      ensures AllAcceptable(board, parts) && AllCompatible(board, parts) && Placements(board, parts) == xs
    {
      OccupiedAcceptable(board, parts, xs);
    }
  }

  // ----- what a fault says

  /** The least sector end that covers the part. */
  predicate EndsAt(part: Part, end: nat) {
    && part.offset.Some? && end % 0x1000 == 0
    && part.offset.value + part.size <= end < part.offset.value + part.size + 0x1000
  }

  /** What a violation says of a part that comes after some others and their ranges. */
  ghost predicate Blames(board: Board, part: Part, before: seq<Part>, ranges: seq<Placed>, v: Violation) {
    match v
    case Empty => part.size == 0
    case Path => !board.immutablePath(part.path)
    case Digest => !board.digest(part.sha256)
    case DuplicatePath => exists i :: 0 <= i < |before| && before[i].path == part.path
    case WrongKind(kind) => kind == part.kind && kind !in [Bootloader, PartitionTable, Application]
    case MemoryProfile =>
      || (part.kind == Bootloader && board.bootloader == None)
      || (part.kind == PartitionTable && board.partitionTable == None)
    case MissingOffset => part.offset == None
    case Size(size) => size == part.size >= 0x1_0000_0000
    case Alignment(offset) => part.offset == Some(offset) && offset % 0x1000 != 0
    case EraseOverflow =>
      part.size < 0x1_0000_0000 && part.offset.Some? && part.offset.value + part.size > 0xffff_f000
    case PhysicalFlash(end, size) => EndsAt(part, end) && size == board.flashSize < end
    case OutsideRegion(offset, end) =>
      && part.offset == Some(offset) && EndsAt(part, end)
      && !InOwnRegion(board, part.kind, Placed(offset, end, part.path))
    case Provisioning => exists end :: EndsAt(part, end) && part.offset.value < 0xe000 && 0xd000 < end
    case Overlap(other) =>
      exists x, end :: x in ranges && x.path == other && EndsAt(part, end) && !Apart(x, part.offset.value, end)
  }

  lemma FootprintBlames(board: Board, part: Part, region: Region, before: seq<Part>, ranges: seq<Placed>)
    requires part.size > 0 && AssignedRegion(board, part.kind) == Ok(region)
    ensures var x := Footprint(board, part, region); x.Err? ==> Blames(board, part, before, ranges, x.error)
  {
    RoundedUp(part.size);
    if part.offset.Some? && part.offset.value % SECTOR == 0 {
      SumOfSectors(part.offset.value, RoundUp(part.size));
      assert EndsAt(part, part.offset.value + RoundUp(part.size));
    }
  }

  lemma OverlapBlames(board: Board, part: Part, before: seq<Part>, ranges: seq<Placed>, x: Placed)
    requires Tidy(ranges) && Occupies(board, part, x) && Overlaps(ranges, x.start, x.end).Some?
    ensures Blames(board, part, before, ranges, Overlaps(ranges, x.start, x.end).value)
  {
    PreviousBounds(ranges, x.start);
    NextBounds(ranges, x.start);
    assert EndsAt(part, x.end);
    var previous, next := AtOrBefore(ranges, x.start), AtOrAfter(ranges, x.start);
    if previous.Some? && previous.value.end > x.start {
      assert previous.value in ranges && !Apart(previous.value, part.offset.value, x.end);
    } else {
      assert next.value in ranges && !Apart(next.value, part.offset.value, x.end);
    }
  }

  lemma PartBlames(board: Board, part: Part, before: seq<Part>, p: Progress)
    requires Tidy(p.ranges)
    requires forall path :: path in p.paths <==> exists i :: 0 <= i < |before| && before[i].path == path
    requires AddPart(board, part, p).Err?
    ensures Blames(board, part, before, p.ranges, AddPart(board, part, p).error)
  {
    var region := AssignedRegion(board, part.kind);
    if part.size > 0 && region.Ok? {
      FootprintBlames(board, part, region.value, before, p.ranges);
      if Placement(board, part).Ok? {
        PlacementOccupies(board, part);
        var x := Placement(board, part).value;
        if Overlaps(p.ranges, x.start, x.end).Some? {
          OverlapBlames(board, part, before, p.ranges, x);
        }
      }
    }
  }

  lemma {:induction false} AddPartsSnoc(board: Board, parts: seq<Part>, part: Part, p: Progress)
    requires AddParts(board, parts, p).Ok?
    ensures AddParts(board, parts + [part], p) ==
            match AddPart(board, part, AddParts(board, parts, p).value)
            case Err(e) => Err(InPart(part.path, e))
            case Ok(q) => Ok(q)
    decreases |parts|
  {
    if parts == [] {
      assert [] + [part] == [part] && [part][1..] == [];
    } else {
      assert (parts + [part])[1..] == parts[1..] + [part];
      AddPartsSnoc(board, parts[1..], part, AddPart(board, parts[0], p).value);
    }
  }

  lemma {:induction false} PathsSeen(board: Board, parts: seq<Part>, p: Progress, path: string)
    requires AddParts(board, parts, p).Ok?
    ensures path in AddParts(board, parts, p).value.paths <==>
            path in p.paths || exists i :: 0 <= i < |parts| && parts[i].path == path
    decreases |parts|
  {
    if parts != [] {
      PathsSeen(board, parts[1..], AddPart(board, parts[0], p).value, path);
      assert forall i :: 0 < i < |parts| ==> parts[i] == parts[1..][i - 1];
    }
  }

  /** The parts before number i are fine, and the violation is true of that one. */
  ghost predicate FirstFault(board: Board, parts: seq<Part>, i: nat, path: string, v: Violation) {
    && i < |parts| && parts[i].path == path
    && exists xs :: Occupied(board, parts[..i], xs) && Blames(board, parts[i], parts[..i], xs, v)
  }

  lemma FaultAt(board: Board, before: seq<Part>, part: Part, rest: seq<Part>, p: Progress)
    requires AddParts(board, before, Progress({}, [])) == Ok(p) && AddPart(board, part, p).Err?
    ensures FirstFault(board, before + [part] + rest, |before|, part.path, AddPart(board, part, p).error)
  {
    LoopExact(board, before, Progress({}, []));
    forall path ensures path in p.paths <==> exists i :: 0 <= i < |before| && before[i].path == path {
      PathsSeen(board, before, Progress({}, []), path);
    }
    PartBlames(board, part, before, p);
    AcceptableOccupies(board, before);
    var xs := Placements(board, before);
    forall x ensures x in p.ranges <==> x in xs {
      assert x in multiset(p.ranges) <==> x in multiset(xs);
    }
    assert Blames(board, part, before, xs, AddPart(board, part, p).error);
    var all := before + [part] + rest;
    assert all[..|before|] == before && all[|before|] == part;
  }

  lemma {:induction false} LoopBlames(
    board: Board, before: seq<Part>, rest: seq<Part>, p: Progress, path: string, v: Violation) returns (i: nat)
    requires AddParts(board, before, Progress({}, [])) == Ok(p) && AddParts(board, rest, p) == Err(InPart(path, v))
    ensures FirstFault(board, before + rest, i, path, v)
    decreases |rest|
  {
    var part := rest[0];
    var added := AddPart(board, part, p);
    assert before + [part] + rest[1..] == before + rest;
    if added.Err? {
      i := |before|;
      FaultAt(board, before, part, rest[1..], p);
    } else {
      AddPartsSnoc(board, before, part, Progress({}, []));
      i := LoopBlames(board, before + [part], rest[1..], added.value, path, v);
    }
  }

  /**
   * A refusal tells the truth: of the parts if their kinds are not the required ones, and otherwise of the first
   * part that will not do, all before it being fine.
   */
  lemma FaultsAreReal(board: Board, parts: seq<Part>)
    requires Validate(board, parts).Err?
    ensures match Validate(board, parts).error
            case MissingParts => parts == []
            case PartOrder(actual) => actual == Kinds(parts) != [Bootloader, PartitionTable, Application]
            case InPart(path, v) => exists i :: FirstFault(board, parts, i, path, v)
  {
    var fault := Validate(board, parts).error;
    if fault.InPart? {
      assert [] + parts == parts;
      var i := LoopBlames(board, [], parts, Progress({}, []), fault.path, fault.violation);
    }
  }
}
