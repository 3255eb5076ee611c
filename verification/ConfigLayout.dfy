/**
 * Where sections and keys lie in the source text (`prns-config/src/configobj.rs`). Positions count
 * characters.
 */
module ConfigLayout {
  import opened ConfigTree

  datatype Range = Range(start: nat, end: nat)

  datatype DocumentSection = DocumentSection(path: Path, depth: nat, range: Range, header: Range)

  datatype DocumentKey = DocumentKey(path: Path, range: Range)

  // ----- how consecutive headers relate

  /** Each header is at most one deeper than the one before and keeps that one's path up to its depth. */
  predicate LinksTo(a: DocumentSection, b: DocumentSection) {
    && 1 <= b.depth <= a.depth + 1
    && b.depth <= |b.path| && b.depth <= |a.path| + 1
    && b.path[..b.depth - 1] == a.path[..b.depth - 1]
  }

  predicate LinkedAt(s: seq<DocumentSection>, i: nat)
    requires i < |s|
  {
    s[i].depth >= 1 && |s[i].path| == s[i].depth && (if i == 0 then s[0].depth == 1 else LinksTo(s[i - 1], s[i]))
  }

  predicate Chained(s: seq<DocumentSection>) {
    forall i :: 0 <= i < |s| ==> LinkedAt(s, i)
  }

  /** The next header that is not deeper than section i, or the end of the list. */
  function NextClosing(s: seq<DocumentSection>, i: nat, j: nat): (k: nat)
    requires i < j <= |s|
    ensures j <= k <= |s|
    ensures k < |s| ==> s[k].depth <= s[i].depth
    ensures forall m :: j <= m < k ==> s[m].depth > s[i].depth
    decreases |s| - j
  {
    if j == |s| || s[j].depth <= s[i].depth then j else NextClosing(s, i, j + 1)
  }

  function Closing(s: seq<DocumentSection>, i: nat): nat
    requires i < |s|
  {
    NextClosing(s, i, i + 1)
  }

  function EndAt(s: seq<DocumentSection>, i: nat, limit: nat): nat
    requires i < |s|
  {
    var k := Closing(s, i);
    if k < |s| then s[k].range.start else limit
  }

  /** A section reaches to the next header that is not deeper, or to the end of the text. */
  predicate EndsAt(s: seq<DocumentSection>, i: nat, limit: nat)
    requires i < |s|
  {
    s[i].range.end == EndAt(s, i, limit)
  }

  predicate Ends(s: seq<DocumentSection>, limit: nat) {
    forall i :: 0 <= i < |s| ==> EndsAt(s, i, limit)
  }

  predicate HeaderAt(s: seq<DocumentSection>, i: nat, limit: nat)
    requires i < |s|
  {
    && s[i].header.start == s[i].range.start < s[i].header.end
    && s[i].header.end <= (if i + 1 < |s| then s[i + 1].range.start else limit)
  }

  predicate Headers(s: seq<DocumentSection>, limit: nat) {
    forall i :: 0 <= i < |s| ==> HeaderAt(s, i, limit)
  }

  predicate DistinctSections(s: seq<DocumentSection>) {
    forall i, j :: 0 <= i < j < |s| ==> s[i].path != s[j].path
  }

  lemma {:induction false} StartsIncrease(s: seq<DocumentSection>, i: nat, j: nat, limit: nat)
    requires Headers(s, limit) && i <= j < |s|
    ensures s[i].range.start <= s[j].range.start
    ensures i < j ==> s[i].header.end <= s[j].range.start
    decreases j - i
  {
    if i < j {
      StartsIncrease(s, i, j - 1, limit);
      assert HeaderAt(s, j - 1, limit);
    }
  }

  // ----- nested exactly when one path continues the other

  lemma {:induction false} InsideContinues(s: seq<DocumentSection>, i: nat, j: nat)
    requires Chained(s) && i < |s| && i <= j < Closing(s, i)
    ensures s[i].path <= s[j].path
    decreases j
  {
    if i < j {
      InsideContinues(s, i, j - 1);
      assert LinkedAt(s, j) && LinkedAt(s, j - 1) && LinkedAt(s, i);
      assert s[i].path <= s[j - 1].path;
      var d := s[i].depth;
      assert s[j].path[..d] == s[j].path[..s[j].depth - 1][..d] == s[j - 1].path[..d];
    }
  }

  lemma {:induction false} OutsideDoesNot(s: seq<DocumentSection>, i: nat, j: nat)
    requires Chained(s) && DistinctSections(s) && i < |s| && Closing(s, i) <= j < |s|
    ensures !(s[i].path <= s[j].path)
    decreases j
  {
    assert LinkedAt(s, j) && LinkedAt(s, i);
    var d := s[i].depth;
    if s[j].depth > d {
      assert Closing(s, i) < j;
      OutsideDoesNot(s, i, j - 1);
      assert LinkedAt(s, j - 1);
      assert s[j].path[..d] == s[j].path[..s[j].depth - 1][..d];
      assert s[j - 1].path[..d] == s[j - 1].path[..s[j].depth - 1][..d];
    }
  }

  predicate Inside(a: Range, b: Range) {
    b.start <= a.start && a.end <= b.end
  }

  predicate Apart(a: Range, b: Range) {
    a.end <= b.start || b.end <= a.start
  }

  predicate WellLaid(s: seq<DocumentSection>, limit: nat) {
    Chained(s) && Ends(s, limit) && Headers(s, limit) && DistinctSections(s)
  }

  /** Every section lies in the text and holds its own header. */
  lemma SectionInBounds(s: seq<DocumentSection>, limit: nat, i: nat)
    requires WellLaid(s, limit) && i < |s|
    ensures s[i].header.start == s[i].range.start < s[i].header.end <= s[i].range.end <= limit
  {
    assert HeaderAt(s, i, limit) && EndsAt(s, i, limit);
    StartInBounds(s, limit, i);
    var k := Closing(s, i);
    if k < |s| {
      StartsIncrease(s, i, k, limit);
      StartInBounds(s, limit, k);
    }
  }

  lemma StartInBounds(s: seq<DocumentSection>, limit: nat, i: nat)
    requires Headers(s, limit) && i < |s|
    ensures s[i].range.start <= limit && s[i].header.end <= limit
  {
    StartsIncrease(s, i, |s| - 1, limit);
    assert HeaderAt(s, |s| - 1, limit);
  }

  /**
   * Two sections are nested exactly when the later one's path continues the earlier one's, and
   * otherwise apart.
   */
  lemma NestedIffPrefix(s: seq<DocumentSection>, limit: nat, i: nat, j: nat)
    requires WellLaid(s, limit) && i < j < |s|
    ensures s[i].path <= s[j].path ==> Inside(s[j].range, s[i].range)
    ensures !(s[i].path <= s[j].path) ==> Apart(s[i].range, s[j].range)
    ensures !(s[j].path <= s[i].path)
  {
    if j < Closing(s, i) {
      InsideContinues(s, i, j);
      NestsInside(s, limit, i, j);
    } else {
      OutsideDoesNot(s, i, j);
      assert EndsAt(s, i, limit);
      StartsIncrease(s, Closing(s, i), j, limit);
    }
    LaterIsNotAbove(s, i, j);
  }

  lemma NestsInside(s: seq<DocumentSection>, limit: nat, i: nat, j: nat)
    requires WellLaid(s, limit) && i < |s| && i < j < Closing(s, i)
    ensures Inside(s[j].range, s[i].range)
  {
    assert EndsAt(s, i, limit) && EndsAt(s, j, limit);
    StartsIncrease(s, i, j, limit);
    ClosesNoLater(s, i, j);
    SectionInBounds(s, limit, j);
    if Closing(s, i) < |s| {
      StartsIncrease(s, Closing(s, j), Closing(s, i), limit);
    }
  }

  lemma LaterIsNotAbove(s: seq<DocumentSection>, i: nat, j: nat)
    requires Chained(s) && DistinctSections(s) && i < j < |s|
    ensures !(s[j].path <= s[i].path)
  {
    assert LinkedAt(s, i) && LinkedAt(s, j);
    if s[j].path <= s[i].path {
      var k := Ancestor(s, i, s[j].depth);
    }
  }

  lemma ClosesNoLater(s: seq<DocumentSection>, i: nat, j: nat)
    requires i < |s| && i < j < Closing(s, i)
    ensures j < |s| && Closing(s, j) <= Closing(s, i)
  {
    var c := Closing(s, i);
    assert s[j].depth > s[i].depth;
    assert c < |s| ==> s[c].depth <= s[i].depth;
  }

  /** Every section on the way to a section has its own header before it. */
  lemma {:induction false} Ancestor(s: seq<DocumentSection>, i: nat, d: nat) returns (k: nat)
    requires Chained(s) && i < |s| && 1 <= d <= s[i].depth
    ensures k <= i && d <= |s[i].path| && s[k].path == s[i].path[..d]
    decreases i
  {
    assert LinkedAt(s, i);
    if d == s[i].depth {
      k := i;
      assert s[i].path[..d] == s[i].path;
    } else {
      assert LinkedAt(s, i - 1);
      k := Ancestor(s, i - 1, d);
      assert s[i].path[..d] == s[i].path[..s[i].depth - 1][..d];
      assert s[i - 1].path[..d] == s[i - 1].path[..s[i].depth - 1][..d];
    }
  }

  // ----- where keys lie

  /** The last section whose header starts at or before `at`, or -1. */
  function OwnerAt(s: seq<DocumentSection>, at: nat): (o: int)
    ensures -1 <= o < |s|
    ensures o >= 0 ==> s[o].range.start <= at
    ensures o + 1 < |s| ==> s[o + 1].range.start > at
  {
    if s == [] then -1
    else if s[|s| - 1].range.start <= at then |s| - 1
    else OwnerAt(s[..|s| - 1], at)
  }

  function OwnerPath(s: seq<DocumentSection>, o: int): Path
    requires -1 <= o < |s|
  {
    if o < 0 then [] else s[o].path
  }

  /** A key is written between its section's header and the next header of any section. */
  predicate KeyPlaced(s: seq<DocumentSection>, k: DocumentKey, limit: nat) {
    var o := OwnerAt(s, k.range.start);
    && k.path != [] && k.path[..|k.path| - 1] == OwnerPath(s, o)
    && (o >= 0 ==> s[o].header.end <= k.range.start)
    && k.range.start < k.range.end <= (if o + 1 < |s| then s[o + 1].range.start else limit)
  }

  predicate KeysPlaced(s: seq<DocumentSection>, keys: seq<DocumentKey>, limit: nat) {
    && (forall i :: 0 <= i < |keys| ==> KeyPlaced(s, keys[i], limit))
    && (forall i, j :: 0 <= i < j < |keys| ==> keys[i].range.end <= keys[j].range.start)
  }

  /** The stretch of text that belongs to section o alone: after its header, before the next one. */
  predicate Owned(s: seq<DocumentSection>, limit: nat, o: int, r: Range)
    requires -1 <= o < |s|
  {
    && (o >= 0 ==> s[o].header.end <= r.start)
    && r.start < r.end <= (if o + 1 < |s| then s[o + 1].range.start else limit)
  }

  lemma OwnedInside(s: seq<DocumentSection>, limit: nat, o: nat, r: Range, m: nat)
    requires WellLaid(s, limit) && m <= o < |s| && o < Closing(s, m) && Owned(s, limit, o, r)
    ensures Inside(r, s[m].range) && s[m].header.end <= r.start
  {
    StartsIncrease(s, m, o, limit);
    assert HeaderAt(s, o, limit) && EndsAt(s, m, limit);
    var c := Closing(s, m);
    if c < |s| {
      StartsIncrease(s, o + 1, c, limit);
    } else if o + 1 < |s| {
      StartInBounds(s, limit, o + 1);
    }
  }

  lemma OwnedApart(s: seq<DocumentSection>, limit: nat, o: int, r: Range, m: nat)
    requires WellLaid(s, limit) && -1 <= o < |s| && m < |s| && (m > o || Closing(s, m) <= o) && Owned(s, limit, o, r)
    ensures Apart(r, s[m].range)
  {
    if m > o {
      StartsIncrease(s, o + 1, m, limit);
    } else {
      assert EndsAt(s, m, limit) && HeaderAt(s, o, limit);
      StartsIncrease(s, Closing(s, m), o, limit);
    }
  }

  /** A key lies inside exactly the sections on its own path and apart from all others. */
  lemma KeyInsideIffOnPath(s: seq<DocumentSection>, k: DocumentKey, limit: nat, m: nat)
    requires WellLaid(s, limit) && KeyPlaced(s, k, limit) && m < |s|
    ensures s[m].path <= k.path[..|k.path| - 1] ==> Inside(k.range, s[m].range) && s[m].header.end <= k.range.start
    ensures !(s[m].path <= k.path[..|k.path| - 1]) ==> Apart(k.range, s[m].range)
  {
    var o := OwnerAt(s, k.range.start);
    assert Owned(s, limit, o, k.range);
    if m > o {
      OwnedApart(s, limit, o, k.range, m);
      KeyNotUnderLater(s, m, o);
    } else if o < Closing(s, m) {
      OwnedInside(s, limit, o, k.range, m);
      InsideContinues(s, m, o);
    } else {
      OwnedApart(s, limit, o, k.range, m);
      OutsideDoesNot(s, m, o);
    }
  }

  lemma KeyNotUnderLater(s: seq<DocumentSection>, m: nat, o: int)
    requires Chained(s) && DistinctSections(s) && -1 <= o < m < |s|
    ensures !(s[m].path <= OwnerPath(s, o))
  {
    assert LinkedAt(s, m);
    if o >= 0 {
      LaterIsNotAbove(s, o, m);
    }
  }

  /** A section's own keys all come before its first child section. */
  lemma KeysPrecedeChildren(s: seq<DocumentSection>, k: DocumentKey, limit: nat, c: nat)
    requires WellLaid(s, limit) && KeyPlaced(s, k, limit) && c < |s|
    requires s[c].path != [] && s[c].path[..|s[c].path| - 1] == k.path[..|k.path| - 1]
    ensures k.range.end <= s[c].range.start
  {
    var o := OwnerAt(s, k.range.start);
    ChildIsLater(s, o, c);
    StartsIncrease(s, o + 1, c, limit);
  }

  lemma ChildIsLater(s: seq<DocumentSection>, o: int, c: nat)
    requires Chained(s) && DistinctSections(s) && -1 <= o < |s| && c < |s|
    requires s[c].path != [] && s[c].path[..|s[c].path| - 1] == OwnerPath(s, o)
    ensures o < c
  {
    if c < o {
      LaterIsNotAbove(s, c, o);
    }
  }
}
