/** The invariant on section and key ranges, kept by every turn of the parser. */
module ConfigPlacement {
  import opened ConfigValue
  import opened ConfigSyntax
  import opened ConfigTree
  import opened ConfigLayout
  import opened ConfigDocument

  // ----- the stack of open ranges

  predicate OpenAt(s: seq<DocumentSection>, open: seq<nat>, path: Path, k: nat)
    requires k < |open| && |open| == |path|
  {
    open[k] < |s| && s[open[k]].depth == k + 1 && s[open[k]].path == path[..k + 1]
  }

  /** The k-th open range is the section that the first k+1 names of the current path lead to. */
  predicate OpenChain(s: seq<DocumentSection>, open: seq<nat>, path: Path) {
    && |open| == |path|
    && (forall k :: 0 <= k < |open| ==> OpenAt(s, open, path, k))
    && (s == [] ==> open == [])
    && (s != [] ==> open != [] && open[|open| - 1] == |s| - 1)
  }

  predicate StillOpen(s: seq<DocumentSection>, open: seq<nat>, i: nat)
    requires i < |s|
  {
    Closing(s, i) == |s| <==> i in open
  }

  /** A section's range is open exactly while no later header has closed it. */
  predicate OpenExactly(s: seq<DocumentSection>, open: seq<nat>) {
    forall i :: 0 <= i < |s| ==> StillOpen(s, open, i)
  }

  lemma OpenInRange(s: seq<DocumentSection>, open: seq<nat>, path: Path)
    requires OpenChain(s, open, path)
    ensures InRange(open, |s|)
  {
    forall k | 0 <= k < |open| ensures open[k] < |s| {
      assert OpenAt(s, open, path, k);
    }
  }

  predicate Ended(s: seq<DocumentSection>, s': seq<DocumentSection>, i: nat, ended: seq<nat>, start: nat)
    requires |s'| == |s| && i < |s|
  {
    s'[i] == if i in ended then s[i].(range := s[i].range.(end := start)) else s[i]
  }

  /** `EndDeeper` ends exactly the open sections from the given depth on. */
  lemma {:induction false} EndDeeperIs(s: seq<DocumentSection>, open: seq<nat>, n: nat, depth: nat, start: nat)
    requires InRange(open, |s|) && n <= |open| && depth >= 1
    requires forall k :: 0 <= k < |open| ==> s[open[k]].depth == k + 1
    requires n == (if depth - 1 <= |open| then depth - 1 else |open|)
    ensures var r := EndDeeper(s, open, depth, start);
            && r.1 == open[..n]
            && forall i :: 0 <= i < |s| ==> Ended(s, r.0, i, open[n..], start)
    decreases |open|
  {
    var last := |open| - 1;
    if open != [] && s[open[last]].depth >= depth {
      var t, front := WithEnd(s, open[last], start), open[..last];
      assert forall k :: 0 <= k < |front| ==> front[k] == open[k] && t[front[k]].depth == k + 1;
      EndDeeperIs(t, front, n, depth, start);
      var r := EndDeeper(t, front, depth, start);
      assert front[..n] == open[..n];
      assert open[n..] == front[n..] + [open[last]];
      forall i | 0 <= i < |s| ensures Ended(s, r.0, i, open[n..], start) {
        assert Ended(t, r.0, i, front[n..], start);
      }
    } else {
      assert n == |open| && open[..n] == open && open[n..] == [];
    }
  }

  // ----- a new header

  /** The same headers as before, perhaps with other ends, and one more. */
  predicate Extends(s: seq<DocumentSection>, t: seq<DocumentSection>) {
    && |t| == |s| + 1
    && forall i :: 0 <= i < |s| ==>
         t[i].path == s[i].path && t[i].depth == s[i].depth && t[i].header == s[i].header
           && t[i].range.start == s[i].range.start
  }

  lemma {:induction false} ClosingExtends(s: seq<DocumentSection>, t: seq<DocumentSection>, i: nat, j: nat)
    requires Extends(s, t) && i < j <= |s|
    ensures NextClosing(t, i, j) ==
            if NextClosing(s, i, j) < |s| then NextClosing(s, i, j)
            else if t[|s|].depth <= s[i].depth then |s| else |s| + 1
    decreases |s| - j
  {
    if j < |s| && s[j].depth > s[i].depth {
      ClosingExtends(s, t, i, j + 1);
    }
  }

  lemma ChainExtends(s: seq<DocumentSection>, t: seq<DocumentSection>)
    requires Chained(s) && Extends(s, t) && LinkedAt(t, |s|)
    ensures Chained(t)
  {
    forall i | 0 <= i < |t| ensures LinkedAt(t, i) {
      if i < |s| {
        assert LinkedAt(s, i);
        if i > 0 {
          assert t[i - 1].path == s[i - 1].path;
        }
      }
    }
  }

  lemma HeadersExtend(s: seq<DocumentSection>, t: seq<DocumentSection>, pos: nat, next: nat)
    requires Headers(s, pos) && Extends(s, t)
    requires pos <= t[|s|].range.start == t[|s|].header.start < t[|s|].header.end <= next
    ensures Headers(t, next)
  {
    forall i | 0 <= i < |t| ensures HeaderAt(t, i, next) {
      if i < |s| {
        assert HeaderAt(s, i, pos);
      }
    }
  }

  lemma {:induction false} OwnerExtends(s: seq<DocumentSection>, t: seq<DocumentSection>, at: nat)
    requires |t| == |s| && forall i :: 0 <= i < |s| ==> t[i].range.start == s[i].range.start
    ensures OwnerAt(t, at) == OwnerAt(s, at)
    decreases |s|
  {
    if s != [] && s[|s| - 1].range.start > at {
      OwnerExtends(s[..|s| - 1], t[..|s| - 1], at);
    }
  }

  lemma KeyStaysPlaced(s: seq<DocumentSection>, t: seq<DocumentSection>, k: DocumentKey, pos: nat, next: nat)
    requires KeyPlaced(s, k, pos) && Extends(s, t) && Headers(s, pos)
    requires pos <= t[|s|].range.start <= next
    ensures KeyPlaced(t, k, next) && k.range.end <= pos
  {
    var o := OwnerAt(s, k.range.start);
    if o + 1 < |s| {
      StartInBounds(s, pos, o + 1);
    }
    assert t[..|s|] == t[..|t| - 1];
    OwnerExtends(s, t[..|s|], k.range.start);
    assert OwnerAt(t, k.range.start) == o;
  }

  // ----- the whole invariant

  /** Everything read so far is laid out correctly before position `pos` of a text of length `limit`. */
  predicate Placed(p: Parser, pos: nat, limit: nat) {
    && pos <= limit
    && Chained(p.sections) && Ends(p.sections, limit) && Headers(p.sections, pos)
    && OpenChain(p.sections, p.open, p.path) && OpenExactly(p.sections, p.open)
    && KeysPlaced(p.sections, p.keys, pos)
  }

  lemma EndsExtend(s: seq<DocumentSection>, t: seq<DocumentSection>, open: seq<nat>, path: Path, n: nat, limit: nat)
    requires Chained(s) && Ends(s, limit) && OpenChain(s, open, path) && OpenExactly(s, open)
    requires Extends(s, t) && n <= |open| && t[|s|].depth == n + 1 && t[|s|].range.end == limit
    requires forall i :: 0 <= i < |s| ==> Ended(s, t[..|s|], i, open[n..], t[|s|].range.start)
    ensures Ends(t, limit) && OpenExactly(t, open[..n] + [|s|])
  {
    forall i | 0 <= i < |t| ensures EndsAt(t, i, limit) && StillOpen(t, open[..n] + [|s|], i) {
      if i < |s| {
        EndExtends(s, t, open, path, n, limit, i);
      } else {
        assert (open[..n] + [|s|])[n] == |s|;
      }
    }
  }

  lemma EndExtends(
    s: seq<DocumentSection>, t: seq<DocumentSection>, open: seq<nat>, path: Path, n: nat, limit: nat, i: nat)
    requires Ends(s, limit) && OpenChain(s, open, path) && OpenExactly(s, open) && i < |s|
    requires Extends(s, t) && n <= |open| && t[|s|].depth == n + 1 && t[|s|].range.end == limit
    requires Ended(s, t[..|s|], i, open[n..], t[|s|].range.start)
    ensures EndsAt(t, i, limit) && StillOpen(t, open[..n] + [|s|], i)
  {
    assert EndsAt(s, i, limit) && StillOpen(s, open, i);
    ClosingExtends(s, t, i, i + 1);
    SplitMembership(open, n, i);
    if i in open {
      var k :| 0 <= k < |open| && open[k] == i;
      assert OpenAt(s, open, path, k);
      OpenPosition(s, open, path, n, k);
    }
  }

  lemma SplitMembership(open: seq<nat>, n: nat, i: nat)
    requires n <= |open|
    ensures i in open <==> i in open[..n] || i in open[n..]
  {
    assert open == open[..n] + open[n..];
  }

  /** An open section is kept open exactly when it is shallower than the new header. */
  lemma OpenPosition(s: seq<DocumentSection>, open: seq<nat>, path: Path, n: nat, k: nat)
    requires OpenChain(s, open, path) && n <= |open| && k < |open|
    ensures open[k] in open[..n] <==> k < n
    ensures open[k] in open[n..] <==> k >= n
  {
    assert OpenAt(s, open, path, k);
    forall m | 0 <= m < |open| && m != k ensures open[m] != open[k] {
      assert OpenAt(s, open, path, m);
    }
    if k < n {
      assert open[..n][k] == open[k];
    } else {
      assert open[n..][k - n] == open[k];
    }
  }

  lemma OpenChainExtends(s: seq<DocumentSection>, t: seq<DocumentSection>, open: seq<nat>, path: Path, n: nat)
    requires OpenChain(s, open, path) && Extends(s, t) && n <= |open|
    requires t[|s|].depth == n + 1 && |t[|s|].path| == n + 1 && t[|s|].path[..n] == path[..n]
    ensures OpenChain(t, open[..n] + [|s|], t[|s|].path)
  {
    var open', path' := open[..n] + [|s|], t[|s|].path;
    forall k | 0 <= k < |open'| ensures OpenAt(t, open', path', k) {
      if k < n {
        assert OpenAt(s, open, path, k);
        assert path'[..k + 1] == path'[..n][..k + 1] == path[..n][..k + 1] == path[..k + 1];
      } else {
        assert path'[..n + 1] == path';
      }
    }
  }

  lemma NewLinks(s: seq<DocumentSection>, t: seq<DocumentSection>, open: seq<nat>, path: Path, n: nat)
    requires Chained(s) && OpenChain(s, open, path) && Extends(s, t) && n <= |open|
    requires t[|s|].depth == n + 1 && |t[|s|].path| == n + 1 && t[|s|].path[..n] == path[..n]
    ensures LinkedAt(t, |s|)
  {
    if s != [] {
      var last := |open| - 1;
      assert OpenAt(s, open, path, last);
      assert path[..last + 1] == path;
      assert LinkedAt(s, |s| - 1);
    }
  }

  lemma KeysExtend(s: seq<DocumentSection>, t: seq<DocumentSection>, keys: seq<DocumentKey>, pos: nat, next: nat)
    requires KeysPlaced(s, keys, pos) && Extends(s, t) && Headers(s, pos)
    requires pos <= t[|s|].range.start <= next
    ensures KeysPlaced(t, keys, next)
  {
    forall i | 0 <= i < |keys| ensures KeyPlaced(t, keys[i], next) {
      KeyStaysPlaced(s, t, keys[i], pos, next);
    }
  }

  lemma OpeningPlaces(p: Parser, name: string, depth: nat, line: SourceLine, pos: nat, limit: nat)
    requires Placed(p, pos, limit) && InRange(p.open, |p.sections|)
    requires 1 <= depth <= |p.path| + 1 && pos <= line.start < line.fullEnd <= limit
    requires OpenSection(p, name, depth, line, limit).Ok?
    requires OpenSection(p, name, depth, line, limit).value.path == p.path[..depth - 1] + [name]
    ensures Placed(OpenSection(p, name, depth, line, limit).value, line.fullEnd, limit)
  {
    var q := OpenSection(p, name, depth, line, limit).value;
    var s, t, n := p.sections, q.sections, depth - 1;
    forall k | 0 <= k < |p.open| ensures s[p.open[k]].depth == k + 1 {
      assert OpenAt(s, p.open, p.path, k);
    }
    EndDeeperIs(s, p.open, n, depth, line.start);
    assert t[..|s|] == EndDeeper(s, p.open, depth, line.start).0;
    ExtendsByOne(s, t, p.open[n..], line.start);
    assert t[|s|].path[..n] == p.path[..n];
    NewLinks(s, t, p.open, p.path, n);
    ChainExtends(s, t);
    HeadersExtend(s, t, pos, line.fullEnd);
    EndsExtend(s, t, p.open, p.path, n, limit);
    OpenChainExtends(s, t, p.open, p.path, n);
    KeysExtend(s, t, p.keys, pos, line.fullEnd);
  }

  lemma ExtendsByOne(s: seq<DocumentSection>, t: seq<DocumentSection>, ended: seq<nat>, start: nat)
    requires |t| == |s| + 1
    requires forall i :: 0 <= i < |s| ==> Ended(s, t[..|s|], i, ended, start)
    ensures Extends(s, t)
  {
    forall i | 0 <= i < |s|
      ensures t[i].path == s[i].path && t[i].depth == s[i].depth && t[i].header == s[i].header
           && t[i].range.start == s[i].range.start
    {
      assert Ended(s, t[..|s|], i, ended, start);
      assert t[..|s|][i] == t[i];
    }
  }

  // ----- a new key

  lemma AddingPlaces(p: Parser, key: string, value: Value, line: SourceLine, end: nat, pos: nat, limit: nat)
    requires Placed(p, pos, limit) && pos <= line.start < end <= limit
    requires AddKey(p, key, value, line, end).Ok?
    ensures Placed(AddKey(p, key, value, line, end).value, end, limit)
  {
    var q := AddKey(p, key, value, line, end).value;
    Later(p, pos, end, limit);
    var s, k := p.sections, q.keys[|p.keys|];
    LastOwns(s, pos, line.start);
    if s != [] {
      assert HeaderAt(s, |s| - 1, pos);
      assert OpenAt(s, p.open, p.path, |p.open| - 1);
      assert p.path[..|p.path|] == p.path;
    }
    assert k.path[..|k.path| - 1] == p.path;
    assert KeyPlaced(s, k, end);
    forall i | 0 <= i < |p.keys| ensures p.keys[i].range.end <= pos {
      KeyBefore(s, p.keys[i], pos);
    }
  }

  lemma LastOwns(s: seq<DocumentSection>, pos: nat, at: nat)
    requires Headers(s, pos) && pos <= at
    ensures OwnerAt(s, at) == |s| - 1
  {
    if s != [] {
      assert HeaderAt(s, |s| - 1, pos);
    }
  }

  lemma KeyBefore(s: seq<DocumentSection>, k: DocumentKey, pos: nat)
    requires KeyPlaced(s, k, pos) && Headers(s, pos)
    ensures k.range.end <= pos
  {
    var o := OwnerAt(s, k.range.start);
    if o + 1 < |s| {
      StartInBounds(s, pos, o + 1);
    }
  }

  /** Moving on over lines that hold nothing keeps everything in place. */
  lemma Later(p: Parser, pos: nat, next: nat, limit: nat)
    requires Placed(p, pos, limit) && pos <= next <= limit
    ensures Placed(p, next, limit)
  {
    var s := p.sections;
    forall i | 0 <= i < |s| ensures HeaderAt(s, i, next) {
      assert HeaderAt(s, i, pos);
    }
    forall i | 0 <= i < |p.keys| ensures KeyPlaced(s, p.keys[i], next) {
      assert KeyPlaced(s, p.keys[i], pos);
    }
  }
}
