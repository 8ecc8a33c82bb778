/** Read planning: from the block locations of a layout to block-local reads that tile the
    requested byte range. */
module Planner {
  import opened BerylTypes
  import opened ClientErrors
  import opened Sorting

  datatype Range = Range(fileOffset: nat, len: nat) {
    function End(): nat { fileOffset + len }
  }

  datatype Location = Location(
    blockId: BlockId,
    fileOffset: nat,
    len: nat,
    workers: seq<Worker>,
    format: nat,
    blockSize: nat,
    chunkSize: nat,
    effectiveLen: nat)
  {
    function End(): nat { fileOffset + len }
  }

  datatype PlannedRead = PlannedRead(
    fileOffset: nat,
    len: nat,
    endOffset: nat,
    blockId: BlockId,
    blockOffset: nat,
    format: nat,
    blockSize: nat,
    chunkSize: nat,
    effectiveLen: nat,
    workers: seq<Worker>)

  /** `requested_range`: the part of a request that lies inside the file. */
  function RequestedRange(offset: nat, len: nat, fileSize: nat): (r: Result<Option<Range>, ClientError>)
    ensures r == Ok(None) <==> len == 0 || offset >= fileSize
    ensures r.Err? <==> (0 < len && offset < fileSize && (offset + len > U64_MAX || (len > U32_MAX && fileSize - offset > U32_MAX)))
    ensures r.Err? ==> r.error == LocalError(InvalidArgument)
    ensures r.Ok? && r.value.Some? ==>
              var range := r.value.value;
              && 0 < range.len <= U32_MAX
              && range.fileOffset == offset
              && range.End() <= offset + len && range.End() <= fileSize
              && (range.End() == offset + len || range.End() == fileSize)
  {
    if len == 0 || offset >= fileSize then Ok(None)
    else if offset + len > U64_MAX then Err(LocalError(InvalidArgument))
    else
      var end := if offset + len < fileSize then offset + len else fileSize;
      if end - offset > U32_MAX then Err(LocalError(InvalidArgument)) else Ok(Some(Range(offset, end - offset)))
  }

  /** Why the planner refuses a location, if it does. */
  function LocationError(l: Location, inode: InodeId): Option<ClientError> {
    if l.len == 0 || l.End() > U64_MAX || l.blockId.inode != inode
       || !ShapeValid(BlockShape(l.format, l.blockSize, l.chunkSize, l.effectiveLen)) then Some(InvalidLayout())
    else if l.workers == [] then Some(LocationUnavailable())
    else None
  }

  /** A location the planner accepts: bytes of the inode, in a valid shape, that some Worker holds. */
  predicate Usable(l: Location, inode: InodeId) {
    && 0 < l.len && l.fileOffset + l.len <= U64_MAX && l.blockId.inode == inode && |l.workers| > 0
    && l.format == DURABLE_PREFIX && l.chunkSize == STORAGE_CHUNK_SIZE
    && 0 < l.blockSize <= MAX_BLOCK_SIZE && 0 < l.effectiveLen <= l.blockSize
  }

  /** A location is refused exactly if it is not usable; one that lacks nothing but Workers is
      unavailable, which asks for a refresh, any other invalid. */
  lemma LocationErrorExact(l: Location, inode: InodeId)
    ensures LocationError(l, inode).None? <==> Usable(l, inode)
    ensures LocationError(l, inode) == Some(LocationUnavailable()) <==> |l.workers| == 0 && forall w :: Usable(l.(workers := [w]), inode)
    ensures LocationError(l, inode).Some? ==> LocationError(l, inode).value in [InvalidLayout(), LocationUnavailable()]
  {
    assert forall w :: Usable(l.(workers := [w]), inode) <==> LocationError(l.(workers := [w]), inode).None?;
    var w := Worker(0, "", 0);
    assert Usable(l.(workers := [w]), inode) ==> forall v :: Usable(l.(workers := [v]), inode);
  }

  ghost predicate AllValid(locations: seq<Location>, inode: InodeId) {
    forall l :: l in locations ==> LocationError(l, inode).None?
  }

  predicate Touches(l: Location, range: Range) {
    range.fileOffset < l.End() && l.fileOffset < range.End()
  }

  function ByOffset(): Location -> Key { (l: Location) => [l.fileOffset, l.blockId.index] }

  /** The locations that intersect a range, in the order given. */
  function Relevant(locations: seq<Location>, range: Range): seq<Location> {
    if locations == [] then []
    else (if Touches(locations[0], range) then [locations[0]] else []) + Relevant(locations[1..], range)
  }

  function FirstError(locations: seq<Location>, inode: InodeId): Option<ClientError> {
    if locations == [] then None
    else if LocationError(locations[0], inode).Some? then LocationError(locations[0], inode)
    else FirstError(locations[1..], inode)
  }

  function Piece(l: Location, from: nat, stop: nat): PlannedRead
    requires l.fileOffset <= from < stop
  {
    PlannedRead(from, stop - from, stop, l.blockId, from - l.fileOffset, l.format, l.blockSize, l.chunkSize,
                l.effectiveLen, l.workers)
  }

  function Min(a: nat, b: nat): nat { if a < b then a else b }

  /** What covering `[cursor, end)` from sorted locations yields; `previous` is where the last
      examined location ended. */
  function Cover(sorted: seq<Location>, cursor: nat, previous: Option<nat>, end: nat): Result<seq<PlannedRead>, ClientError> {
    if sorted == [] then if cursor < end then Err(InvalidLayout()) else Ok([])
    else
      var l := sorted[0];
      if previous.Some? && l.fileOffset < previous.value then Err(InvalidLayout())
      else if l.fileOffset > cursor then Err(InvalidLayout())
      else if Min(end, l.End()) <= cursor then Cover(sorted[1..], cursor, Some(l.End()), end)
      else
        var stop := Min(end, l.End());
        if stop - cursor > U32_MAX then Err(InvalidLayout())
        else if stop == end then Ok([Piece(l, cursor, stop)])
        else
          match Cover(sorted[1..], stop, Some(l.End()), end)
          case Err(e) => Err(e)
          case Ok(plan) => Ok([Piece(l, cursor, stop)] + plan)
  }

  function Plan(inode: InodeId, range: Range, locations: seq<Location>): Result<seq<PlannedRead>, ClientError> {
    var error := FirstError(locations, inode);
    if error.Some? then Err(error.value)
    else Cover(StableSort(Relevant(locations, range), ByOffset()), range.fileOffset, None, range.End())
  }

  /** The first loop of `plan_block_reads`: validate every location, keep those that touch
      the range. */
  method Normalize(inode: InodeId, range: Range, locations: seq<Location>)
    returns (r: Result<seq<Location>, ClientError>)
    ensures r == match FirstError(locations, inode)
                 case Some(error) => Err(error)
                 case None => Ok(Relevant(locations, range))
  {
    var normalized: seq<Location> := [];
    for k := 0 to |locations|
      invariant FirstError(locations, inode) == FirstError(locations[k..], inode)
      invariant Relevant(locations, range) == normalized + Relevant(locations[k..], range)
    {
      var l := locations[k];
      assert locations[k..][1..] == locations[k + 1..];
      var error := LocationError(l, inode);
      if error.Some? {
        return Err(error.value);
      }
      if Touches(l, range) {
        normalized := normalized + [l];
      }
    }
    assert normalized == Relevant(locations, range);
    return Ok(normalized);
  }

  /** `plan_block_reads`. */
  method PlanBlockReads(inode: InodeId, range: Range, locations: seq<Location>)
    returns (r: Result<seq<PlannedRead>, ClientError>)
    ensures r == Plan(inode, range, locations)
  {
    var normalized := Normalize(inode, range, locations);
    if normalized.Err? {
      return Err(normalized.error);
    }
    var sorted := StableSort(normalized.value, ByOffset());
    var plan: seq<PlannedRead> := [];
    var cursor: nat, end: nat := range.fileOffset, range.End();
    var previous: Option<nat> := None;
    ghost var whole := Cover(sorted, cursor, None, end);
    assert sorted[0..] == sorted;
    PrependNone(whole);
    for k := 0 to |sorted|
      invariant whole == Prepend(plan, Cover(sorted[k..], cursor, previous, end))
    {
      var l := sorted[k];
      assert sorted[k..][1..] == sorted[k + 1..];
      if previous.Some? && l.fileOffset < previous.value {
        return Err(InvalidLayout());
      }
      previous := Some(l.End());
      if l.fileOffset > cursor {
        return Err(InvalidLayout());
      }
      if l.End() <= cursor {
        continue;
      }
      var from := if cursor > l.fileOffset then cursor else l.fileOffset;
      var stop := Min(end, l.End());
      if from >= stop {
        continue;
      }
      if stop - from > U32_MAX {
        return Err(InvalidLayout());
      }
      ghost var rest := Cover(sorted[k + 1..], stop, previous, end);
      PrependTwice(plan, [Piece(l, from, stop)], rest);
      plan := plan + [Piece(l, from, stop)];
      cursor := stop;
      if cursor == end {
        return Ok(plan);
      }
    }
    if cursor < end {
      return Err(InvalidLayout());
    }
    assert plan + [] == plan;
    return Ok(plan);
  }

  ghost function Prepend(plan: seq<PlannedRead>, r: Result<seq<PlannedRead>, ClientError>)
    : Result<seq<PlannedRead>, ClientError>
  {
    match r
    case Err(e) => Err(e)
    case Ok(rest) => Ok(plan + rest)
  }

  lemma PrependNone(r: Result<seq<PlannedRead>, ClientError>)
    ensures Prepend([], r) == r
  {
    assert r.Ok? ==> [] + r.value == r.value;
  }

  lemma PrependTwice(a: seq<PlannedRead>, b: seq<PlannedRead>, r: Result<seq<PlannedRead>, ClientError>)
    ensures Prepend(a, Prepend(b, r)) == Prepend(a + b, r)
  {
    if r.Ok? {
      assert a + (b + r.value) == a + b + r.value;
    }
  }

  // ---- Tiling -----------------------------------------------------------------

  /** The reads follow one another without gap or overlap from `from` to `to`. */
  ghost predicate Tiles(plan: seq<PlannedRead>, from: nat, stop: nat) {
    && (forall k :: 0 <= k < |plan| ==>
          0 < plan[k].len <= U32_MAX && plan[k].endOffset == plan[k].fileOffset + plan[k].len)
    && (plan == [] ==> from == stop)
    && (plan != [] ==> plan[0].fileOffset == from && plan[|plan| - 1].endOffset == stop)
    && (forall j, k {:trigger plan[j], plan[k]} :: 0 <= j && j + 1 == k < |plan| ==> plan[k].fileOffset == plan[j].endOffset)
  }

  /** The read stays inside `l` and names the bytes of `l` it covers. */
  predicate ReadsFrom(read: PlannedRead, l: Location) {
    && l.fileOffset <= read.fileOffset && read.endOffset <= l.End()
    && read.blockOffset == read.fileOffset - l.fileOffset
    && read.blockId == l.blockId && read.workers == l.workers
    && BlockShape(read.format, read.blockSize, read.chunkSize, read.effectiveLen)
       == BlockShape(l.format, l.blockSize, l.chunkSize, l.effectiveLen)
  }

  ghost predicate ReadsFromAny(plan: seq<PlannedRead>, locations: seq<Location>) {
    forall k :: 0 <= k < |plan| ==> FromSome(plan[k], locations)
  }

  ghost predicate FromSome(read: PlannedRead, locations: seq<Location>) {
    exists l :: l in locations && ReadsFrom(read, l)
  }

  lemma {:induction false} CoverTiles(sorted: seq<Location>, cursor: nat, previous: Option<nat>, end: nat)
    requires Cover(sorted, cursor, previous, end).Ok? && cursor <= end
    ensures Tiles(Cover(sorted, cursor, previous, end).value, cursor, end)
  {
    hide Tiles;
    if sorted == [] {
      TilesNone(end);
    } else {
      var l, rest := sorted[0], sorted[1..];
      var stop := Min(end, l.End());
      if stop <= cursor {
        CoverTiles(rest, cursor, Some(l.End()), end);
      } else if stop < end {
        CoverTiles(rest, stop, Some(l.End()), end);
        TilesPrepend(Piece(l, cursor, stop), Cover(rest, stop, Some(l.End()), end).value, cursor, stop, end);
      } else {
        TilesNone(end);
        TilesPrepend(Piece(l, cursor, stop), [], cursor, stop, end);
        assert [Piece(l, cursor, stop)] + [] == [Piece(l, cursor, stop)];
      }
    }
  }

  lemma {:induction false} CoverReads(sorted: seq<Location>, cursor: nat, previous: Option<nat>, end: nat)
    requires Cover(sorted, cursor, previous, end).Ok?
    ensures ReadsFromAny(Cover(sorted, cursor, previous, end).value, sorted)
  {
    if sorted != [] {
      var l, rest := sorted[0], sorted[1..];
      var stop := Min(end, l.End());
      if stop <= cursor {
        CoverReads(rest, cursor, Some(l.End()), end);
        ReadsFromMore(Cover(rest, cursor, Some(l.End()), end).value, rest, sorted);
      } else {
        assert l in sorted && ReadsFrom(Piece(l, cursor, stop), l);
        assert FromSome(Piece(l, cursor, stop), sorted);
        if stop < end {
          CoverReads(rest, stop, Some(l.End()), end);
          ReadsFromMore(Cover(rest, stop, Some(l.End()), end).value, rest, sorted);
        }
      }
    }
  }

  lemma ReadsFromMore(plan: seq<PlannedRead>, some: seq<Location>, all: seq<Location>)
    requires ReadsFromAny(plan, some) && forall l :: l in some ==> l in all
    ensures ReadsFromAny(plan, all)
  {
    forall k | 0 <= k < |plan| ensures FromSome(plan[k], all) {
      assert FromSome(plan[k], some);
    }
  }

  lemma TilesNone(at: nat)
    ensures Tiles([], at, at)
  {
  }

  lemma TilesPrepend(read: PlannedRead, plan: seq<PlannedRead>, from: nat, mid: nat, stop: nat)
    requires read.fileOffset == from < mid == read.endOffset && read.len == mid - from <= U32_MAX
    requires Tiles(plan, mid, stop)
    ensures Tiles([read] + plan, from, stop)
  {
    var all := [read] + plan;
    forall j, k | 0 <= j && j + 1 == k < |all| ensures all[k].fileOffset == all[j].endOffset {
      assert all[k] == plan[k - 1];
      if j > 0 {
        assert all[j] == plan[j - 1];
      }
    }
  }

  lemma {:induction false} RelevantIn(locations: seq<Location>, range: Range)
    ensures forall l :: l in Relevant(locations, range) <==> l in locations && Touches(l, range)
  {
    if locations != [] {
      RelevantIn(locations[1..], range);
      assert locations == [locations[0]] + locations[1..];
    }
  }

  lemma SortedIn(locations: seq<Location>, range: Range)
    ensures forall l :: l in StableSort(Relevant(locations, range), ByOffset()) <==> l in locations && Touches(l, range)
  {
    var relevant := Relevant(locations, range);
    SortPermutes(relevant, ByOffset());
    SameMembers(relevant, StableSort(relevant, ByOffset()));
    RelevantIn(locations, range);
  }

  lemma {:induction false} FirstErrorNone(locations: seq<Location>, inode: InodeId)
    ensures FirstError(locations, inode).None? <==> AllValid(locations, inode)
  {
    if locations != [] {
      FirstErrorNone(locations[1..], inode);
      assert locations == [locations[0]] + locations[1..];
    }
  }

  /** A successful plan tiles exactly the requested range, every piece inside one of the
      given locations and at its block offset. */
  lemma PlanTilesRange(inode: InodeId, range: Range, locations: seq<Location>)
    requires Plan(inode, range, locations).Ok?
    ensures var plan := Plan(inode, range, locations).value;
            && Tiles(plan, range.fileOffset, range.End())
            && ReadsFromAny(plan, locations)
            && forall l :: l in locations ==> Usable(l, inode)
  {
    forall l | l in locations ensures LocationError(l, inode).None? <==> Usable(l, inode) {
      LocationErrorExact(l, inode);
    }
    var sorted := StableSort(Relevant(locations, range), ByOffset());
    FirstErrorNone(locations, inode);
    CoverTiles(sorted, range.fileOffset, None, range.End());
    CoverReads(sorted, range.fileOffset, None, range.End());
    SortedIn(locations, range);
  }

  // ---- Completeness -----------------------------------------------------------

  ghost predicate Disjoint(s: seq<Location>) {
    forall i, j {:trigger s[i], s[j]} :: 0 <= i < j < |s| ==> s[i].End() <= s[j].fileOffset || s[j].End() <= s[i].fileOffset
  }

  ghost predicate Covers(s: seq<Location>, from: nat, stop: nat) {
    forall x: nat {:trigger InSome(s, x)} :: from <= x < stop ==> InSome(s, x)
  }

  ghost predicate InSome(s: seq<Location>, x: nat) {
    exists l :: l in s && l.fileOffset <= x < l.End()
  }

  /** Sorted, disjoint, non-empty locations end before the next one starts. */
  ghost predicate Chained(s: seq<Location>) {
    forall i, j {:trigger s[i], s[j]} :: 0 <= i < j < |s| ==> s[i].End() <= s[j].fileOffset
  }

  lemma {:induction false} CoverSucceeds(s: seq<Location>, cursor: nat, previous: Option<nat>, end: nat)
    requires Chained(s) && Covers(s, cursor, end) && cursor < end && end - cursor <= U32_MAX
    requires forall l :: l in s ==> l.len > 0 && cursor < l.End()
    requires previous.Some? ==> forall l :: l in s ==> previous.value <= l.fileOffset
    ensures Cover(s, cursor, previous, end).Ok?
  {
    HeadHoldsCursor(s, cursor, end);
    var l := s[0];
    if l.End() < end {
      TailChained(s);
      TailCovers(s, cursor, end);
      CoverSucceeds(s[1..], l.End(), Some(l.End()), end);
    }
  }

  lemma HeadHoldsCursor(s: seq<Location>, cursor: nat, end: nat)
    requires Chained(s) && Covers(s, cursor, end) && cursor < end
    requires forall l :: l in s ==> cursor < l.End()
    ensures s != [] && s[0].fileOffset <= cursor < s[0].End()
  {
    assert InSome(s, cursor);
    var m :| m in s && m.fileOffset <= cursor < m.End();
    var k :| 0 <= k < |s| && s[k] == m;
    assert s[0] in s;
    if k > 0 {
      assert false;
    }
  }

  lemma TailChained(s: seq<Location>)
    requires Chained(s) && s != [] && forall l :: l in s ==> l.len > 0
    ensures Chained(s[1..])
    ensures forall m :: m in s[1..] ==> m.len > 0 && s[0].End() <= m.fileOffset < m.End()
  {
    var rest := s[1..];
    forall m | m in rest ensures m.len > 0 && s[0].End() <= m.fileOffset {
      var k :| 0 <= k < |rest| && rest[k] == m;
      assert s[k + 1] == m && s[0].End() <= s[k + 1].fileOffset;
    }
  }

  lemma TailCovers(s: seq<Location>, cursor: nat, end: nat)
    requires s != [] && Covers(s, cursor, end) && cursor <= s[0].End()
    ensures Covers(s[1..], s[0].End(), end)
  {
    var l, rest := s[0], s[1..];
    forall x: nat | l.End() <= x < end ensures InSome(rest, x) {
      assert InSome(s, x);
      var m :| m in s && m.fileOffset <= x < m.End();
      assert m in rest by { assert s == [l] + rest; }
    }
  }

  lemma ChainedWhenDisjoint(s: seq<Location>)
    requires Sorted(s, ByOffset()) && Disjoint(s) && forall l :: l in s ==> l.len > 0
    ensures Chained(s)
  {
    forall i, j | 0 <= i < j < |s| ensures s[i].End() <= s[j].fileOffset {
      assert LexLe(ByOffset()(s[i]), ByOffset()(s[j]));
      assert s[j] in s;
    }
  }

  lemma {:induction false} DisjointPermutes(a: seq<Location>, b: seq<Location>)
    requires multiset(a) == multiset(b) && Disjoint(a) && forall l :: l in a ==> l.len > 0
    ensures Disjoint(b)
  {
    forall i, j | 0 <= i < j < |b| ensures b[i].End() <= b[j].fileOffset || b[j].End() <= b[i].fileOffset {
      PairWithin(b, i, j);
      Occurrences(a, b[i], b[j]);
    }
  }

  /** Valid locations that do not overlap and cover the range always yield a plan. */
  lemma DisjointCoverPlans(inode: InodeId, range: Range, locations: seq<Location>)
    requires 0 < range.len <= U32_MAX
    requires (forall l :: l in locations ==> Usable(l, inode)) && Disjoint(Relevant(locations, range))
    requires Covers(locations, range.fileOffset, range.End())
    ensures Plan(inode, range, locations).Ok?
  {
    var relevant := Relevant(locations, range);
    var sorted := StableSort(relevant, ByOffset());
    FirstErrorNone(locations, inode);
    SortPermutes(relevant, ByOffset());
    SortSorted(relevant, ByOffset());
    SortedIn(locations, range);
    RelevantIn(locations, range);
    forall l | l in locations ensures LocationError(l, inode).None? && l.len > 0 {
      LocationErrorExact(l, inode);
    }
    DisjointPermutes(relevant, sorted);
    ChainedWhenDisjoint(sorted);
    forall x: nat | range.fileOffset <= x < range.End() ensures InSome(sorted, x) {
      assert InSome(locations, x);
      var l :| l in locations && l.fileOffset <= x < l.End();
      assert l in sorted;
    }
    CoverSucceeds(sorted, range.fileOffset, None, range.End());
  }

  // ---- Order independence -----------------------------------------------------

  lemma {:induction false} RelevantCounts(locations: seq<Location>, range: Range, l: Location)
    ensures multiset(Relevant(locations, range))[l] == if Touches(l, range) then multiset(locations)[l] else 0
  {
    if locations != [] {
      RelevantCounts(locations[1..], range, l);
      assert locations == [locations[0]] + locations[1..];
    }
  }

  lemma {:induction false} RelevantApart(locations: seq<Location>, range: Range)
    requires KeysApart(locations, ByOffset())
    ensures KeysApart(Relevant(locations, range), ByOffset())
  {
    if locations != [] {
      var head, tail := locations[0], locations[1..];
      assert KeysApart(tail, ByOffset());
      RelevantApart(tail, range);
      RelevantIn(tail, range);
      if Touches(head, range) {
        var all := [head] + Relevant(tail, range);
        forall i, j | 0 <= i < j < |all| ensures ByOffset()(all[i]) != ByOffset()(all[j]) {
          assert all[j] == Relevant(tail, range)[j - 1];
          if i == 0 {
            assert all[j] in tail;
            var k :| 0 <= k < |tail| && tail[k] == all[j];
            assert locations[k + 1] == all[j];
          } else {
            assert all[i] == Relevant(tail, range)[i - 1];
          }
        }
      }
    }
  }

  lemma RelevantPermutes(a: seq<Location>, b: seq<Location>, range: Range)
    requires multiset(a) == multiset(b)
    ensures multiset(Relevant(a, range)) == multiset(Relevant(b, range))
  {
    forall l ensures multiset(Relevant(a, range))[l] == multiset(Relevant(b, range))[l] {
      RelevantCounts(a, range, l);
      RelevantCounts(b, range, l);
    }
  }

  /** With distinct (offset, block index) keys the plan does not depend on the order in which
      the layout lists its locations. */
  lemma PlanIgnoresOrder(inode: InodeId, range: Range, a: seq<Location>, b: seq<Location>)
    requires multiset(a) == multiset(b) && KeysApart(a, ByOffset())
    ensures Plan(inode, range, a).Ok? <==> Plan(inode, range, b).Ok?
    ensures Plan(inode, range, a).Ok? ==> Plan(inode, range, a) == Plan(inode, range, b)
  {
    hide Cover;
    var ra, rb := Relevant(a, range), Relevant(b, range);
    FirstErrorNone(a, inode);
    FirstErrorNone(b, inode);
    SameMembers(a, b);
    RelevantPermutes(a, b, range);
    RelevantApart(a, range);
    SortPermutes(ra, ByOffset());
    SortPermutes(rb, ByOffset());
    SortSorted(ra, ByOffset());
    SortSorted(rb, ByOffset());
    KeysApartPermutes(ra, StableSort(ra, ByOffset()), ByOffset());
    SortedUnique(StableSort(ra, ByOffset()), StableSort(rb, ByOffset()), ByOffset());
  }
}
