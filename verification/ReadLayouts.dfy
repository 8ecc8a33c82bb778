/** Planning against an opened file's authority, and the one-block plan a sequential reader
    keeps between steps. */
module ReadLayouts {
  import opened BerylTypes
  import opened ClientErrors
  import opened Sorting
  import opened Planner

  datatype OpenedFile = OpenedFile(inode: InodeId, generation: Generation, len: nat)

  datatype ReadLayout = ReadLayout(
    group: string,
    inode: InodeId,
    fileSize: nat,
    generation: Option<Generation>,
    locations: seq<Location>)

  /** The layout speaks of the inode, generation and length captured at open. */
  predicate Authorizes(layout: ReadLayout, file: OpenedFile) {
    layout.inode == file.inode && layout.generation == Some(file.generation) && layout.fileSize == file.len
  }

  /** `plan_block_reads_from_layout`. */
  function PlanFromLayout(file: OpenedFile, range: Range, layout: ReadLayout): Result<(string, seq<PlannedRead>), ClientError> {
    if layout.inode != file.inode then Err(LocalError(StaleHandle))
    else if layout.generation.None? then Err(InvalidLayout())
    else if layout.generation.value != file.generation then Err(LocalError(StaleHandle))
    else if layout.fileSize != file.len then Err(LocalError(StaleHandle))
    else match Plan(file.inode, range, layout.locations)
      case Err(error) => Err(error)
      case Ok(plan) => Ok((layout.group, plan))
  }

  /** `CurrentBlockPlan`. */
  datatype BlockPlan = BlockPlan(layout: ReadLayout, start: nat, end: nat) {
    predicate Contains(offset: nat) { start <= offset < end }
  }

  function FindLocation(locations: seq<Location>, id: BlockId, start: nat): Option<Location> {
    if locations == [] then None
    else if locations[0].blockId == id && locations[0].fileOffset == start then Some(locations[0])
    else FindLocation(locations[1..], id, start)
  }

  /** `CurrentBlockPlan::new`: the layout cut down to the block that serves the cursor. */
  function NewPlan(file: OpenedFile, range: Range, layout: ReadLayout): Result<BlockPlan, ClientError> {
    match PlanFromLayout(file, range, layout)
    case Err(error) => Err(error)
    case Ok((_, plan)) =>
      if plan == [] || plan[0].fileOffset < plan[0].blockOffset then Err(InvalidLayout())
      else
        var start := plan[0].fileOffset - plan[0].blockOffset;
        match FindLocation(layout.locations, plan[0].blockId, start)
        case None => Err(InvalidLayout())
        case Some(l) =>
          if start + l.len > U64_MAX then Err(InvalidLayout())
          else Ok(BlockPlan(layout.(locations := [l]), start, start + l.len))
  }

  /** No block is listed at one file offset in two different ways. */
  ghost predicate ListedOnce(locations: seq<Location>) {
    forall l, m :: l in locations && m in locations && l.blockId == m.blockId && l.fileOffset == m.fileOffset ==> l == m
  }

  lemma {:induction false} FindDistinct(locations: seq<Location>, l: Location)
    requires ListedOnce(locations) && l in locations
    ensures FindLocation(locations, l.blockId, l.fileOffset) == Some(l)
  {
    assert locations == [locations[0]] + locations[1..];
    assert locations[0] in locations;
    if locations[0] != l {
      FindDistinct(locations[1..], l);
    }
  }

  /** The first location a successful plan reads from is the first in sorted order, and it holds
      the start of the range. */
  lemma PlanHead(inode: InodeId, range: Range, locations: seq<Location>)
    requires Plan(inode, range, locations).Ok? && range.len > 0
    ensures var sorted := StableSort(Relevant(locations, range), ByOffset());
            && sorted != [] && sorted[0] in locations && LocationError(sorted[0], inode).None?
            && sorted[0].fileOffset <= range.fileOffset < sorted[0].End()
            && var plan := Plan(inode, range, locations).value;
               plan != [] && plan[0] == Piece(sorted[0], range.fileOffset, Min(range.End(), sorted[0].End()))
  {
    SortedIn(locations, range);
    FirstErrorNone(locations, inode);
    var sorted := StableSort(Relevant(locations, range), ByOffset());
    assert sorted != [] ==> sorted[0] in sorted;
  }

  /** With distinct locations the cached plan holds the location the full plan starts with, so it
      contains the offset it was made for. */
  lemma NewPlanHead(file: OpenedFile, range: Range, layout: ReadLayout)
    requires NewPlan(file, range, layout).Ok? && range.len > 0 && ListedOnce(layout.locations)
    ensures var plan := NewPlan(file, range, layout).value;
            var head := StableSort(Relevant(layout.locations, range), ByOffset());
            && head != [] && head[0] in layout.locations && LocationError(head[0], file.inode).None?
            && plan == BlockPlan(layout.(locations := [head[0]]), head[0].fileOffset, head[0].End())
            && plan.Contains(range.fileOffset)
  {
    PlanHead(file.inode, range, layout.locations);
    FindDistinct(layout.locations, StableSort(Relevant(layout.locations, range), ByOffset())[0]);
  }

  /** Exactly when the cached block contains the offset it was made for: the first location listed
      for the planned block at its offset, which is the one kept, reaches past the offset. */
  lemma NewPlanContainsExact(file: OpenedFile, range: Range, layout: ReadLayout)
    requires NewPlan(file, range, layout).Ok? && range.len > 0
    ensures var plan := NewPlan(file, range, layout).value;
            var sorted := StableSort(Relevant(layout.locations, range), ByOffset());
            && sorted != []
            && var kept := FindLocation(layout.locations, sorted[0].blockId, sorted[0].fileOffset);
               && kept.Some? && plan.layout.locations == [kept.value]
               && (plan.Contains(range.fileOffset) <==> range.fileOffset < sorted[0].fileOffset + kept.value.len)
  {
    PlanHead(file.inode, range, layout.locations);
  }

  lemma SortHead(s: seq<Location>, l: Location)
    requires l in s && forall m :: m in s && m != l ==> !LexLe(ByOffset()(m), ByOffset()(l))
    ensures StableSort(s, ByOffset()) != [] && StableSort(s, ByOffset())[0] == l
  {
    var sorted := StableSort(s, ByOffset());
    SortPermutes(s, ByOffset());
    SortSorted(s, ByOffset());
    SameMembers(s, sorted);
    var k :| 0 <= k < |sorted| && sorted[k] == l;
    assert sorted[0] in sorted;
  }

  /** `head` is the location a plan for `range` starts with. */
  ghost predicate Heads(head: Location, range: Range, locations: seq<Location>) {
    var sorted := StableSort(Relevant(locations, range), ByOffset());
    sorted != [] && sorted[0] == head
  }

  /** What comes first for a range comes first for every later part of its block. */
  lemma SameHead(inode: InodeId, range: Range, later: Range, locations: seq<Location>, head: Location)
    requires AllValid(locations, inode) && ListedOnce(locations) && head in locations
    requires Heads(head, range, locations) && head.fileOffset <= range.fileOffset
    requires range.len > 0 && later.len > 0 && range.fileOffset <= later.fileOffset && later.End() <= head.End()
    ensures Heads(head, later, locations)
  {
    hide Heads;
    RelevantIn(locations, later);
    forall m | m in Relevant(locations, later) && m != head ensures !LexLe(ByOffset()(m), ByOffset()(head)) {
      if Touches(m, range) {
        HeadBefore(inode, range, locations, head, m);
      }
    }
    SortHead(Relevant(locations, later), head);
    HeadsSorted(head, later, locations);
  }

  lemma HeadsSorted(head: Location, range: Range, locations: seq<Location>)
    requires StableSort(Relevant(locations, range), ByOffset()) != []
    requires StableSort(Relevant(locations, range), ByOffset())[0] == head
    ensures Heads(head, range, locations)
  {
  }

  lemma HeadBefore(inode: InodeId, range: Range, locations: seq<Location>, head: Location, m: Location)
    requires AllValid(locations, inode) && ListedOnce(locations) && m in locations && Touches(m, range)
    requires Heads(head, range, locations) && m != head
    ensures !LexLe(ByOffset()(m), ByOffset()(head))
  {
    var sorted := StableSort(Relevant(locations, range), ByOffset());
    SortedIn(locations, range);
    SortSorted(Relevant(locations, range), ByOffset());
    var k :| 0 <= k < |sorted| && sorted[k] == m;
    assert sorted[0] in sorted && LocationError(head, inode).None? && LocationError(m, inode).None?;
    if LexLe(ByOffset()(m), ByOffset()(head)) {
      LexAntisymmetric(ByOffset()(m), ByOffset()(head));
    }
  }

  /** A range inside the first sorted location is covered by that location alone. */
  lemma CoveredByHead(sorted: seq<Location>, range: Range)
    requires sorted != [] && range.len > 0 && sorted[0].fileOffset <= range.fileOffset && range.End() <= sorted[0].End()
    ensures Cover(sorted, range.fileOffset, None, range.End()) == Cover([sorted[0]], range.fileOffset, None, range.End())
  {
  }

  /** Re-planning any later part of the cached block from the cut-down layout gives what
      planning it from the whole layout gives. */
  lemma ReplanAgrees(file: OpenedFile, range: Range, later: Range, layout: ReadLayout)
    requires NewPlan(file, range, layout).Ok? && range.len > 0 && ListedOnce(layout.locations)
    requires later.len > 0 && range.fileOffset <= later.fileOffset
    requires later.End() <= NewPlan(file, range, layout).value.end
    ensures PlanFromLayout(file, later, NewPlan(file, range, layout).value.layout) == PlanFromLayout(file, later, layout)
  {
    hide Cover;
    NewPlanHead(file, range, layout);
    var head := StableSort(Relevant(layout.locations, range), ByOffset())[0];
    FirstErrorNone(layout.locations, file.inode);
    SameHead(file.inode, range, later, layout.locations, head);
    assert Relevant([head], later) == [head];
    assert StableSort([head], ByOffset()) == [head];
    CoveredByHead(StableSort(Relevant(layout.locations, later), ByOffset()), later);
    FirstErrorNone([head], file.inode);
  }

  /** One block listed twice at one offset, the shorter entry first. */
  function TwiceListed(worker: Worker): ReadLayout {
    var long := Location(BlockId(1, 0), 0, 8, [worker], DURABLE_PREFIX, 16, STORAGE_CHUNK_SIZE, 8);
    ReadLayout("root", 1, 8, Some(1), [long.(len := 2), long])
  }

  /** Then the cached block does not contain the offset it was made for. */
  lemma TwiceListedMissesCursor(worker: Worker)
    ensures var plan := NewPlan(OpenedFile(1, 1, 8), Range(4, 4), TwiceListed(worker));
            !ListedOnce(TwiceListed(worker).locations) && plan.Ok? && !plan.value.Contains(4)
  {
    var locations := TwiceListed(worker).locations;
    var short, long := locations[0], locations[1];
    assert locations == [short, long] && locations[1..] == [long] && [long][1..] == [];
    assert Relevant([long], Range(4, 4)) == [long] && Relevant(locations, Range(4, 4)) == [long];
    assert FirstError([long], 1).None? && FirstError(locations, 1).None?;
    assert StableSort([long], ByOffset()) == [long];
    assert short in locations && long in locations && short != long;
    assert Plan(1, Range(4, 4), locations).value == [Piece(long, 4, 8)];
  }

  /** With the longer entry first the block is listed twice all the same, and is found whole. */
  lemma LongerFirstKeepsCursor(worker: Worker)
    ensures var layout := TwiceListed(worker);
            var swapped := layout.(locations := [layout.locations[1], layout.locations[0]]);
            var plan := NewPlan(OpenedFile(1, 1, 8), Range(4, 4), swapped);
            !ListedOnce(swapped.locations) && plan.Ok? && plan.value.Contains(4)
  {
    var short, long := TwiceListed(worker).locations[0], TwiceListed(worker).locations[1];
    var locations := [long, short];
    assert locations[1..] == [short] && [short][1..] == [];
    assert Relevant([short], Range(4, 4)) == [] && Relevant(locations, Range(4, 4)) == [long];
    assert FirstError([short], 1).None? && FirstError(locations, 1).None?;
    assert StableSort([long], ByOffset()) == [long];
    assert short in locations && long in locations && short != long;
    assert Plan(1, Range(4, 4), locations).value == [Piece(long, 4, 8)];
  }
}
