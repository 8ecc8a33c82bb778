/** The bounded sequential and positioned file reader. What Metadata and Workers answer comes
    from the environment: every layout, every block read and every failure. */
module Reader {
  import opened BerylTypes
  import opened ClientErrors
  import opened Sorting
  import opened Planner
  import opened ReadLayouts

  newtype Byte = x: int | 0 <= x < 256

  datatype Config = Config(maxAttempts: nat, maxReadStep: nat, readToEndLimit: nat) {
    predicate Valid() { maxAttempts > 0 && 0 < maxReadStep <= U32_MAX && readToEndLimit <= U64_MAX }
  }

  /** A Worker's answer to one block read; a failed one may leave bytes in the buffer. */
  datatype Reply = Served(bytes: seq<Byte>) | Failed(error: ClientError, left: seq<Byte>)

  /** What the environment answers during one attempt of a read step. */
  datatype Attempt = Attempt(
    layout: Result<ReadLayout, ClientError>,
    serve: PlannedRead -> Reply,
    recovery: Option<ClientError>)

  datatype Step = Step(operation: Option<ClientError>, attempt: nat -> Attempt)

  // ---- What the environment is trusted for --------------------------------------

  /** The bytes of the opened file, and the byte each block stores at each offset. */
  datatype World = World(bytes: seq<Byte>, block: (BlockId, nat) -> Byte)

  ghost predicate HoldsFile(l: Location, w: World) {
    l.End() <= |w.bytes| && forall x {:trigger w.bytes[x]} :: l.fileOffset <= x < l.End() ==> w.block(l.blockId, x - l.fileOffset) == w.bytes[x]
  }

  /** A layout with the opened authority lists each block once and where its bytes belong.
      Nothing is asked of any other layout. */
  ghost predicate Faithful(layout: ReadLayout, file: OpenedFile, w: World) {
    Authorizes(layout, file) ==>
      ListedOnce(layout.locations) && forall l :: l in layout.locations ==> HoldsFile(l, w)
  }

  /** A Worker that serves a read fills the buffer with the stored bytes. */
  ghost predicate Serves(serve: PlannedRead -> Reply, w: World) {
    forall read :: serve(read).Served? ==> StoredBytes(serve(read).bytes, read, w)
  }

  ghost predicate StoredBytes(bytes: seq<Byte>, read: PlannedRead, w: World) {
    |bytes| == read.len && forall i {:trigger bytes[i]} :: 0 <= i < read.len ==> bytes[i] == w.block(read.blockId, read.blockOffset + i)
  }

  ghost predicate Honest(step: Step, file: OpenedFile, w: World) {
    forall k :: HonestAttempt(step.attempt(k), file, w)
  }

  ghost predicate HonestAttempt(a: Attempt, file: OpenedFile, w: World) {
    (a.layout.Ok? ==> Faithful(a.layout.value, file, w)) && Serves(a.serve, w)
  }

  /** A layout of the opened authority whose valid, disjoint locations cover the file. */
  ghost predicate Healthy(layout: ReadLayout, file: OpenedFile) {
    && Authorizes(layout, file) && AllValid(layout.locations, file.inode)
    && Disjoint(layout.locations) && Covers(layout.locations, 0, file.len)
  }

  /** One of the allowed attempts meets a healthy layout and Workers that serve, and so it stays with
      healthy layouts and recoverable failures until then. */
  ghost predicate Recovers(step: Step, file: OpenedFile, maxAttempts: nat) {
    step.operation.None? && exists n {:trigger RecoversAt(step, file, n)} :: 0 <= n < maxAttempts && RecoversAt(step, file, n)
  }

  ghost predicate RecoversAt(step: Step, file: OpenedFile, n: nat) {
    && AlwaysServes(step.attempt(n).serve)
    && (forall k {:trigger step.attempt(k)} :: 0 <= k <= n ==> MeetsLayout(step.attempt(k), file))
    && (forall k {:trigger step.attempt(k)} :: 0 <= k < n ==> step.attempt(k).recovery.None? && FailsRecoverably(step.attempt(k).serve))
  }

  ghost predicate MeetsLayout(a: Attempt, file: OpenedFile) {
    a.layout.Ok? && Healthy(a.layout.value, file)
  }

  ghost predicate FailsRecoverably(serve: PlannedRead -> Reply) {
    forall read :: serve(read).Failed? ==> Recoverable(serve(read).error)
  }

  /** A failure after which the reader tries again: a retryable transport failure, a server that
      asks for a retry, or one that asks for a refresh of state the reader knows how to renew. */
  predicate Recoverable(error: ClientError) {
    match error.detail
    case Local(_) => false
    case Remote(kind, recovery) =>
      recovery.RetryCall? ||
      (recovery.RefreshState? && (kind.StaleState? || kind.RouteEpochMismatch? || kind.BlockLocationUnavailable?
                                  || kind.RunMismatch? || kind.FullReportRequired? || kind.NotRegistered?))
    case Transport(code, _) => code.Unavailable? || code.DeadlineExceeded? || code.ResourceExhausted?
  }

  /** The error is the one some failed read returned. */
  ghost predicate FailedWith(serve: PlannedRead -> Reply, error: ClientError) {
    exists read :: serve(read).Failed? && serve(read).error == error
  }

  ghost predicate AlwaysServes(serve: PlannedRead -> Reply) {
    forall read :: serve(read).Served?
  }

  // ---- Worker reads --------------------------------------------------------------

  predicate AllServed(serve: PlannedRead -> Reply, plan: seq<PlannedRead>) {
    forall k :: 0 <= k < |plan| ==> serve(plan[k]).Served?
  }

  predicate Consistent(plan: seq<PlannedRead>) {
    forall k :: 0 <= k < |plan| ==> plan[k].fileOffset + plan[k].len == plan[k].endOffset
  }

  /** The served bytes of a plan, one read after the other. */
  function Gather(serve: PlannedRead -> Reply, plan: seq<PlannedRead>): seq<Byte>
    requires AllServed(serve, plan)
  {
    if plan == [] then [] else Gather(serve, plan[..|plan| - 1]) + serve(plan[|plan| - 1]).bytes
  }

  function TotalLen(plan: seq<PlannedRead>): nat {
    if plan == [] then 0 else TotalLen(plan[..|plan| - 1]) + plan[|plan| - 1].len
  }

  lemma {:induction false} TotalGrows(plan: seq<PlannedRead>, k: nat)
    requires k < |plan|
    ensures TotalLen(plan[..k]) + plan[k].len <= TotalLen(plan)
  {
    if k < |plan| - 1 {
      TotalGrows(plan[..|plan| - 1], k);
      assert plan[..|plan| - 1][..k] == plan[..k];
    }
  }

  /** Two buffers agree outside `[at, at + len)`. */
  ghost predicate SameOutside(a: seq<Byte>, b: seq<Byte>, at: nat, len: nat) {
    |a| == |b| && forall i {:trigger a[i]} {:trigger b[i]} :: 0 <= i < |a| && !(at <= i < at + len) ==> a[i] == b[i]
  }

  /** `bytes` stand at `at` in the buffer. */
  ghost predicate StandsAt(bytes: seq<Byte>, buffer: seq<Byte>, at: nat) {
    at + |bytes| <= |buffer| && buffer[at..at + |bytes|] == bytes
  }

  method Put(dst: array<Byte>, at: nat, bytes: seq<Byte>)
    requires at + |bytes| <= dst.Length
    modifies dst
    ensures SameOutside(old(dst[..]), dst[..], at, |bytes|) && StandsAt(bytes, dst[..], at)
  {
    forall i | 0 <= i < |bytes| {
      dst[at + i] := bytes[i];
    }
  }

  lemma PutExtends(before: seq<Byte>, after: seq<Byte>, done: seq<Byte>, bytes: seq<Byte>, at: nat)
    requires StandsAt(done, before, at) && SameOutside(before, after, at + |done|, |bytes|)
    requires StandsAt(bytes, after, at + |done|)
    ensures StandsAt(done + bytes, after, at)
  {
    assert after[at..at + |done|] == before[at..at + |done|];
  }

  lemma OutsideTwice(a: seq<Byte>, b: seq<Byte>, c: seq<Byte>, at: nat, len: nat, inner: nat, size: nat)
    requires SameOutside(a, b, at, len) && SameOutside(b, c, inner, size) && at <= inner && inner + size <= at + len
    ensures SameOutside(a, c, at, len)
  {
  }

  /** `read_block_ranges_into`, into `dst[at..at + len]`. */
  method ReadBlockRangesInto(serve: PlannedRead -> Reply, plan: seq<PlannedRead>, dst: array<Byte>, at: nat, len: nat)
    returns (r: Result<(), ClientError>)
    requires at + len <= dst.Length && forall read :: serve(read).Served? ==> |serve(read).bytes| == read.len
    modifies dst
    ensures SameOutside(old(dst[..]), dst[..], at, len)
    ensures r.Ok? <==> TotalLen(plan) == len && Consistent(plan) && AllServed(serve, plan)
    ensures r.Err? && TotalLen(plan) == len && Consistent(plan) ==> FailedWith(serve, r.error)
    ensures r.Ok? ==> |Gather(serve, plan)| == len && StandsAt(Gather(serve, plan), dst[..], at)
  {
    hide SameOutside, StandsAt, Consistent, AllServed, Gather, TotalLen;
    NothingPut(dst[..], at, len);
    NothingInconsistent();
    NothingServed(serve);
    if TotalLen(plan) != len {
      return Err(InvalidLayout());
    }
    var filled := 0;
    for k := 0 to |plan|
      invariant filled == TotalLen(plan[..k]) <= len
      invariant Consistent(plan[..k]) && AllServed(serve, plan[..k]) && |Gather(serve, plan[..k])| == filled
      invariant StandsAt(Gather(serve, plan[..k]), dst[..], at)
      invariant SameOutside(old(dst[..]), dst[..], at, len)
    {
      var read := plan[k];
      TotalGrows(plan, k);
      assert plan[..k + 1] == plan[..k] + [read];
      if read.fileOffset + read.len != read.endOffset {
        Inconsistent(plan, k);
        return Err(InvalidLayout());
      }
      ConsistentAppend(plan[..k], read);
      ghost var before := dst[..];
      match serve(read) {
        case Failed(error, left) =>
          NotServed(serve, plan, k);
          var kept := if |left| <= read.len then left else left[..read.len];
          Put(dst, at + filled, kept);
          OutsideTwice(old(dst[..]), before, dst[..], at, len, at + filled, |kept|);
          return Err(error);
        case Served(bytes) => {
          Put(dst, at + filled, bytes);
          OutsideTwice(old(dst[..]), before, dst[..], at, len, at + filled, |bytes|);
          PutExtends(before, dst[..], Gather(serve, plan[..k]), bytes, at);
          ServedMore(serve, plan[..k], read);
        }
      }
      filled := filled + read.len;
    }
    assert plan[..|plan|] == plan;
    return Ok(());
  }

  lemma NothingServed(serve: PlannedRead -> Reply)
    ensures AllServed(serve, []) && Gather(serve, []) == [] && TotalLen([]) == 0
  {
  }

  lemma NotServed(serve: PlannedRead -> Reply, plan: seq<PlannedRead>, k: nat)
    requires k < |plan| && serve(plan[k]).Failed?
    ensures !AllServed(serve, plan)
  {
  }

  lemma ServedMore(serve: PlannedRead -> Reply, plan: seq<PlannedRead>, read: PlannedRead)
    requires AllServed(serve, plan) && serve(read).Served?
    ensures AllServed(serve, plan + [read]) && Gather(serve, plan + [read]) == Gather(serve, plan) + serve(read).bytes
    ensures TotalLen(plan + [read]) == TotalLen(plan) + read.len
  {
    assert (plan + [read])[..|plan|] == plan;
  }

  lemma NothingPut(buffer: seq<Byte>, at: nat, len: nat)
    ensures SameOutside(buffer, buffer, at, len) && (at <= |buffer| ==> StandsAt([], buffer, at))
  {
  }

  // ---- A served plan is a slice of the file -----------------------------------------

  ghost predicate AllHold(locations: seq<Location>, w: World) {
    forall l :: l in locations ==> HoldsFile(l, w)
  }

  /** One served read is the slice of the file it was planned for. */
  lemma ServedPiece(read: PlannedRead, bytes: seq<Byte>, locations: seq<Location>, w: World)
    requires FromSome(read, locations) && AllHold(locations, w) && StoredBytes(bytes, read, w)
    requires read.endOffset == read.fileOffset + read.len
    ensures read.endOffset <= |w.bytes| && bytes == w.bytes[read.fileOffset..read.endOffset]
  {
    var l :| l in locations && ReadsFrom(read, l);
    assert HoldsFile(l, w);
    forall i | 0 <= i < |bytes| ensures bytes[i] == w.bytes[read.fileOffset + i] {
      assert read.blockOffset + i == read.fileOffset + i - l.fileOffset;
    }
  }

  /** The gathered bytes of a tiling plan are the slice of the file it tiles. */
  lemma {:induction false} ServedSlice(serve: PlannedRead -> Reply, plan: seq<PlannedRead>, from: nat, stop: nat,
                                       locations: seq<Location>, w: World)
    requires Tiles(plan, from, stop) && ReadsFromAny(plan, locations) && AllHold(locations, w)
    requires Serves(serve, w) && AllServed(serve, plan) && from <= |w.bytes|
    ensures from <= stop <= |w.bytes| && Gather(serve, plan) == w.bytes[from..stop]
  {
    hide Tiles, StoredBytes, HoldsFile, FromSome;
    TilesEmpty(plan, from, stop);
    if plan == [] {
      assert w.bytes[from..stop] == [];
    } else {
      var front, last := plan[..|plan| - 1], plan[|plan| - 1];
      TilesFront(plan, from, stop);
      ServedSlice(serve, front, from, last.fileOffset, locations, w);
      assert serve(last).Served?;
      ServedPiece(last, serve(last).bytes, locations, w);
      assert w.bytes[from..last.fileOffset] + w.bytes[last.fileOffset..stop] == w.bytes[from..stop];
    }
  }

  lemma TilesEmpty(plan: seq<PlannedRead>, from: nat, stop: nat)
    requires Tiles(plan, from, stop)
    ensures plan == [] ==> from == stop
  {
  }

  lemma NothingInconsistent()
    ensures Consistent([])
  {
  }

  lemma Inconsistent(plan: seq<PlannedRead>, k: nat)
    requires k < |plan| && plan[k].fileOffset + plan[k].len != plan[k].endOffset
    ensures !Consistent(plan)
  {
  }

  lemma ConsistentAppend(plan: seq<PlannedRead>, read: PlannedRead)
    requires Consistent(plan) && read.fileOffset + read.len == read.endOffset
    ensures Consistent(plan + [read])
  {
  }

  lemma {:induction false} TilesTotal(plan: seq<PlannedRead>, from: nat, stop: nat)
    requires Tiles(plan, from, stop)
    ensures from + TotalLen(plan) == stop && Consistent(plan)
  {
    hide Tiles, Consistent;
    TilesEmpty(plan, from, stop);
    NothingInconsistent();
    if plan != [] {
      TilesFront(plan, from, stop);
      TilesTotal(plan[..|plan| - 1], from, plan[|plan| - 1].fileOffset);
      ConsistentAppend(plan[..|plan| - 1], plan[|plan| - 1]);
      assert plan == plan[..|plan| - 1] + [plan[|plan| - 1]];
    }
  }

  lemma TilesFront(plan: seq<PlannedRead>, from: nat, stop: nat)
    requires plan != [] && Tiles(plan, from, stop)
    ensures Tiles(plan[..|plan| - 1], from, plan[|plan| - 1].fileOffset)
    ensures plan[|plan| - 1].endOffset == plan[|plan| - 1].fileOffset + plan[|plan| - 1].len == stop
  {
    var n := |plan| - 1;
    var front := plan[..n];
    assert plan[n].endOffset == plan[n].fileOffset + plan[n].len;
    if n > 0 {
      assert plan[n].fileOffset == plan[n - 1].endOffset && front[n - 1] == plan[n - 1];
    }
  }

  // ---- Retry after a Worker failure ---------------------------------------------------

  /** `should_replan_after_worker_error`. */
  predicate ShouldReplan(error: ClientError) {
    error.detail.Remote? && !error.detail.remote.OtherRemote?
  }

  /** `handle_worker_failure`: the next action, or the error to return; `recovery` is the failure
      of the refresh or of the pause before the next attempt. */
  function AfterWorkerFailure(error: ClientError, hasNext: bool, recovery: Option<ClientError>)
    : (r: Result<RetryDecision, ClientError>)
    ensures r.Ok? <==> hasNext && recovery.None? && Recoverable(error)
    ensures r.Ok? ==> (r.value.RefreshMetadata? <==> error.detail.Remote? && error.detail.recovery.RefreshState?)
    ensures r.Err? ==> r.error == if hasNext && Recoverable(error) then recovery.value else error
  {
    var decision := Decide(error, ReadOnly);
    if !hasNext || decision.Return? || (decision.RefreshMetadata? && !ShouldReplan(error)) then Err(error)
    else if recovery.Some? then Err(recovery.value)
    else Ok(decision)
  }

  /** The attempt with which a step that recovers ends. */
  ghost function RecoveryOf(step: Step, file: OpenedFile, maxAttempts: nat): (n: nat)
    ensures Recovers(step, file, maxAttempts) ==> n < maxAttempts && RecoversAt(step, file, n) && step.operation.None?
  {
    if Recovers(step, file, maxAttempts) then
      var n :| 0 <= n < maxAttempts && RecoversAt(step, file, n); n
    else 0
  }

  lemma HonestNow(step: Step, file: OpenedFile, w: World, k: nat)
    requires Honest(step, file, w)
    ensures HonestAttempt(step.attempt(k), file, w)
  {
  }

  lemma StillRecovers(step: Step, file: OpenedFile, k: nat, n: nat)
    requires RecoversAt(step, file, n) && k <= n
    ensures MeetsLayout(step.attempt(k), file) && (k == n ==> AlwaysServes(step.attempt(k).serve))
  {
  }

  /** A failed attempt of a step that recovers is not the last one, and its failure is recoverable. */
  lemma RecoversOnce(step: Step, file: OpenedFile, k: nat, n: nat, error: ClientError)
    requires RecoversAt(step, file, n) && k <= n && FailedWith(step.attempt(k).serve, error)
    ensures k < n && Recoverable(error) && step.attempt(k).recovery.None?
  {
    var read :| step.attempt(k).serve(read).Failed? && step.attempt(k).serve(read).error == error;
  }

  // ---- The reader -------------------------------------------------------------------------

  /** The cached plan is one block of the opened file. */
  ghost predicate CacheHolds(cache: Option<BlockPlan>, file: OpenedFile, w: World) {
    cache.Some? ==>
      var plan := cache.value;
      && Authorizes(plan.layout, file)
      && |plan.layout.locations| == 1 && HoldsFile(plan.layout.locations[0], w)
      && LocationError(plan.layout.locations[0], file.inode).None?
      && plan.start == plan.layout.locations[0].fileOffset && plan.end == plan.layout.locations[0].End()
  }

  /** What a successful plan from a faithful or cached layout serves. */
  lemma PlanServes(file: OpenedFile, range: Range, layout: ReadLayout, serve: PlannedRead -> Reply, w: World)
    requires PlanFromLayout(file, range, layout).Ok? && AllHold(layout.locations, w) && Serves(serve, w)
    requires AllServed(serve, PlanFromLayout(file, range, layout).value.1) && range.fileOffset <= |w.bytes|
    ensures range.End() <= |w.bytes|
    ensures Gather(serve, PlanFromLayout(file, range, layout).value.1) == w.bytes[range.fileOffset..range.End()]
  {
    PlanTilesRange(file.inode, range, layout.locations);
    ServedSlice(serve, PlanFromLayout(file, range, layout).value.1, range.fileOffset, range.End(), layout.locations, w);
  }

  /** A fresh plan made from a faithful layout is a cache that contains the cursor. */
  lemma FreshCache(file: OpenedFile, range: Range, layout: ReadLayout, w: World)
    requires NewPlan(file, range, layout).Ok? && range.len > 0 && Faithful(layout, file, w)
    ensures CacheHolds(Some(NewPlan(file, range, layout).value), file, w)
    ensures NewPlan(file, range, layout).value.Contains(range.fileOffset)
  {
    assert Authorizes(layout, file);
    NewPlanHead(file, range, layout);
  }

  // ---- A healthy layout is always planned ----------------------------------------------

  lemma RelevantDisjoint(locations: seq<Location>, range: Range)
    requires Disjoint(locations)
    ensures Disjoint(Relevant(locations, range))
  {
    hide Relevant;
    var some := Relevant(locations, range);
    forall i, j | 0 <= i < j < |some| ensures some[i].End() <= some[j].fileOffset || some[j].End() <= some[i].fileOffset {
      TwoRelevant(locations, range, i, j);
    }
  }

  /** Two relevant locations stand at two places of the list. */
  lemma TwoRelevant(locations: seq<Location>, range: Range, i: nat, j: nat)
    requires i < j < |Relevant(locations, range)|
    ensures exists p, q :: 0 <= p < |locations| && 0 <= q < |locations| && p != q
              && locations[p] == Relevant(locations, range)[i] && locations[q] == Relevant(locations, range)[j]
  {
    hide Relevant;
    var some := Relevant(locations, range);
    PairWithin(some, i, j);
    RelevantCounts(locations, range, some[i]);
    RelevantCounts(locations, range, some[j]);
    Occurrences(locations, some[i], some[j]);
  }

  lemma HealthyPlans(file: OpenedFile, range: Range, layout: ReadLayout)
    requires Healthy(layout, file) && 0 < range.len <= U32_MAX && range.End() <= file.len
    ensures PlanFromLayout(file, range, layout).Ok?
  {
    RelevantDisjoint(layout.locations, range);
    assert Covers(layout.locations, range.fileOffset, range.End());
    DisjointCoverPlans(file.inode, range, layout.locations);
  }

  lemma HealthyCaches(file: OpenedFile, range: Range, layout: ReadLayout, w: World)
    requires Healthy(layout, file) && 0 < range.len <= U32_MAX && range.End() <= file.len && Faithful(layout, file, w)
    ensures NewPlan(file, range, layout).Ok?
  {
    HealthyPlans(file, range, layout);
    PlanHead(file.inode, range, layout.locations);
    FindDistinct(layout.locations, StableSort(Relevant(layout.locations, range), ByOffset())[0]);
  }

  /** Planning a part of the cached block never fails. */
  lemma CachedPlans(plan: BlockPlan, file: OpenedFile, w: World, range: Range)
    requires CacheHolds(Some(plan), file, w) && 0 < range.len <= U32_MAX
    requires plan.start <= range.fileOffset && range.End() <= plan.end
    ensures PlanFromLayout(file, range, plan.layout).Ok?
  {
    var l := plan.layout.locations[0];
    assert plan.layout.locations == [l];
    assert FirstError([l], file.inode).None?;
    assert Relevant([l], range) == [l];
    assert StableSort([l], ByOffset()) == [l];
  }

  class FileReader {
    const file: OpenedFile
    const config: Config
    ghost const world: World
    var position: nat
    var currentBlock: Option<BlockPlan>
    // Everything the sequential methods have handed out so far.
    ghost var delivered: seq<Byte>

    ghost predicate Fixed() {
      config.Valid() && |world.bytes| == file.len <= U64_MAX
    }

    /** What has been delivered is the file up to the position. */
    ghost predicate Valid() reads this {
      && Fixed() && position <= file.len && delivered == world.bytes[..position]
      && CacheHolds(currentBlock, file, world)
    }

    constructor (file: OpenedFile, config: Config, ghost world: World)
      requires config.Valid() && |world.bytes| == file.len <= U64_MAX
      ensures Valid() && position == 0 && delivered == []
      ensures this.file == file && this.config == config && this.world == world
    {
      this.file, this.config, this.world := file, config, world;
      position, currentBlock, delivered := 0, None, [];
    }

    /** `bounded_range`. */
    function BoundedRange(offset: nat, len: nat): Result<Option<Range>, ClientError>
      requires config.Valid()
    {
      RequestedRange(offset, Min(len, config.maxReadStep), file.len)
    }

    /** The bytes of the file from `offset` stand at `at` in the buffer. */
    ghost predicate ReadInto(buffer: seq<Byte>, at: nat, offset: nat, n: nat) {
      && Fixed() && offset + n <= file.len && StandsAt(world.bytes[offset..offset + n], buffer, at)
    }

    /** Plans a range from a layout and reads it; `planned` tells a Worker failure from a refused
        layout. */
    method ServeRange(range: Range, dst: array<Byte>, at: nat, layout: ReadLayout, serve: PlannedRead -> Reply)
      returns (planned: bool, r: Result<(), ClientError>)
      requires Fixed() && at + range.len <= dst.Length && range.End() <= file.len
      requires Faithful(layout, file, world) && Serves(serve, world)
      modifies dst
      ensures SameOutside(old(dst[..]), dst[..], at, range.len)
      ensures planned <==> PlanFromLayout(file, range, layout).Ok?
      ensures planned && AlwaysServes(serve) ==> r.Ok?
      ensures planned && r.Err? ==> FailedWith(serve, r.error)
      ensures r.Ok? ==> planned && ReadInto(dst[..], at, range.fileOffset, range.len)
    {
      hide Plan, Tiles, ReadsFromAny, AllValid, StandsAt, SameOutside, TotalLen, Gather, Consistent;
      var plan := PlanFromLayout(file, range, layout);
      if plan.Err? {
        NothingPut(dst[..], at, range.len);
        return false, Err(plan.error);
      }
      PlanTilesRange(file.inode, range, layout.locations);
      TilesTotal(plan.value.1, range.fileOffset, range.End());
      r := ReadBlockRangesInto(serve, plan.value.1, dst, at, range.len);
      planned := true;
      if r.Ok? {
        PlanServes(file, range, layout, serve, world);
      }
    }

    /** `read_range_step`. */
    method ReadRangeStep(range: Range, dst: array<Byte>, at: nat, step: Step)
      returns (r: Result<(), ClientError>)
      requires Fixed() && at + range.len <= dst.Length && range.End() <= file.len && Honest(step, file, world)
      requires 0 < range.len <= U32_MAX
      modifies dst
      ensures Recovers(step, file, config.maxAttempts) ==> r.Ok?
      ensures SameOutside(old(dst[..]), dst[..], at, range.len)
      ensures r.Ok? ==> ReadInto(dst[..], at, range.fileOffset, range.len)
    {
      hide SameOutside, Faithful, Serves, ReadInto, Healthy, AlwaysServes, PlanFromLayout, Recovers, RecoversAt, FailedWith, Recoverable, Honest;
      NothingPut(dst[..], at, range.len);
      ghost var recovers, last := Recovers(step, file, config.maxAttempts), RecoveryOf(step, file, config.maxAttempts);
      if step.operation.Some? {
        return Err(step.operation.value);
      }
      var layout: Option<ReadLayout> := None;
      for attempt := 0 to config.maxAttempts
        invariant attempt == 0 || attempt < config.maxAttempts
        invariant recovers ==> attempt <= last && (layout.Some? ==> Healthy(layout.value, file))
        invariant layout.Some? ==> Faithful(layout.value, file, world)
        invariant SameOutside(old(dst[..]), dst[..], at, range.len)
      {
        var now := step.attempt(attempt);
        HonestNow(step, file, world, attempt);
        if recovers {
          StillRecovers(step, file, attempt, last);
        }
        if layout.None? {
          if now.layout.Err? {
            return Err(now.layout.error);
          }
          layout := Some(now.layout.value);
        }
        if recovers {
          HealthyPlans(file, range, layout.value);
        }
        ghost var before := dst[..];
        var planned;
        planned, r := ServeRange(range, dst, at, layout.value, now.serve);
        OutsideTwice(old(dst[..]), before, dst[..], at, range.len, at, range.len);
        if r.Ok? || !planned {
          return;
        }
        if recovers {
          RecoversOnce(step, file, attempt, last, r.error);
        }
        var decision := AfterWorkerFailure(r.error, attempt + 1 < config.maxAttempts, now.recovery);
        if decision.Err? {
          return Err(decision.error);
        }
        if decision.value.RefreshMetadata? {
          layout := None;
        }
      }
      // Not reached: the last attempt returns.
      assert false;
    }

    /** `read_sequential_step`: one bounded step that stops at the block boundary; `cache` is the
        plan kept for the current block. */
    method ReadSequentialStep(offset: nat, dst: array<Byte>, at: nat, cache: Option<BlockPlan>, step: Step)
      returns (r: Result<nat, ClientError>, next: Option<BlockPlan>)
      requires Fixed() && at <= dst.Length && CacheHolds(cache, file, world) && Honest(step, file, world)
      modifies dst
      ensures Recovers(step, file, config.maxAttempts) ==>
                (r.Ok? <==> at == dst.Length || offset >= file.len
                            || offset + Min(dst.Length - at, config.maxReadStep) <= U64_MAX)
      ensures SameOutside(old(dst[..]), dst[..], at, dst.Length - at)
      ensures CacheHolds(next, file, world)
      ensures r.Ok? ==> at + r.value <= dst.Length && (r.value == 0 <==> at == dst.Length || offset >= file.len)
      ensures r.Ok? && r.value > 0 ==> r.value <= config.maxReadStep && ReadInto(dst[..], at, offset, r.value)
    {
      hide SameOutside, Faithful, Serves, ReadInto, CacheHolds, Healthy, AlwaysServes, PlanFromLayout, NewPlan, Recovers, RecoversAt, FailedWith, Recoverable, Honest;
      NothingPut(dst[..], at, dst.Length - at);
      next := cache;
      var bounded := BoundedRange(offset, dst.Length - at);
      if bounded.Err? {
        return Err(bounded.error), next;
      }
      if bounded.value.None? {
        return Ok(0), next;
      }
      var target := bounded.value.value;
      ghost var recovers, last := Recovers(step, file, config.maxAttempts), RecoveryOf(step, file, config.maxAttempts);
      if step.operation.Some? {
        return Err(step.operation.value), next;
      }
      for attempt := 0 to config.maxAttempts
        invariant attempt == 0 || attempt < config.maxAttempts
        invariant recovers ==> attempt <= last
        invariant CacheHolds(next, file, world)
        invariant SameOutside(old(dst[..]), dst[..], at, dst.Length - at)
      {
        var now := step.attempt(attempt);
        HonestNow(step, file, world, attempt);
        if recovers {
          StillRecovers(step, file, attempt, last);
        }
        if next.None? || !next.value.Contains(offset) {
          if now.layout.Err? {
            return Err(now.layout.error), next;
          }
          if recovers {
            HealthyCaches(file, target, now.layout.value, world);
          }
          var replanned := NewPlan(file, target, now.layout.value);
          if replanned.Err? {
            return Err(replanned.error), next;
          }
          FreshCache(file, target, now.layout.value, world);
          next := Some(replanned.value);
        }
        var plan := next.value;
        var range := Range(offset, Min(target.len, plan.end - offset));
        ghost var before := dst[..];
        CacheFaithful(plan, file, world);
        if recovers {
          CachedPlans(plan, file, world, range);
        }
        var planned, done := ServeRange(range, dst, at, plan.layout, now.serve);
        OutsideTwice(old(dst[..]), before, dst[..], at, dst.Length - at, at, range.len);
        if done.Ok? {
          if range.End() == plan.end {
            next := None;
            NoCache(file, world);
          }
          return Ok(range.len), next;
        }
        if !planned {
          return Err(done.error), next;
        }
        if recovers {
          RecoversOnce(step, file, attempt, last, done.error);
        }
        var decision := AfterWorkerFailure(done.error, attempt + 1 < config.maxAttempts, now.recovery);
        if decision.Err? {
          return Err(decision.error), next;
        }
        if decision.value.RefreshMetadata? {
          next := None;
          NoCache(file, world);
        }
      }
      // Not reached: the last attempt returns.
      assert false;
    }

    /** `read`. */
    method Read(dst: array<Byte>, step: Step) returns (r: Result<nat, ClientError>)
      requires Valid() && Honest(step, file, world)
      modifies this, dst
      ensures Valid()
      ensures Recovers(step, file, config.maxAttempts) ==>
                (r.Ok? <==> dst.Length == 0 || old(position) == file.len
                            || old(position) + Min(dst.Length, config.maxReadStep) <= U64_MAX)
      ensures r.Ok? ==> r.value <= dst.Length && (r.value == 0 <==> dst.Length == 0 || old(position) == file.len)
      ensures r.Ok? ==> position == old(position) + r.value && delivered == old(delivered) + dst[..r.value]
      ensures r.Err? ==> position == old(position) && delivered == old(delivered)
    {
      if dst.Length == 0 || position >= file.len {
        return Ok(0);
      }
      var cache := currentBlock;
      currentBlock := None;
      r, cache := ReadSequentialStep(position, dst, 0, cache, step);
      if r.Ok? {
        position := position + r.value;
        currentBlock := cache;
        delivered := delivered + dst[..r.value];
      }
    }

    /** `read_at`. */
    method ReadAt(offset: nat, dst: array<Byte>, step: Step) returns (r: Result<nat, ClientError>)
      requires Valid() && Honest(step, file, world)
      modifies dst
      ensures Recovers(step, file, config.maxAttempts) ==>
                (r.Ok? <==> dst.Length == 0 || offset >= file.len || offset + Min(dst.Length, config.maxReadStep) <= U64_MAX)
      ensures r.Ok? ==> r.value == if offset >= file.len then 0 else Min(Min(dst.Length, config.maxReadStep), file.len - offset)
      ensures r.Ok? && r.value > 0 ==> dst[..r.value] == world.bytes[offset..offset + r.value]
    {
      var bounded := BoundedRange(offset, dst.Length);
      if bounded.Err? {
        return Err(bounded.error);
      }
      if bounded.value.None? {
        return Ok(0);
      }
      var range := bounded.value.value;
      var done := ReadRangeStep(range, dst, 0, step);
      if done.Err? {
        return Err(done.error);
      }
      return Ok(range.len);
    }

    /** `read_exact_at`. */
    method ReadExactAt(offset: nat, dst: array<Byte>, steps: nat -> Step) returns (r: Result<(), ClientError>)
      requires Valid() && dst.Length <= U64_MAX && forall k :: Honest(steps(k), file, world)
      modifies dst
      ensures (forall k :: Recovers(steps(k), file, config.maxAttempts)) ==> (r.Ok? <==> dst.Length == 0 || offset + dst.Length <= file.len)
      ensures r.Ok? ==> dst.Length == 0 || (offset + dst.Length <= file.len && dst[..] == world.bytes[offset..offset + dst.Length])
      ensures dst.Length > 0 && offset + dst.Length > file.len ==> r == Err(LocalError(UnexpectedEof)) && dst[..] == old(dst[..])
    {
      if dst.Length == 0 {
        return Ok(());
      }
      if offset + dst.Length > file.len {
        return Err(LocalError(UnexpectedEof));
      }
      var filled, k := 0, 0;
      while filled < dst.Length
        invariant filled <= dst.Length && dst[..filled] == world.bytes[offset..offset + filled]
      {
        var len := Min(dst.Length - filled, config.maxReadStep);
        ghost var before := dst[..];
        assert Honest(steps(k), file, world);
        var done := ReadRangeStep(Range(offset + filled, len), dst, filled, steps(k));
        if done.Err? {
          return Err(done.error);
        }
        Extend(before, dst[..], filled, offset, len);
        filled, k := filled + len, k + 1;
      }
      return Ok(());
    }

    lemma Extend(before: seq<Byte>, after: seq<Byte>, filled: nat, offset: nat, n: nat)
      requires filled <= |before| && offset + filled + n <= |world.bytes| && Fixed()
      requires before[..filled] == world.bytes[offset..offset + filled]
      requires SameOutside(before, after, filled, |before| - filled) || SameOutside(before, after, filled, n)
      requires ReadInto(after, filled, offset + filled, n)
      ensures filled + n <= |after| && after[..filled + n] == world.bytes[offset..offset + filled + n]
    {
      assert after[..filled] == before[..filled];
      assert after[..filled + n] == after[..filled] + after[filled..filled + n];
      assert world.bytes[offset..offset + filled + n] ==
             world.bytes[offset..offset + filled] + world.bytes[offset + filled..offset + filled + n];
    }

    /** `read_to_end`: `reserved` tells whether the buffer could be allocated. */
    method ReadToEnd(steps: nat -> Step, reserved: bool) returns (r: Result<seq<Byte>, ClientError>)
      requires Valid() && forall k :: Honest(steps(k), file, world)
      modifies this
      ensures Valid()
      ensures reserved && (forall k :: Recovers(steps(k), file, config.maxAttempts)) ==>
                (r.Ok? <==> file.len - old(position) <= config.readToEndLimit)
      ensures r.Ok? ==> r.value == world.bytes[old(position)..] && position == file.len && delivered == world.bytes
      ensures r.Err? ==> position == old(position) && delivered == old(delivered)
      ensures file.len - old(position) > config.readToEndLimit ==> r == Err(LocalError(InvalidArgument)) && currentBlock == old(currentBlock)
    {
      hide CacheHolds, Honest, SameOutside, ReadInto, Recovers;
      NoCache(file, world);
      var remaining := file.len - position;
      if remaining == 0 {
        return Ok([]);
      }
      if remaining > config.readToEndLimit {
        return Err(LocalError(InvalidArgument));
      }
      if !reserved {
        return Err(LocalError(OtherLocal(0)));
      }
      var output := new Byte[remaining](_ => 0);
      var cache := currentBlock;
      currentBlock := None;
      var filled, k := 0, 0;
      while filled < output.Length
        invariant currentBlock.None? && position == old(position) && delivered == old(delivered)
        invariant filled <= output.Length && output[..filled] == world.bytes[position..position + filled]
        invariant CacheHolds(cache, file, world) && fresh(output)
      {
        ghost var before := output[..];
        assert Honest(steps(k), file, world);
        var read;
        read, cache := ReadSequentialStep(position + filled, output, filled, cache, steps(k));
        if read.Err? {
          return Err(read.error);
        }
        // A step inside the file reads at least one byte, so the loop ends and the check for an
        // empty read in the source never fires.
        Extend(before, output[..], filled, position, read.value);
        filled, k := filled + read.value, k + 1;
      }
      delivered := delivered + output[..];
      position := file.len;
      currentBlock := cache;
      return Ok(output[..]);
    }
  }

  lemma CacheFaithful(plan: BlockPlan, file: OpenedFile, w: World)
    requires CacheHolds(Some(plan), file, w)
    ensures Faithful(plan.layout, file, w) && plan.end <= |w.bytes|
  {
  }

  lemma NoCache(file: OpenedFile, w: World)
    ensures CacheHolds(None, file, w)
  {
  }
}
