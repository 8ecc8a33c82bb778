/** The bounded tracker of block changes a Worker still has to report, and the unbounded
    change log it stands for. */
module BlockReport {
  import opened BerylTypes
  import opened MapSums
  import opened Sorting

  const MAX_REPORT_ENTRIES: nat := 1000

  type GroupName = string

  datatype DirtyBlock = DirtyBlock(blockId: BlockId, revision: nat)

  datatype GroupChanges = GroupChanges(revision: nat, dirty: map<BlockId, nat>, lost: bool)

  const UNTOUCHED: GroupChanges := GroupChanges(0, map[], false)

  datatype Op =
    | Record(blockId: BlockId)
    | BeginFull
    | Acknowledge(entries: seq<DirtyBlock>)
    | AcknowledgeFull(revision: nat)

  // ---- One group's changes ----------------------------------------------------------

  predicate Covers(entries: seq<DirtyBlock>, b: BlockId, revision: nat) {
    exists k :: 0 <= k < |entries| && entries[k].blockId == b && revision <= entries[k].revision
  }

  function Uncovered(dirty: map<BlockId, nat>, entries: seq<DirtyBlock>): map<BlockId, nat> {
    map b | b in dirty && !Covers(entries, b, dirty[b]) :: dirty[b]
  }

  function Newer(dirty: map<BlockId, nat>, revision: nat): map<BlockId, nat> {
    map b | b in dirty && dirty[b] > revision :: dirty[b]
  }

  function RecordIn(g: GroupChanges, b: BlockId): GroupChanges {
    var next := g.(revision := g.revision + 1);
    if g.lost then next
    else if b in g.dirty || |g.dirty| < MAX_REPORT_ENTRIES then next.(dirty := g.dirty[b := g.revision + 1])
    else next.(dirty := map[], lost := true)
  }

  function Step(g: GroupChanges, op: Op): GroupChanges {
    match op
    case Record(b) => RecordIn(g, b)
    case BeginFull => g.(dirty := map[], lost := false)
    case Acknowledge(entries) => g.(dirty := Uncovered(g.dirty, entries))
    case AcknowledgeFull(revision) => g.(dirty := Newer(g.dirty, revision))
  }

  // ---- The change log -----------------------------------------------------------------

  /** Every change in order, every acknowledged entry, the highest revision a full snapshot was
      cut at or acknowledged for, and the most changes pending at once since the last cut.
      `issued` holds while no acknowledgement named a revision not yet recorded. */
  datatype History = History(log: seq<BlockId>, acked: seq<DirtyBlock>, cut: nat, peak: nat, issued: bool)

  const NO_HISTORY: History := History([], [], 0, 0, true)

  /** The revision of the latest change of a block, 0 if it has none. */
  function Last(log: seq<BlockId>, b: BlockId): (r: nat)
    ensures r <= |log| && (r > 0 ==> log[r - 1] == b)
    ensures forall k :: r <= k < |log| ==> log[k] != b
  {
    if log == [] then 0
    else if log[|log| - 1] == b then |log|
    else Last(log[..|log| - 1], b)
  }

  /** A block is pending while its latest change is neither under a cut nor acknowledged. */
  predicate IsPending(h: History, b: BlockId) {
    Last(h.log, b) > h.cut && !Covers(h.acked, b, Last(h.log, b))
  }

  ghost function Pending(h: History): map<BlockId, nat> {
    map b | b in h.log && IsPending(h, b) :: Last(h.log, b)
  }

  function Max(a: nat, b: nat): nat { if a < b then b else a }

  ghost function Track(h: History, op: Op): History {
    match op
    case Record(b) =>
      var next := h.(log := h.log + [b]);
      next.(peak := Max(h.peak, |Pending(next)|))
    case BeginFull => h.(cut := Max(h.cut, |h.log|), peak := 0)
    case Acknowledge(entries) =>
      h.(acked := h.acked + entries,
         issued := h.issued && forall k :: 0 <= k < |entries| ==> entries[k].revision <= |h.log|)
    case AcknowledgeFull(revision) =>
      h.(cut := Max(h.cut, revision), issued := h.issued && revision <= |h.log|)
  }

  /** The change at `revision` is still dirty, or acknowledged, or under a cut, each at that
      revision or later, or the tracker says that continuity is lost. */
  ghost predicate Accounted(g: GroupChanges, h: History, revision: nat)
    requires 0 < revision <= |h.log|
  {
    var b := h.log[revision - 1];
    || g.lost
    || (b in g.dirty && g.dirty[b] >= revision)
    || Covers(h.acked, b, revision)
    || revision <= h.cut
  }

  ghost predicate NoChangeLost(g: GroupChanges, h: History) {
    forall r {:trigger Accounted(g, h, r)} :: 0 < r <= |h.log| ==> Accounted(g, h, r)
  }

  /** While acknowledgements name recorded revisions only, the tracker reports exactly the
      pending changes of the log, until more than the bound were pending at once. */
  ghost predicate Exact(g: GroupChanges, h: History) {
    && h.cut <= |h.log| && (forall k :: 0 <= k < |h.acked| ==> h.acked[k].revision <= |h.log|)
    && (g.lost <==> h.peak > MAX_REPORT_ENTRIES)
    && (!g.lost ==> g.dirty == Pending(h))
  }

  ghost predicate Stands(g: GroupChanges, h: History) {
    && g.revision == |h.log| && |g.dirty| <= MAX_REPORT_ENTRIES && (g.lost ==> g.dirty == map[])
    && (forall b :: b in g.dirty ==> 0 < g.dirty[b] <= |h.log| && h.log[g.dirty[b] - 1] == b)
    && NoChangeLost(g, h)
    && (h.issued ==> Exact(g, h))
  }

  // ---- Each operation --------------------------------------------------------------------

  lemma CoversMore(a: seq<DirtyBlock>, b: seq<DirtyBlock>, id: BlockId, revision: nat)
    ensures Covers(a + b, id, revision) <==> Covers(a, id, revision) || Covers(b, id, revision)
  {
    var all := a + b;
    if Covers(a, id, revision) {
      var k :| 0 <= k < |a| && a[k].blockId == id && revision <= a[k].revision;
      assert all[k] == a[k];
    }
    if Covers(b, id, revision) {
      var k :| 0 <= k < |b| && b[k].blockId == id && revision <= b[k].revision;
      assert all[|a| + k] == b[k];
    }
  }

  lemma CoversLess(entries: seq<DirtyBlock>, id: BlockId, low: nat, high: nat)
    requires low <= high && Covers(entries, id, high)
    ensures Covers(entries, id, low)
  {
  }

  lemma RecordAccounts(g: GroupChanges, h: History, b: BlockId)
    requires Stands(g, h)
    ensures NoChangeLost(RecordIn(g, b), Track(h, Record(b)))
  {
    var g', h' := RecordIn(g, b), Track(h, Record(b));
    forall r | 0 < r <= |h'.log| ensures Accounted(g', h', r) {
      if r <= |h.log| {
        assert h'.log[r - 1] == h.log[r - 1];
        assert Accounted(g, h, r);
      }
    }
  }

  lemma AcknowledgeAccounts(g: GroupChanges, h: History, entries: seq<DirtyBlock>)
    requires Stands(g, h)
    ensures NoChangeLost(Step(g, Acknowledge(entries)), Track(h, Acknowledge(entries)))
  {
    var g', h' := Step(g, Acknowledge(entries)), Track(h, Acknowledge(entries));
    forall r | 0 < r <= |h'.log| ensures Accounted(g', h', r) {
      assert Accounted(g, h, r);
      var b := h.log[r - 1];
      CoversMore(h.acked, entries, b, r);
      if b in g.dirty && g.dirty[b] >= r && Covers(entries, b, g.dirty[b]) {
        CoversLess(entries, b, r, g.dirty[b]);
      }
    }
  }

  lemma CutAccounts(g: GroupChanges, h: History, op: Op)
    requires Stands(g, h) && (op.BeginFull? || op.AcknowledgeFull?)
    ensures NoChangeLost(Step(g, op), Track(h, op))
  {
    var g', h' := Step(g, op), Track(h, op);
    forall r | 0 < r <= |h'.log| ensures Accounted(g', h', r) {
      assert Accounted(g, h, r);
    }
  }

  lemma LastAppend(log: seq<BlockId>, b: BlockId, c: BlockId)
    ensures Last(log + [b], c) == if c == b then |log| + 1 else Last(log, c)
  {
    assert (log + [b])[..|log|] == log;
  }

  lemma NotYetCovered(entries: seq<DirtyBlock>, b: BlockId, revision: nat)
    requires forall k :: 0 <= k < |entries| ==> entries[k].revision < revision
    ensures !Covers(entries, b, revision)
  {
  }

  lemma RecordPendingAt(h: History, b: BlockId, c: BlockId)
    requires h.cut <= |h.log| && forall k :: 0 <= k < |h.acked| ==> h.acked[k].revision <= |h.log|
    ensures var h' := h.(log := h.log + [b]);
            && (c in h'.log && IsPending(h', c) <==> c == b || (c in h.log && IsPending(h, c)))
            && Last(h'.log, c) == if c == b then |h.log| + 1 else Last(h.log, c)
  {
    hide Last, Covers;
    NotYetCovered(h.acked, b, |h.log| + 1);
    LastAppend(h.log, b, c);
  }

  /** A new change is pending at its revision; the rest is as it was. */
  lemma RecordPending(h: History, b: BlockId)
    requires h.cut <= |h.log| && forall k :: 0 <= k < |h.acked| ==> h.acked[k].revision <= |h.log|
    ensures Pending(h.(log := h.log + [b])) == Pending(h)[b := |h.log| + 1]
  {
    hide Last, IsPending;
    var h' := h.(log := h.log + [b]);
    forall c
      ensures c in Pending(h') <==> c == b || c in Pending(h)
      ensures c in Pending(h') ==> Pending(h')[c] == if c == b then |h.log| + 1 else Pending(h)[c]
    {
      RecordPendingAt(h, b, c);
    }
  }

  lemma RecordExact(g: GroupChanges, h: History, b: BlockId)
    requires Stands(g, h) && h.issued
    ensures Exact(RecordIn(g, b), Track(h, Record(b)))
  {
    RecordPending(h, b);
    var pending := Pending(h.(log := h.log + [b]));
    SizeInsert(Pending(h), b, |h.log| + 1);
    assert Pending(Track(h, Record(b))) == pending;
  }

  lemma AcknowledgeExact(g: GroupChanges, h: History, entries: seq<DirtyBlock>)
    requires Stands(g, h) && Track(h, Acknowledge(entries)).issued
    ensures Exact(Step(g, Acknowledge(entries)), Track(h, Acknowledge(entries)))
  {
    var h' := Track(h, Acknowledge(entries));
    if !g.lost {
      forall b ensures b in Pending(h') <==> b in Uncovered(g.dirty, entries) {
        CoversMore(h.acked, entries, b, Last(h.log, b));
      }
    }
  }

  lemma BeginExact(g: GroupChanges, h: History)
    requires Stands(g, h) && h.issued
    ensures Exact(Step(g, BeginFull), Track(h, BeginFull))
  {
    assert Pending(Track(h, BeginFull)) == map[];
  }

  lemma AcknowledgeFullExact(g: GroupChanges, h: History, revision: nat)
    requires Exact(g, h) && revision <= |h.log|
    ensures Exact(Step(g, AcknowledgeFull(revision)), Track(h, AcknowledgeFull(revision)))
  {
    hide Last, Covers;
    if !g.lost {
      assert Pending(Track(h, AcknowledgeFull(revision))) == Newer(Pending(h), revision);
    }
  }

  lemma RecordKeeps(g: GroupChanges, h: History, b: BlockId)
    requires Stands(g, h)
    ensures Stands(Step(g, Record(b)), Track(h, Record(b)))
  {
    hide NoChangeLost, Exact, Pending;
    RecordAccounts(g, h, b);
    if h.issued {
      RecordExact(g, h, b);
    }
    RecordSizes(g, h, b);
  }

  lemma AcknowledgeKeeps(g: GroupChanges, h: History, entries: seq<DirtyBlock>)
    requires Stands(g, h)
    ensures Stands(Step(g, Acknowledge(entries)), Track(h, Acknowledge(entries)))
  {
    hide NoChangeLost, Exact, Pending;
    AcknowledgeAccounts(g, h, entries);
    if Track(h, Acknowledge(entries)).issued {
      AcknowledgeExact(g, h, entries);
    }
    SubmapSize(Uncovered(g.dirty, entries), g.dirty);
  }

  lemma AcknowledgeFullKeeps(g: GroupChanges, h: History, revision: nat)
    requires Stands(g, h)
    ensures Stands(Step(g, AcknowledgeFull(revision)), Track(h, AcknowledgeFull(revision)))
  {
    hide NoChangeLost, Exact, Pending;
    CutAccounts(g, h, AcknowledgeFull(revision));
    if Track(h, AcknowledgeFull(revision)).issued {
      AcknowledgeFullExact(g, h, revision);
    }
    SubmapSize(Newer(g.dirty, revision), g.dirty);
  }

  lemma BeginKeeps(g: GroupChanges, h: History)
    requires Stands(g, h)
    ensures Stands(Step(g, BeginFull), Track(h, BeginFull))
  {
    hide NoChangeLost, Exact, Pending;
    CutAccounts(g, h, BeginFull);
    if h.issued {
      BeginExact(g, h);
    }
  }

  /** Every operation keeps the tracker standing for the log. */
  lemma StepKeeps(g: GroupChanges, h: History, op: Op)
    requires Stands(g, h)
    ensures Stands(Step(g, op), Track(h, op))
  {
    hide Stands, Step, Track;
    match op
    case Record(b) => RecordKeeps(g, h, b);
    case BeginFull => BeginKeeps(g, h);
    case Acknowledge(entries) => AcknowledgeKeeps(g, h, entries);
    case AcknowledgeFull(revision) => AcknowledgeFullKeeps(g, h, revision);
  }

  /** Acknowledging a full snapshot at a revision it was cut at drops nothing: whatever is
      still dirty was recorded after the cut. */
  lemma IssuedCutDropsNothing(g: GroupChanges, h: History, revision: nat)
    requires Stands(g, h) && h.issued && revision <= h.cut
    ensures Step(g, AcknowledgeFull(revision)) == g
  {
    assert Newer(g.dirty, revision) == g.dirty;
  }

  lemma RecordSizes(g: GroupChanges, h: History, b: BlockId)
    requires Stands(g, h)
    ensures var g' := RecordIn(g, b);
            && |g'.dirty| <= MAX_REPORT_ENTRIES && (g'.lost ==> g'.dirty == map[])
            && forall c :: c in g'.dirty ==> 0 < g'.dirty[c] <= |h.log| + 1 && (h.log + [b])[g'.dirty[c] - 1] == c
  {
    SizeInsert(g.dirty, b, g.revision + 1);
  }

  // ---- Every run -----------------------------------------------------------------------------

  function Run(ops: seq<Op>): GroupChanges {
    if ops == [] then UNTOUCHED else Step(Run(ops[..|ops| - 1]), ops[|ops| - 1])
  }

  ghost function Told(ops: seq<Op>): History {
    if ops == [] then NO_HISTORY else Track(Told(ops[..|ops| - 1]), ops[|ops| - 1])
  }

  /** In every interleaving no recorded change is lost, the dirty map stays within the report
      bound and, as long as only recorded revisions are acknowledged, it is the pending part of
      the unbounded log. */
  lemma {:induction false} RunStandsForLog(ops: seq<Op>)
    ensures Stands(Run(ops), Told(ops))
  {
    if ops == [] {
      assert Pending(NO_HISTORY) == map[];
    } else {
      RunStandsForLog(ops[..|ops| - 1]);
      StepKeeps(Run(ops[..|ops| - 1]), Told(ops[..|ops| - 1]), ops[|ops| - 1]);
    }
  }

  // ---- The tracker ----------------------------------------------------------------------------

  function ByBlock(): DirtyBlock -> Key { (e: DirtyBlock) => [e.blockId.inode, e.blockId.index] }

  /** Ascending by inode, then by block index. */
  ghost predicate InBlockOrder(entries: seq<DirtyBlock>) {
    forall i, j {:trigger entries[i], entries[j]} :: 0 <= i < j < |entries| ==>
      var a, b := entries[i].blockId, entries[j].blockId;
      a.inode < b.inode || (a.inode == b.inode && a.index < b.index)
  }

  /** The dirty map listed without repetition. */
  ghost predicate Lists(entries: seq<DirtyBlock>, dirty: map<BlockId, nat>) {
    && (forall k :: 0 <= k < |entries| ==> entries[k].blockId in dirty && dirty[entries[k].blockId] == entries[k].revision)
    && (forall b :: b in dirty ==> DirtyBlock(b, dirty[b]) in entries)
    && (forall i, j :: 0 <= i < j < |entries| ==> entries[i].blockId != entries[j].blockId)
  }

  function Changes(groups: map<GroupName, GroupChanges>, name: GroupName): GroupChanges {
    if name in groups then groups[name] else UNTOUCHED
  }

  function Ops(told: map<GroupName, seq<Op>>, name: GroupName): seq<Op> {
    if name in told then told[name] else []
  }

  function Tell(told: map<GroupName, seq<Op>>, name: GroupName, op: Op): map<GroupName, seq<Op>> {
    told[name := Ops(told, name) + [op]]
  }

  /** Every group is what its operations make it. */
  ghost predicate Agree(groups: map<GroupName, GroupChanges>, told: map<GroupName, seq<Op>>) {
    forall n :: Changes(groups, n) == Run(Ops(told, n))
  }

  lemma TellKeeps(groups: map<GroupName, GroupChanges>, told: map<GroupName, seq<Op>>, name: GroupName, op: Op)
    requires Agree(groups, told)
    ensures var next := Step(Changes(groups, name), op);
            && Agree(groups[name := next], Tell(told, name, op))
            && (name !in groups && next == UNTOUCHED ==> Agree(groups, Tell(told, name, op)))
  {
    var next, told' := Step(Changes(groups, name), op), Tell(told, name, op);
    Extends(Ops(told, name), op);
    forall n ensures n != name ==> Run(Ops(told', n)) == Changes(groups, n) {
      assert n != name ==> Ops(told', n) == Ops(told, n);
    }
  }

  /** The loop of `acknowledge`. */
  method DropCovered(dirty: map<BlockId, nat>, entries: seq<DirtyBlock>) returns (left: map<BlockId, nat>)
    ensures left == Uncovered(dirty, entries)
  {
    hide Uncovered;
    left := dirty;
    UncoveredNone(dirty);
    for k := 0 to |entries|
      invariant left == Uncovered(dirty, entries[..k])
    {
      UncoveredOnce(dirty, entries[..k], entries[k]);
      assert entries[..k + 1] == entries[..k] + [entries[k]];
      if entries[k].blockId in left && left[entries[k].blockId] <= entries[k].revision {
        left := left - {entries[k].blockId};
      }
    }
    assert entries[..|entries|] == entries;
  }

  class BlockReportChangeTracker {
    var groups: map<GroupName, GroupChanges>
    // The operations applied to each group so far.
    ghost var told: map<GroupName, seq<Op>>

    ghost predicate Valid() reads this {
      Agree(groups, told)
    }

    constructor ()
      ensures Valid() && told == map[]
    {
      groups, told := map[], map[];
    }

    /** `record`. */
    method Record(name: GroupName, b: BlockId)
      requires Valid() && Changes(groups, name).revision < U64_MAX
      modifies this
      ensures Valid() && told == Tell(old(told), name, Op.Record(b))
    {
      hide Agree, Tell;
      TellKeeps(groups, told, name, Op.Record(b));
      var changes := Changes(groups, name);
      changes := changes.(revision := changes.revision + 1);
      if !changes.lost {
        if b in changes.dirty || |changes.dirty| < MAX_REPORT_ENTRIES {
          changes := changes.(dirty := changes.dirty[b := changes.revision]);
        } else {
          changes := changes.(dirty := map[], lost := true);
        }
      }
      groups := groups[name := changes];
      told := Tell(told, name, Op.Record(b));
    }

    /** `begin_full_snapshot`. */
    method BeginFullSnapshot(name: GroupName) returns (revision: nat)
      requires Valid()
      modifies this
      ensures Valid() && told == Tell(old(told), name, BeginFull)
      ensures revision == old(Changes(groups, name)).revision
    {
      hide Agree, Tell;
      TellKeeps(groups, told, name, BeginFull);
      var changes := Changes(groups, name);
      revision := changes.revision;
      groups := groups[name := changes.(dirty := map[], lost := false)];
      told := Tell(told, name, BeginFull);
    }

    /** `snapshot`: the dirty blocks in block order, or nothing once continuity is lost. */
    method Snapshot(name: GroupName) returns (r: Option<seq<DirtyBlock>>)
      requires Valid()
      ensures r.None? <==> Run(Ops(told, name)).lost
      ensures r.Some? ==> Lists(r.value, Run(Ops(told, name)).dirty) && InBlockOrder(r.value)
    {
      assert Changes(groups, name) == Run(Ops(told, name));
      if name !in groups {
        return Some([]);
      }
      var changes := groups[name];
      if changes.lost {
        return None;
      }
      var entries := Collect(changes.dirty);
      SortLists(entries, changes.dirty);
      SortSorted(entries, ByBlock());
      SortedInOrder(StableSort(entries, ByBlock()), changes.dirty);
      return Some(StableSort(entries, ByBlock()));
    }

    /** `acknowledge`. */
    method Acknowledge(name: GroupName, entries: seq<DirtyBlock>)
      requires Valid()
      modifies this
      ensures Valid() && told == Tell(old(told), name, Op.Acknowledge(entries))
    {
      hide Agree, Tell;
      TellKeeps(groups, told, name, Op.Acknowledge(entries));
      told := Tell(told, name, Op.Acknowledge(entries));
      if name !in groups {
        assert Uncovered(map[], entries) == map[];
        return;
      }
      var dirty := DropCovered(groups[name].dirty, entries);
      groups := groups[name := groups[name].(dirty := dirty)];
    }

    /** `acknowledge_full`. */
    method AcknowledgeFull(name: GroupName, revision: nat) returns (continuous: bool)
      requires Valid()
      modifies this
      ensures Valid() && told == Tell(old(told), name, Op.AcknowledgeFull(revision))
      ensures continuous <==> !Changes(groups, name).lost
    {
      hide Agree, Tell;
      TellKeeps(groups, told, name, Op.AcknowledgeFull(revision));
      told := Tell(told, name, Op.AcknowledgeFull(revision));
      if name !in groups {
        assert Newer(map[], revision) == map[];
        return true;
      }
      var changes := groups[name];
      groups := groups[name := changes.(dirty := Newer(changes.dirty, revision))];
      return !changes.lost;
    }
  }

  lemma Extends(ops: seq<Op>, op: Op)
    ensures Run(ops + [op]) == Step(Run(ops), op)
  {
    assert (ops + [op])[..|ops|] == ops;
  }

  lemma UncoveredNone(dirty: map<BlockId, nat>)
    ensures Uncovered(dirty, []) == dirty
  {
  }

  lemma UncoveredOnce(dirty: map<BlockId, nat>, entries: seq<DirtyBlock>, e: DirtyBlock)
    ensures var before := Uncovered(dirty, entries);
            Uncovered(dirty, entries + [e]) ==
              if e.blockId in before && before[e.blockId] <= e.revision then before - {e.blockId} else before
  {
    forall b | b in dirty
      ensures Covers(entries + [e], b, dirty[b]) <==> Covers(entries, b, dirty[b]) || (e.blockId == b && dirty[b] <= e.revision)
    {
      CoversMore(entries, [e], b, dirty[b]);
      assert [e][0] == e;
    }
  }

  /** The dirty map in whatever order its iteration yields. */
  method Collect(dirty: map<BlockId, nat>) returns (entries: seq<DirtyBlock>)
    ensures Lists(entries, dirty)
  {
    entries := [];
    var left := dirty.Keys;
    while left != {}
      invariant left <= dirty.Keys
      invariant forall k :: 0 <= k < |entries| ==> entries[k].blockId in dirty && dirty[entries[k].blockId] == entries[k].revision && entries[k].blockId !in left
      invariant forall b :: b in dirty && b !in left ==> DirtyBlock(b, dirty[b]) in entries
      invariant forall i, j :: 0 <= i < j < |entries| ==> entries[i].blockId != entries[j].blockId
      decreases |left|
    {
      var b :| b in left;
      entries := entries + [DirtyBlock(b, dirty[b])];
      left := left - {b};
    }
  }

  lemma SortedInOrder(entries: seq<DirtyBlock>, dirty: map<BlockId, nat>)
    requires Lists(entries, dirty) && Sorted(entries, ByBlock())
    ensures InBlockOrder(entries)
  {
    forall i, j | 0 <= i < j < |entries|
      ensures var a, b := entries[i].blockId, entries[j].blockId; a.inode < b.inode || (a.inode == b.inode && a.index < b.index)
    {
      var x, y := ByBlock()(entries[i]), ByBlock()(entries[j]);
      assert LexLe(x, y) && x[0] == entries[i].blockId.inode && y[0] == entries[j].blockId.inode;
      assert x[1..][0] == entries[i].blockId.index && y[1..][0] == entries[j].blockId.index;
      assert x[0] == y[0] ==> LexLe(x[1..], y[1..]);
      assert entries[i].blockId != entries[j].blockId;
    }
  }

  lemma SortLists(entries: seq<DirtyBlock>, dirty: map<BlockId, nat>)
    requires Lists(entries, dirty)
    ensures Lists(StableSort(entries, ByBlock()), dirty)
  {
    var sorted := StableSort(entries, ByBlock());
    SortPermutes(entries, ByBlock());
    SameMembers(entries, sorted);
    assert forall k :: 0 <= k < |sorted| ==> sorted[k] in entries;
    forall i, j | 0 <= i < j < |entries| ensures ByBlock()(entries[i]) != ByBlock()(entries[j]) {
      assert ByBlock()(entries[i])[0] == entries[i].blockId.inode && ByBlock()(entries[i])[1] == entries[i].blockId.index;
    }
    KeysApartPermutes(entries, sorted, ByBlock());
    forall i, j | 0 <= i < j < |sorted| ensures sorted[i].blockId != sorted[j].blockId {
      assert ByBlock()(sorted[i]) != ByBlock()(sorted[j]);
    }
  }
}
