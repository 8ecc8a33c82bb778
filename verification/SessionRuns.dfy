/** Runs of the write-session registry: every sequence of its operations, with guards that
    may be completed or dropped in any order and at any time. */
module SessionRuns {
  import opened BerylTypes
  import opened MapSums
  import opened SessionSpec
  import opened SessionInvariant
  import Inode

  /** One locked section. Publication owners are named by their identity, since Rust's move
      semantics let no one present a guard the registry did not hand out; all other guards
      are arbitrary values. */
  datatype Op =
    | OpBeginSession(input: BeginSessionInput, now: nat)
    | OpBeginCreate(create: BeginCreateInput, now: nat)
    | OpFinishOpening(opening: OpeningGuard, epoch: LeaseEpoch, now: nat, file: Inode.FileData, tail: Option<LocatedBlock>)
    | OpDropOpening(opening: OpeningGuard)
    | OpFinishCreate(creation: CreateGuard, inode: InodeId, epoch: LeaseEpoch, expiresAt: nat, layout: FileLayout,
                     generation: Generation, now: nat)
    | OpDropCreate(creation: CreateGuard)
    | OpBeginAllocate(inode: InodeId, epoch: LeaseEpoch, previous: Option<BlockId>, now: nat)
    | OpCompleteTarget(inode: InodeId, epoch: LeaseEpoch, pending: Pending, target: LocatedBlock, now: nat)
    | OpDropTarget(inode: InodeId, epoch: LeaseEpoch, pending: Pending)
    | OpBeginPublication(inode: InodeId, epoch: LeaseEpoch, now: nat)
    | OpRevalidate(id: nat, now: nat)
    | OpMarkSubmitted(id: nat, now: nat)
    | OpCompleteSync(id: nat, generation: Generation, size: nat, now: nat)
    | OpCompleteCommit(id: nat)
    | OpDropPublication(id: nat)
    | OpGetSession(inode: InodeId, now: nat)
    | OpRemoveIfEpoch(inode: InodeId, epoch: LeaseEpoch)
    | OpValidate(inode: InodeId, epoch: LeaseEpoch, now: nat)
    | OpRenew(inode: InodeId, epoch: LeaseEpoch, client: ClientId, now: nat)
    | OpSweep(now: nat)

  /** The state after one operation; `OpSweep` stands for every operation that only sweeps. */
  ghost function Step(cfg: Limits, p: State, op: Op): State {
    match op
    case OpBeginSession(input, now) => BeginSession(cfg, p, input, now).0
    case OpBeginCreate(input, now) => BeginCreate(cfg, p, input, now).0
    case OpFinishOpening(g, epoch, now, file, tail) => FinishOpening(cfg, p, g, epoch, now, file, tail).0
    case OpDropOpening(g) => CancelOpening(p, g.inode, g.openingId)
    case OpFinishCreate(g, i, epoch, expiresAt, layout, generation, now) =>
      FinishCreate(p, g, i, epoch, expiresAt, layout, generation, now).0
    case OpDropCreate(g) => CancelCreate(p, g.operation, g.openingId)
    case OpBeginAllocate(i, epoch, previous, now) => BeginAllocate(cfg, p, i, epoch, previous, now).0
    case OpCompleteTarget(i, epoch, pending, target, now) => CompleteTarget(p, i, epoch, pending, target, now).0
    case OpDropTarget(i, epoch, pending) => CancelTarget(p, i, epoch, pending)
    case OpBeginPublication(i, epoch, now) => BeginPublication(p, i, epoch, now).0
    case OpRevalidate(id, now) => if id in p.guards then Revalidate(p, p.guards[id], now).0 else p
    case OpMarkSubmitted(id, now) => if id in p.guards then MarkSubmitted(p, p.guards[id], now).0 else p
    case OpCompleteSync(id, generation, size, now) =>
      if id in p.guards then CompleteSync(p, p.guards[id], generation, size, now).0 else p
    case OpCompleteCommit(id) => if id in p.guards then CompleteCommit(p, p.guards[id]) else p
    case OpDropPublication(id) => if id in p.guards then DropPublication(p, p.guards[id]) else p
    case OpGetSession(i, now) => GetSession(p, i, now).0
    case OpRemoveIfEpoch(i, epoch) => RemoveIfEpoch(p, i, epoch).0
    case OpValidate(i, epoch, now) => ValidateSession(p, i, epoch, now).0
    case OpRenew(i, epoch, client, now) => RenewSession(cfg, p, i, epoch, client, now).0
    case OpSweep(now) => Sweep(p, now, SWEEP_BUDGET)
  }

  ghost function Run(cfg: Limits, p: State, ops: seq<Op>): State {
    if ops == [] then p else Step(cfg, Run(cfg, p, ops[..|ops| - 1]), ops[|ops| - 1])
  }

  lemma StepKeeps(cfg: Limits, p: State, op: Op)
    requires Inv(cfg, p)
    ensures Inv(cfg, Step(cfg, p, op))
  {
    hide Inv, BeginSession, BeginCreate, FinishOpening, FinishCreate, BeginAllocate, CompleteTarget, CancelTarget,
         BeginPublication, MarkSubmitted, CompleteSync, DropPublication, ValidateSession, RenewSession, Sweep,
         Tidy, WithoutEntry, WithoutCreate;
    match op
    case OpBeginSession(input, now) => BeginSessionKeeps(cfg, p, input, now);
    case OpBeginCreate(input, now) => BeginCreateKeeps(cfg, p, input, now);
    case OpFinishOpening(g, epoch, now, file, tail) => FinishOpeningKeeps(cfg, p, g, epoch, now, file, tail);
    case OpDropOpening(g) => WithoutEntryKeeps(cfg, p, g.inode);
    case OpFinishCreate(g, i, epoch, expiresAt, layout, generation, now) =>
      FinishCreateKeeps(cfg, p, g, i, epoch, expiresAt, layout, generation, now);
    case OpDropCreate(g) => WithoutCreateKeeps(cfg, p, g.operation);
    case OpBeginAllocate(i, epoch, previous, now) => BeginAllocateKeeps(cfg, p, i, epoch, previous, now);
    case OpCompleteTarget(i, epoch, pending, target, now) => CompleteTargetKeeps(cfg, p, i, epoch, pending, target, now);
    case OpDropTarget(i, epoch, pending) => CancelTargetKeeps(cfg, p, i, epoch, pending);
    case OpBeginPublication(i, epoch, now) => BeginPublicationKeeps(cfg, p, i, epoch, now);
    case OpRevalidate(id, now) =>
      if id in p.guards { TidyKeeps(cfg, p, p.guards[id].session.inode, now); }
    case OpMarkSubmitted(id, now) =>
      if id in p.guards { GuardGenuine(cfg, p, id); MarkSubmittedKeeps(cfg, p, p.guards[id], now); }
    case OpCompleteSync(id, generation, size, now) =>
      if id in p.guards { GuardGenuine(cfg, p, id); CompleteSyncKeeps(cfg, p, p.guards[id], generation, size, now); }
    case OpCompleteCommit(id) =>
      if id in p.guards { WithoutEntryKeeps(cfg, p, p.guards[id].session.inode); }
    case OpDropPublication(id) =>
      if id in p.guards { GuardGenuine(cfg, p, id); DropPublicationKeeps(cfg, p, p.guards[id]); }
    case OpGetSession(i, now) => TidyKeeps(cfg, p, i, now);
    case OpRemoveIfEpoch(i, epoch) => WithoutEntryKeeps(cfg, p, i);
    case OpValidate(i, epoch, now) => ValidateSessionKeeps(cfg, p, i, epoch, now);
    case OpRenew(i, epoch, client, now) => RenewSessionKeeps(cfg, p, i, epoch, client, now);
    case OpSweep(now) => SweepKeeps(cfg, p, now, SWEEP_BUDGET);
  }

  lemma GuardGenuine(cfg: Limits, p: State, id: nat)
    requires Inv(cfg, p) && id in p.guards
    ensures Genuine(p, p.guards[id])
  {
    assert GuardOk(p, id);
  }

  lemma {:induction false} RunKeeps(cfg: Limits, p: State, ops: seq<Op>)
    requires Inv(cfg, p)
    ensures Inv(cfg, Run(cfg, p, ops))
  {
    hide Inv, Step;
    if ops != [] {
      RunKeeps(cfg, p, ops[..|ops| - 1]);
      StepKeeps(cfg, Run(cfg, p, ops[..|ops| - 1]), ops[|ops| - 1]);
    }
  }

  lemma EmptyHolds(cfg: Limits)
    requires LimitsValid(cfg)
    ensures Inv(cfg, EMPTY)
  {
  }

  /** Every reachable state of a registry satisfies the invariant. */
  lemma ReachableHolds(cfg: Limits, ops: seq<Op>)
    requires LimitsValid(cfg)
    ensures Inv(cfg, Run(cfg, EMPTY, ops))
  {
    hide Inv;
    EmptyHolds(cfg);
    RunKeeps(cfg, EMPTY, ops);
  }

  // ---- Capacity ---------------------------------------------------------------

  /** In every run sessions and create openings stay within the global limit, every client
      within its own, and pending plus issued targets within both target limits. */
  lemma RunStaysWithinLimits(cfg: Limits, ops: seq<Op>)
    requires LimitsValid(cfg)
    ensures var p := Run(cfg, EMPTY, ops);
            && |p.entries| + |p.creates| <= cfg.maxSessions
            && (forall c :: ClientCount(p, c) <= cfg.maxPerClient)
            && Outstanding(p) <= cfg.maxTargets
            && (forall i :: i in p.entries ==> p.entries[i].Owned() <= cfg.maxPerSession)
  {
    hide Run;
    ReachableHolds(cfg, ops);
    var p := Run(cfg, EMPTY, ops);
    forall i | i in p.entries ensures p.entries[i].Owned() <= cfg.maxPerSession {
      EntryHolds(cfg, p, i);
    }
  }

  // ---- Issued targets ---------------------------------------------------------

  ghost predicate StrictlyAscending(issued: seq<LocatedBlock>) {
    forall j, k :: 0 <= j < k < |issued| ==> issued[j].fileOffset < issued[k].fileOffset
  }

  /** Offsets ascend strictly exactly unless a reopened tail of no capacity was followed. */
  lemma AscendingUnlessEmptyTail(issued: seq<LocatedBlock>)
    requires Contiguous(issued)
    ensures StrictlyAscending(issued) <==> |issued| < 2 || issued[0].blockSize > 0
  {
    if |issued| >= 2 {
      assert issued[1].fileOffset == issued[0].fileOffset + issued[0].blockSize;
      if issued[0].blockSize > 0 {
        forall j, k | 0 <= j < k < |issued| ensures issued[j].fileOffset < issued[k].fileOffset {
          OffsetsAscend(issued, if j == 0 then 1 else j, k);
        }
      }
    }
  }

  /** In every run the targets of a session are contiguous, ascend strictly from a tail that
      has capacity, are indexed by exactly the predecessors of the allocated chain, and every
      allocated one carries the session's authority and shape. */
  lemma RunIssuesContiguousTargets(cfg: Limits, ops: seq<Op>, i: InodeId)
    requires LimitsValid(cfg)
    requires var p := Run(cfg, EMPTY, ops); i in p.entries && p.entries[i].Active?
    ensures var s := Run(cfg, EMPTY, ops).entries[i].session;
            && Contiguous(s.issued)
            && StepsFollowChain(s.issued, s.steps)
            && Fenced(s)
            && (StrictlyAscending(s.issued) <==> |s.issued| < 2 || s.issued[0].blockSize > 0)
  {
    hide Run, Inv;
    ReachableHolds(cfg, ops);
    var p := Run(cfg, EMPTY, ops);
    EntryHolds(cfg, p, i);
    AscendingUnlessEmptyTail(p.entries[i].session.issued);
  }

  /** The step of the `k`-th target was issued by AllocateBlock. */
  predicate Allocated(s: WriteSession, k: nat)
    requires k < |s.issued|
  {
    k > 0 || None in s.steps
  }

  /** A retried AllocateBlock gets back exactly the target that its predecessor was given. */
  lemma ReplayReturnsIssuedTarget(cfg: Limits, p: State, i: InodeId, epoch: LeaseEpoch, previous: Option<BlockId>,
                                  now: nat, t: LocatedBlock)
    requires Inv(cfg, p) && SessionCurrent(Tidy(p, i, now), i, epoch)
    ensures var s := Tidy(p, i, now).entries[i].session;
            BeginAllocate(cfg, p, i, epoch, previous, now).1 == Ok(TargetReplayed(t)) <==>
            exists k :: 0 <= k < |s.issued| && Allocated(s, k) && previous == Predecessor(s.issued, k) && t == s.issued[k]
  {
    hide Inv, Tidy, Outstanding, AllocateRefusal, WithSession, Contiguous;
    var s := Tidy(p, i, now).entries[i].session;
    TidyKeeps(cfg, p, i, now);
    EntryHolds(cfg, Tidy(p, i, now), i);
    if previous in s.steps {
      var k := s.steps[previous];
      assert Allocated(s, k) && previous == Predecessor(s.issued, k);
    }
  }

  /** A completed SyncWrite of new content keeps exactly the targets that start below the new
      size, forgets the steps of the rest and returns their capacity; one of content already
      known keeps them all. Nothing else changes beyond the clean-up. */
  lemma SyncRetiresExactSuffix(cfg: Limits, p: State, g: PublicationGuard, generation: Generation, size: nat, now: nat)
    requires Inv(cfg, p) && CompleteSync(p, g, generation, size, now).1.Ok?
    ensures var i := g.session.inode;
            var q := Tidy(p, i, now);
            var r := CompleteSync(p, g, generation, size, now).0;
            && i in p.entries && p.entries[i].Active? && i in r.entries && r.entries[i].Active?
            && var s, t := p.entries[i].session, r.entries[i].session;
               && r == WithSession(q, i, t)
               && t.issued <= s.issued
               && (forall k :: 0 <= k < |s.issued| ==>
                     (k < |t.issued| <==> s.generation == generation || s.issued[k].fileOffset < size))
               && (forall b :: b in t.steps <==> b in s.steps && s.steps[b] < |t.issued|)
               && (forall b :: b in t.steps ==> t.steps[b] == s.steps[b])
               && t.baseSize == size && t.generation == generation && t.mode == Append
               && t.publication.None? && !t.submitted
               && Outstanding(r) + (|s.issued| - |t.issued|) == Outstanding(q)
  {
    hide Inv, Tidy;
    var i := g.session.inode;
    var q := Tidy(p, i, now);
    TidyShrinks(p, i, now);
    TidyKeeps(cfg, p, i, now);
    var s := q.entries[i].session;
    EntryHolds(cfg, q, i);
    SyncResultExact(cfg, s, generation, size);
    SumReplace(q.entries, i, Active(SyncResult(s, generation, size).value), Targets());
  }

  lemma SyncResultExact(cfg: Limits, s: WriteSession, generation: Generation, size: nat)
    requires SessionOk(cfg, s) && SyncResult(s, generation, size).Ok? && s.publication.Some?
    ensures var t := SyncResult(s, generation, size).value;
            && t.issued <= s.issued && t.pending.None? && s.pending.None?
            && (forall k :: 0 <= k < |s.issued| ==>
                  (k < |t.issued| <==> s.generation == generation || s.issued[k].fileOffset < size))
            && (forall b :: b in t.steps <==> b in s.steps && s.steps[b] < |t.issued|)
            && (forall b :: b in t.steps ==> t.steps[b] == s.steps[b])
            && t.baseSize == size && t.generation == generation && t.mode == Append
            && t.publication.None? && !t.submitted
  {
    RetainedExact(s.issued, size);
    StepsInRange(s.issued, s.steps);
  }

  // ---- Publications -----------------------------------------------------------

  /** In every run a session never has both a pending allocation and a publication, and while
      a publication is current the session is the snapshot its owner holds, up to the lease
      deadline and the pin. */
  lemma RunFreezesPublishedSessions(cfg: Limits, ops: seq<Op>, i: InodeId)
    requires LimitsValid(cfg)
    requires var p := Run(cfg, EMPTY, ops); i in p.entries && p.entries[i].Active?
    ensures var p := Run(cfg, EMPTY, ops);
            var s := p.entries[i].session;
            && !(s.pending.Some? && s.publication.Some?)
            && (s.publication.Some? ==>
                  && s.publication.value in p.guards
                  && var held := p.guards[s.publication.value].session;
                     && held.issued == s.issued && held.steps == s.steps
                     && held.generation == s.generation && held.baseSize == s.baseSize && held.mode == s.mode
                     && held.inode == i && held.epoch == s.epoch)
  {
    hide Run, Inv;
    ReachableHolds(cfg, ops);
    EntryHolds(cfg, Run(cfg, EMPTY, ops), i);
  }

  /** The session at `i` awaits the durable result of a submitted publication. */
  predicate Pinned(p: State, i: InodeId) {
    i in p.entries && p.entries[i].Active? && p.entries[i].session.submitted && p.entries[i].session.publication.Some?
  }

  /** `q` still holds the pinned session of `p`, perhaps with a renewed deadline. */
  predicate PinKept(p: State, q: State, i: InodeId)
    requires Pinned(p, i)
  {
    && Pinned(q, i)
    && q.entries[i].session == p.entries[i].session.(expiresAt := q.entries[i].session.expiresAt)
  }

  /** The operation resolves that publication, or removes the session by its own epoch. A
      SyncWrite that fails to complete resolves nothing. */
  ghost predicate Resolves(p: State, op: Op, i: InodeId) {
    Pinned(p, i) &&
    var s := p.entries[i].session;
    || (op.OpCompleteSync? && op.id == s.publication.value && op.id in p.guards
        && CompleteSync(p, p.guards[op.id], op.generation, op.size, op.now).1.Ok?)
    || (op.OpCompleteCommit? && op.id == s.publication.value)
    || (op.OpRemoveIfEpoch? && op.inode == i && op.epoch == s.epoch)
  }

  predicate ClockValid(op: Op) {
    || op.OpDropOpening? || op.OpDropCreate? || op.OpDropTarget?
    || op.OpCompleteCommit? || op.OpDropPublication? || op.OpRemoveIfEpoch?
    || op.now < U64_MAX
  }

  /** A sweep spares whatever retires later. */
  lemma SweepSparesLive(p: State, now: nat, budget: nat, i: InodeId)
    requires i in p.entries && p.entries[i].Retirement() > now
    ensures var q := Sweep(p, now, budget); i in q.entries && q.entries[i] == p.entries[i]
  {
    SweepRetires(p, now, budget);
    var q := Sweep(p, now, budget);
    assert Present(p, SessionVictim(i)) && (Present(q, SessionVictim(i)) || !Present(q, SessionVictim(i)));
  }

  lemma TidySparesLive(p: State, j: InodeId, now: nat, i: InodeId)
    requires i in p.entries && p.entries[i].Retirement() > now
    ensures var q := Tidy(p, j, now); i in q.entries && q.entries[i] == p.entries[i]
  {
    SweepSparesLive(RetireInode(p, j, now), now, SWEEP_BUDGET, i);
  }

  lemma SweepSparesPinned(p: State, now: nat, budget: nat, i: InodeId)
    requires Pinned(p, i) && now < U64_MAX
    ensures var q := Sweep(p, now, budget); i in q.entries && q.entries[i] == p.entries[i]
  {
    SweepSparesLive(p, now, budget, i);
  }

  lemma TidySparesPinned(p: State, j: InodeId, now: nat, i: InodeId)
    requires Pinned(p, i) && now < U64_MAX
    ensures var q := Tidy(p, j, now); i in q.entries && q.entries[i] == p.entries[i]
  {
    TidySparesLive(p, j, now, i);
  }

  lemma ValidateSparesPinned(p: State, j: InodeId, epoch: LeaseEpoch, now: nat, i: InodeId)
    requires Pinned(p, i) && now < U64_MAX
    ensures var q := ValidateSession(p, j, epoch, now).0; i in q.entries && q.entries[i] == p.entries[i]
  {
    SweepSparesPinned(p, now, SWEEP_BUDGET, i);
  }

  lemma OpeningSparesPinned(cfg: Limits, p: State, op: Op, i: InodeId)
    requires Inv(cfg, p) && Pinned(p, i) && ClockValid(op)
    requires op.OpBeginSession? || op.OpBeginCreate? || op.OpFinishOpening? || op.OpDropOpening?
             || op.OpFinishCreate? || op.OpDropCreate?
    ensures PinKept(p, Step(cfg, p, op), i)
  {
    hide Inv, Sweep, Tidy, ChainValid, ParentChainValid, PathHeld, GlobalFull, ClientFull, Outstanding, ReplayHeld,
         CreateRefusal, ReplayCreate, FileMatches;
    match op
    case OpBeginSession(input, now) => TidySparesPinned(p, input.inode, now, i);
    case OpBeginCreate(input, now) =>
      SweepSparesPinned(RetireOperation(p, input.operation, now), now, SWEEP_BUDGET, i);
    case _ =>
  }

  lemma AllocateSparesPinned(cfg: Limits, p: State, j: InodeId, epoch: LeaseEpoch, previous: Option<BlockId>, now: nat,
                             i: InodeId)
    requires Pinned(p, i) && now < U64_MAX
    ensures PinKept(p, BeginAllocate(cfg, p, j, epoch, previous, now).0, i)
  {
    hide Tidy, Outstanding, NextOffset;
    TidySparesPinned(p, j, now, i);
  }

  lemma CancelSparesPinned(cfg: Limits, p: State, j: InodeId, epoch: LeaseEpoch, pending: Pending, i: InodeId)
    requires Inv(cfg, p) && Pinned(p, i)
    ensures PinKept(p, CancelTarget(p, j, epoch, pending), i)
  {
    hide Inv;
    EntryHolds(cfg, p, i);
  }

  lemma CompleteSparesPinned(cfg: Limits, p: State, j: InodeId, epoch: LeaseEpoch, pending: Pending,
                             target: LocatedBlock, now: nat, i: InodeId)
    requires Inv(cfg, p) && Pinned(p, i) && now < U64_MAX
    ensures PinKept(p, CompleteTarget(p, j, epoch, pending, target, now).0, i)
  {
    hide Inv, Tidy, TargetValid;
    EntryHolds(cfg, p, i);
    TidySparesPinned(p, j, now, i);
  }

  lemma PublishSparesPinned(p: State, j: InodeId, epoch: LeaseEpoch, now: nat, i: InodeId)
    requires Pinned(p, i) && now < U64_MAX
    ensures PinKept(p, BeginPublication(p, j, epoch, now).0, i)
  {
    hide Tidy;
    TidySparesPinned(p, j, now, i);
  }

  lemma RenewSparesPinned(cfg: Limits, p: State, j: InodeId, epoch: LeaseEpoch, client: ClientId, now: nat, i: InodeId)
    requires Pinned(p, i) && now < U64_MAX
    ensures PinKept(p, RenewSession(cfg, p, j, epoch, client, now).0, i)
  {
    hide ValidateSession;
    ValidatedPresent(p, j, epoch, now);
    ValidateSparesPinned(p, j, epoch, now, i);
  }

  lemma TargetsSparePinned(cfg: Limits, p: State, op: Op, i: InodeId)
    requires Inv(cfg, p) && Pinned(p, i) && ClockValid(op)
    requires op.OpBeginAllocate? || op.OpCompleteTarget? || op.OpDropTarget? || op.OpBeginPublication?
             || op.OpGetSession? || op.OpSweep? || op.OpValidate? || op.OpRenew?
    ensures PinKept(p, Step(cfg, p, op), i)
  {
    hide Inv, Sweep, Tidy, BeginAllocate, CompleteTarget, CancelTarget, BeginPublication, ValidateSession, RenewSession;
    match op
    case OpBeginAllocate(j, epoch, previous, now) => AllocateSparesPinned(cfg, p, j, epoch, previous, now, i);
    case OpCompleteTarget(j, epoch, pending, target, now) =>
      CompleteSparesPinned(cfg, p, j, epoch, pending, target, now, i);
    case OpDropTarget(j, epoch, pending) => CancelSparesPinned(cfg, p, j, epoch, pending, i);
    case OpBeginPublication(j, epoch, now) => PublishSparesPinned(p, j, epoch, now, i);
    case OpGetSession(j, now) => TidySparesPinned(p, j, now, i);
    case OpSweep(now) => SweepSparesPinned(p, now, SWEEP_BUDGET, i);
    case OpValidate(j, epoch, now) => ValidateSparesPinned(p, j, epoch, now, i);
    case OpRenew(j, epoch, client, now) => RenewSparesPinned(cfg, p, j, epoch, client, now, i);
  }

  /** An owner other than the pinned one is not current there, and the pinned one is submitted. */
  lemma OwnerOfPinned(cfg: Limits, p: State, i: InodeId, id: nat)
    requires Inv(cfg, p) && Pinned(p, i) && id in p.guards
    ensures p.guards[id].id == id
    ensures id == p.entries[i].session.publication.value ==> p.guards[id].submitted
  {
    EntryHolds(cfg, p, i);
    assert GuardOk(p, id);
  }

  lemma SyncSparesPinned(cfg: Limits, p: State, id: nat, generation: Generation, size: nat, now: nat, i: InodeId)
    requires Inv(cfg, p) && Pinned(p, i) && now < U64_MAX
    requires id in p.guards
    requires id != p.entries[i].session.publication.value || CompleteSync(p, p.guards[id], generation, size, now).1.Err?
    ensures PinKept(p, CompleteSync(p, p.guards[id], generation, size, now).0, i)
  {
    hide Inv, Tidy, SyncResult;
    OwnerOfPinned(cfg, p, i, id);
    TidySparesPinned(p, p.guards[id].session.inode, now, i);
  }

  lemma OwnersSparePinned(cfg: Limits, p: State, id: nat, now: nat, i: InodeId)
    requires Inv(cfg, p) && Pinned(p, i) && id in p.guards && now < U64_MAX
    ensures PinKept(p, Revalidate(p, p.guards[id], now).0, i)
    ensures PinKept(p, MarkSubmitted(p, p.guards[id], now).0, i)
    ensures PinKept(p, DropPublication(p, p.guards[id]), i)
    ensures id != p.entries[i].session.publication.value ==> PinKept(p, CompleteCommit(p, p.guards[id]), i)
  {
    hide Inv, Tidy;
    OwnerOfPinned(cfg, p, i, id);
    TidySparesPinned(p, p.guards[id].session.inode, now, i);
  }

  lemma GuardsSparePinned(cfg: Limits, p: State, op: Op, i: InodeId)
    requires Inv(cfg, p) && Pinned(p, i) && ClockValid(op) && !Resolves(p, op, i)
    requires op.OpRevalidate? || op.OpMarkSubmitted? || op.OpCompleteSync? || op.OpCompleteCommit?
             || op.OpDropPublication? || op.OpRemoveIfEpoch?
    ensures PinKept(p, Step(cfg, p, op), i)
  {
    hide Inv, Revalidate, MarkSubmitted, CompleteSync, DropPublication, CompleteCommit;
    match op
    case OpRevalidate(id, now) => if id in p.guards { OwnersSparePinned(cfg, p, id, now, i); }
    case OpMarkSubmitted(id, now) => if id in p.guards { OwnersSparePinned(cfg, p, id, now, i); }
    case OpCompleteSync(id, generation, size, now) =>
      if id in p.guards { SyncSparesPinned(cfg, p, id, generation, size, now, i); }
    case OpCompleteCommit(id) => if id in p.guards { OwnersSparePinned(cfg, p, id, 0, i); }
    case OpDropPublication(id) => if id in p.guards { OwnersSparePinned(cfg, p, id, 0, i); }
    case OpRemoveIfEpoch(j, epoch) =>
  }

  /** A resolution ends the pin. */
  lemma ResolutionUnpins(cfg: Limits, p: State, op: Op, i: InodeId)
    requires Inv(cfg, p) && Resolves(p, op, i) && ClockValid(op)
    ensures !Pinned(Step(cfg, p, op), i)
  {
    hide Inv, Tidy, Retained, KeepSteps;
    EntryHolds(cfg, p, i);
    if op.OpCompleteSync? {
      OwnerOfPinned(cfg, p, i, op.id);
      TidySparesPinned(p, p.guards[op.id].session.inode, op.now, i);
    } else if op.OpCompleteCommit? {
      OwnerOfPinned(cfg, p, i, op.id);
    }
  }

  /** At any clock below the pin a session with a submitted publication is touched by nothing but
      that publication's resolution: expiry, lookup, validation, renewal and a SyncWrite that
      fails leave it, its targets and its exclusion. */
  lemma StepSparesPinned(cfg: Limits, p: State, op: Op, i: InodeId)
    requires Inv(cfg, p) && Pinned(p, i) && ClockValid(op)
    ensures PinKept(p, Step(cfg, p, op), i) <==> !Resolves(p, op, i)
  {
    hide Inv, Step, Resolves;
    if Resolves(p, op, i) {
      ResolutionUnpins(cfg, p, op, i);
    } else if op.OpBeginSession? || op.OpBeginCreate? || op.OpFinishOpening? || op.OpDropOpening?
       || op.OpFinishCreate? || op.OpDropCreate? {
      OpeningSparesPinned(cfg, p, op, i);
    } else if op.OpBeginAllocate? || op.OpCompleteTarget? || op.OpDropTarget? || op.OpBeginPublication?
              || op.OpGetSession? || op.OpSweep? || op.OpValidate? || op.OpRenew? {
      TargetsSparePinned(cfg, p, op, i);
    } else {
      GuardsSparePinned(cfg, p, op, i);
    }
  }

  /** What a pinned session still excludes. */
  lemma PinnedExcludes(cfg: Limits, p: State, i: InodeId, now: nat, a: InodeId, epoch: LeaseEpoch,
                       previous: Option<BlockId>, input: BeginSessionInput)
    requires Inv(cfg, p) && Pinned(p, i) && now < U64_MAX
    ensures a in p.entries[i].Ancestors() ==> ActiveUnder(p, a, now)
    ensures var r := BeginAllocate(cfg, p, i, epoch, previous, now).1; r.Err? || r.value.TargetReplayed?
    ensures BeginPublication(p, i, epoch, now).1.Err?
    ensures input.inode == i ==> BeginSession(cfg, p, input, now).1.Err?
  {
    EntryHolds(cfg, p, i);
    TidySparesPinned(p, i, now, i);
    hide Inv, Sweep, Tidy, Outstanding, NextOffset, GlobalFull, ClientFull, PathHeld, ChainValid;
  }

  /** Along a whole run, a submitted publication keeps its session until it is resolved. */
  lemma {:induction false} RunSparesPinned(cfg: Limits, p: State, ops: seq<Op>, i: InodeId)
    requires Inv(cfg, p) && Pinned(p, i)
    requires forall k :: 0 <= k < |ops| ==> ClockValid(ops[k]) && !Resolves(Run(cfg, p, ops[..k]), ops[k], i)
    ensures PinKept(p, Run(cfg, p, ops), i)
  {
    hide Inv, Step, Resolves;
    if ops != [] {
      var init, n := ops[..|ops| - 1], |ops| - 1;
      assert forall k :: 0 <= k < n ==> init[..k] == ops[..k];
      RunSparesPinned(cfg, p, init, i);
      RunKeeps(cfg, p, init);
      StepSparesPinned(cfg, Run(cfg, p, init), ops[n], i);
    }
  }
}
