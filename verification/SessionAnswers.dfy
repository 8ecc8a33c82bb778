/** What each operation of the write-session registry answers and leaves behind, written on the
    entries it meets: the exact condition of every success, and every field of what it installs. */
module SessionAnswers {
  import opened BerylTypes
  import opened MapSums
  import opened SessionSpec
  import opened SessionInvariant
  import opened SessionRuns
  import opened SessionGuards
  import Inode

  /** An active session of `epoch` at `i` whose lease is not over, or whose publication is pinned. */
  predicate LiveSession(p: State, i: InodeId, epoch: LeaseEpoch, now: nat) {
    && i in p.entries && p.entries[i].Active? && p.entries[i].session.epoch == epoch
    && now < (if p.entries[i].session.submitted then U64_MAX else p.entries[i].session.expiresAt)
  }

  /** The clean-up before an operation leaves the session at hand exactly if it is live. */
  lemma TidiedSession(p: State, i: InodeId, epoch: LeaseEpoch, now: nat)
    ensures var q := Tidy(p, i, now);
            && (SessionCurrent(q, i, epoch) <==> LiveSession(p, i, epoch, now))
            && (LiveSession(p, i, epoch, now) ==> q.entries[i] == p.entries[i])
  {
    hide Sweep;
    SweepShrinks(RetireInode(p, i, now), now, SWEEP_BUDGET);
    if i in p.entries && p.entries[i].Retirement() > now {
      TidySparesLive(p, i, now, i);
    }
  }

  // ---- Submission -------------------------------------------------------------------

  /** Submitting a publication succeeds exactly for the session that still holds it, before its
      deadline and with an epoch to move on to; then the session and its owner are marked and
      nothing else changes. */
  lemma SubmissionPins(cfg: Limits, p: State, g: PublicationGuard, now: nat)
    requires Inv(cfg, p) && Genuine(p, g) && !g.submitted
    ensures var i := g.session.inode;
            var (q, r) := MarkSubmitted(p, g, now);
            && (r.Ok? <==> && g.session.epoch < U64_MAX
                           && i in p.entries && p.entries[i].Active? && p.entries[i].session.epoch == g.session.epoch
                           && p.entries[i].session.publication == Some(g.id) && p.entries[i].session.expiresAt > now)
            && (r.Err? ==> q == p)
            && (r.Ok? ==>
                  && r.value == PublicationGuard(g.session, g.id, true)
                  && q.entries == p.entries[i := Active(p.entries[i].session.(submitted := true))]
                  && q.guards == p.guards[g.id := r.value]
                  && q.creates == p.creates && q.nextOpening == p.nextOpening && q.nextPublication == p.nextPublication)
  {
  }

  /** From a successful submission on, the session survives every run at clocks below the pin in
      which no operation resolves it, whatever its deadline, with all it held. */
  lemma SubmittedSurvives(cfg: Limits, p: State, g: PublicationGuard, now: nat, ops: seq<Op>, later: nat)
    requires Inv(cfg, p) && Genuine(p, g) && !g.submitted && MarkSubmitted(p, g, now).1.Ok?
    requires later < U64_MAX
    requires var q := MarkSubmitted(p, g, now).0;
             forall k :: 0 <= k < |ops| ==> ClockValid(ops[k]) && !Resolves(Run(cfg, q, ops[..k]), ops[k], g.session.inode)
    ensures var i := g.session.inode;
            var r := Tidy(Run(cfg, MarkSubmitted(p, g, now).0, ops), i, later);
            && i in p.entries && p.entries[i].Active? && i in r.entries && r.entries[i].Active?
            && r.entries[i].session == p.entries[i].session.(submitted := true, expiresAt := r.entries[i].session.expiresAt)
  {
    hide Inv, Run, Resolves, Tidy, MarkSubmitted;
    var i := g.session.inode;
    var q := MarkSubmitted(p, g, now).0;
    SubmissionPins(cfg, p, g, now);
    MarkSubmittedKeeps(cfg, p, g, now);
    RunSparesPinned(cfg, q, ops, i);
    TidySparesPinned(Run(cfg, q, ops), i, later, i);
  }

  // ---- Write targets ----------------------------------------------------------------

  /** Where the next target of a session belongs. */
  function NextStart(s: WriteSession): nat {
    if |s.issued| > 0 then s.issued[|s.issued| - 1].fileOffset + s.issued[|s.issued| - 1].blockSize
    else match s.mode
      case Overwrite => 0
      case Append => s.baseSize
  }

  /** AllocateBlock reserves a target exactly for a live session that is neither publishing nor
      allocating, that names its last target, and that has room left; the reservation starts
      where the last target ends, or at the start or the end of the file. */
  lemma AllocateAnswers(cfg: Limits, p: State, i: InodeId, epoch: LeaseEpoch, previous: Option<BlockId>, now: nat)
    requires Inv(cfg, p)
    ensures var (q, r) := BeginAllocate(cfg, p, i, epoch, previous, now);
            var t := Tidy(p, i, now);
            if !LiveSession(p, i, epoch, now) then q == t && r == Err(Session)
            else
              var s := p.entries[i].session;
              if previous in s.steps then q == t && s.steps[previous] < |s.issued| && r == Ok(TargetReplayed(s.issued[s.steps[previous]]))
              else if s.publication.Some? then q == t && r == Err(PublicationInProgress)
              else if previous != (if |s.issued| == 0 then None else Some(s.issued[|s.issued| - 1].blockId))
              then q == t && r == Err(InvalidPredecessor)
              else if s.pending.Some? then q == t && r == Err(AllocatePending)
              else if |s.issued| > 0 && NextStart(s) > U64_MAX then q == t && r == Err(InvalidPredecessor)
              else if |s.issued| >= cfg.maxPerSession then q == t && r == Err(TargetLimitExceeded(PerSession, cfg.maxPerSession))
              else if Outstanding(t) >= cfg.maxTargets then q == t && r == Err(TargetLimitExceeded(GlobalTargets, cfg.maxTargets))
              else
                && q == t.(entries := t.entries[i := Active(s.(pending := Some(Pending(previous))))])
                && r == Ok(TargetReserved(Reservation(i, epoch, Pending(previous), s.layout, s.client, NextStart(s))))
  {
    hide Inv, Tidy, Outstanding;
    TidiedSession(p, i, epoch, now);
    BeginAllocateKeeps(cfg, p, i, epoch, previous, now);
  }

  /** A reservation is completed exactly by a whole new block of the file at the next start, in the
      layout's shape and under the session's authority; any other target releases it. */
  lemma CompletionAnswers(p: State, i: InodeId, epoch: LeaseEpoch, pending: Pending, target: LocatedBlock, now: nat)
    ensures var (q, r) := CompleteTarget(p, i, epoch, pending, target, now);
            var t := Tidy(p, i, now);
            if !LiveSession(p, i, epoch, now) || p.entries[i].session.pending != Some(pending)
            then q == t && r == Err(TargetNotCurrent)
            else
              var s := p.entries[i].session;
              if && IssuedTo(s, target) && target.fileOffset == NextStart(s)
                 && (|s.issued| > 0 ==> NextStart(s) <= U64_MAX)
                 && target.format == DURABLE_PREFIX && 0 < target.blockSize <= MAX_BLOCK_SIZE
              then
                && r == Ok(target)
                && q == t.(entries := t.entries[i := Active(s.(issued := s.issued + [target], pending := None,
                                                               steps := s.steps[pending.previous := |s.issued|]))])
              else r == Err(InvalidTarget) && q == t.(entries := t.entries[i := Active(s.(pending := None))])
  {
    hide Tidy;
    TidiedSession(p, i, epoch, now);
  }

  /** The first target after opening a file: at its end when appending, after the reopened tail if
      there is one, at offset 0 when overwriting. */
  lemma FirstTargetStarts(cfg: Limits, p: State, g: OpeningGuard, epoch: LeaseEpoch, now: nat, file: Inode.FileData,
                          tail: Option<LocatedBlock>, previous: Option<BlockId>, target: LocatedBlock, soon: nat, later: nat)
    requires Inv(cfg, p) && OpeningCurrent(p, g.inode, g.openingId) && FinishOpening(cfg, p, g, epoch, now, file, tail).1.Ok?
    requires var q := FinishOpening(cfg, p, g, epoch, now, file, tail).0;
             var (r, reserved) := BeginAllocate(cfg, q, g.inode, epoch, previous, soon);
             reserved.Ok? && CompleteTarget(r, g.inode, epoch, Pending(previous), target, later).1.Ok?
    ensures target.fileOffset ==
            if tail.Some? then tail.value.fileOffset + tail.value.blockSize
            else if p.entries[g.inode].opening.mode == Append then file.len
            else 0
  {
    hide Inv, BeginAllocate, CompleteTarget, Tidy, FinishOpening;
    var q := FinishOpening(cfg, p, g, epoch, now, file, tail).0;
    FinishOpeningKeeps(cfg, p, g, epoch, now, file, tail);
    OpeningAnswers(cfg, p, g, epoch, now, file, tail);
    AllocateAnswers(cfg, q, g.inode, epoch, previous, soon);
    TidiedSession(q, g.inode, epoch, soon);
    CompletionAnswers(BeginAllocate(cfg, q, g.inode, epoch, previous, soon).0, g.inode, epoch, Pending(previous), target, later);
  }

  /** Dropping a reservation that is current frees exactly its slot: the same AllocateBlock is then
      admitted again, unless the file offset is exhausted. */
  lemma DroppedReservationFrees(cfg: Limits, p: State, i: InodeId, epoch: LeaseEpoch, previous: Option<BlockId>, now: nat)
    requires Inv(cfg, p) && LiveSession(p, i, epoch, now) && p.entries[i].session.pending == Some(Pending(previous))
    ensures var q := CancelTarget(p, i, epoch, Pending(previous));
            var s := p.entries[i].session;
            var r := BeginAllocate(cfg, q, i, epoch, previous, now).1;
            && q == p.(entries := p.entries[i := Active(s.(pending := None))])
            && (|s.issued| > 0 && NextStart(s) > U64_MAX ==> r == Err(InvalidPredecessor))
            && (|s.issued| == 0 || NextStart(s) <= U64_MAX ==> r.Ok? && r.value.TargetReserved?)
  {
    hide Inv, BeginAllocate, Outstanding, Tidy, CancelTarget;
    var q := CancelTarget(p, i, epoch, Pending(previous));
    CancelTargetKeeps(cfg, p, i, epoch, Pending(previous));
    CancelledReservation(p, i, epoch, Pending(previous));
    PendingFollows(cfg, p, i);
    SlotFreed(cfg, p, q, i, now);
    AllocateAnswers(cfg, q, i, epoch, previous, now);
  }

  /** Dropping a reservation clears exactly its own pending slot, if it is the current one. */
  lemma CancelledReservation(p: State, i: InodeId, epoch: LeaseEpoch, pending: Pending)
    ensures CancelTarget(p, i, epoch, pending) ==
            if i in p.entries && p.entries[i].Active? && p.entries[i].session.epoch == epoch && p.entries[i].session.pending == Some(pending)
            then p.(entries := p.entries[i := Active(p.entries[i].session.(pending := None))]) else p
  {
  }

  lemma PendingFollows(cfg: Limits, p: State, i: InodeId)
    requires Inv(cfg, p) && i in p.entries && p.entries[i].Active? && p.entries[i].session.pending.Some?
    ensures var s := p.entries[i].session;
            && s.pending.value.previous == (if |s.issued| == 0 then None else Some(s.issued[|s.issued| - 1].blockId))
            && s.pending.value.previous !in s.steps && s.publication.None? && |s.issued| < cfg.maxPerSession
  {
    EntryHolds(cfg, p, i);
  }

  lemma SlotFreed(cfg: Limits, p: State, q: State, i: InodeId, now: nat)
    requires Inv(cfg, p) && i in p.entries && p.entries[i].Active? && p.entries[i].session.pending.Some?
    requires q == p.(entries := p.entries[i := Active(p.entries[i].session.(pending := None))])
    ensures Outstanding(Tidy(q, i, now)) < cfg.maxTargets
  {
    hide Tidy;
    SumReplace(p.entries, i, Active(p.entries[i].session.(pending := None)), Targets());
    TidyShrinks(q, i, now);
    SumSubmap(Tidy(q, i, now).entries, q.entries, Targets());
  }

  // ---- Opening and creating -----------------------------------------------------------

  /** A session is opened exactly for a valid chain, a free inode and path, free capacity and
      identities left; a path that a CreateFile is opening is as busy as the inode itself. */
  lemma BeginAnswers(cfg: Limits, p: State, input: BeginSessionInput, now: nat)
    ensures var (q, r) := BeginSession(cfg, p, input, now);
            var t := Tidy(p, input.inode, now);
            if !ChainValid(input.inode, input.ancestors) then q == p && r == Err(InvalidAncestorChain)
            else if || input.inode in t.entries
                    || exists o :: o in t.creates && t.creates[o].identity.mount == input.mount && t.creates[o].identity.path == input.path
            then q == t && r == Err(Busy)
            else if |t.entries| + |t.creates| >= cfg.maxSessions then q == t && r == Err(LimitExceeded(GlobalSessions, cfg.maxSessions))
            else if ClientCount(t, input.client) >= cfg.maxPerClient then q == t && r == Err(LimitExceeded(PerClient, cfg.maxPerClient))
            else if input.currentEpoch >= U64_MAX then q == t && r == Err(LeaseEpochExhausted)
            else if t.nextOpening >= U64_MAX then q == t && r == Err(OpeningIdExhausted)
            else
              && r == Ok(OpeningGuard(input.inode, t.nextOpening, input.currentEpoch + 1))
              && q.creates == t.creates && q.guards == t.guards && q.nextPublication == t.nextPublication
              && q.nextOpening == t.nextOpening + 1
              && input.inode in q.entries && q.entries == t.entries[input.inode := q.entries[input.inode]]
              && q.entries[input.inode].Opening?
              && var o := q.entries[input.inode].opening;
                 && o.openingId == t.nextOpening && o.inode == input.inode && o.mount == input.mount
                 && o.proposedEpoch == input.currentEpoch + 1 && o.mode == input.mode && o.client == input.client
                 && o.layout == input.layout && o.ancestors == input.ancestors
                 && o.expiresAt == if now + cfg.ttl <= U64_MAX then now + cfg.ttl else U64_MAX
  {
    hide Tidy, ChainValid, ClientCount;
  }

  /** An opening is activated exactly by its own guard before its deadline, with the proposed epoch
      and a file of that epoch and layout, and room for a reopened tail; the session continues
      the file as it is. */
  lemma OpeningAnswers(cfg: Limits, p: State, g: OpeningGuard, epoch: LeaseEpoch, now: nat, file: Inode.FileData,
                       tail: Option<LocatedBlock>)
    requires OpeningCurrent(p, g.inode, g.openingId)
    ensures var o := p.entries[g.inode].opening;
            var (q, r) := FinishOpening(cfg, p, g, epoch, now, file, tail);
            && (r.Ok? <==> && o.expiresAt > now && o.proposedEpoch == epoch && file.epoch == epoch && file.layout == o.layout
                           && (tail.Some? ==> Outstanding(p) < cfg.maxTargets))
            && (r.Ok? ==>
                  && g.inode in q.entries && q.entries[g.inode].Active? && q == p.(entries := p.entries[g.inode := q.entries[g.inode]])
                  && var s := q.entries[g.inode].session;
                     && r.value == s
                     && s.inode == o.inode && s.mount == o.mount && s.epoch == epoch && s.client == o.client
                     && s.mode == o.mode && s.layout == o.layout && s.expiresAt == o.expiresAt && s.ancestors == o.ancestors
                     && s.baseSize == file.len && s.generation == file.generation
                     && s.issued == (if tail.Some? then [tail.value] else []) && s.steps == map[]
                     && s.pending.None? && s.publication.None? && !s.submitted && s.replay.None?)
  {
    hide Outstanding;
  }

  /** A create opening is activated exactly by its own guard before both deadlines, under a first
      epoch, at an inode nobody writes and that closes its chain; the session starts empty. */
  lemma CreationAnswers(cfg: Limits, p: State, g: CreateGuard, i: InodeId, epoch: LeaseEpoch, expiresAt: nat, layout: FileLayout,
                        generation: Generation, now: nat)
    requires Inv(cfg, p) && CreateCurrent(p, g.operation, g.openingId)
    ensures var o := p.creates[g.operation];
            var (q, r) := FinishCreate(p, g, i, epoch, expiresAt, layout, generation, now);
            && (r.Ok? <==> && o.expiresAt > now && expiresAt > now && epoch > 0 && i !in p.entries
                           && ChainValid(i, o.ancestors + [i]))
            && (r.Ok? ==>
                  && q.creates == p.creates - {g.operation} && q.guards == p.guards
                  && q.nextOpening == p.nextOpening && q.nextPublication == p.nextPublication
                  && i in q.entries && q.entries == p.entries[i := q.entries[i]] && q.entries[i].Active?
                  && var s := q.entries[i].session;
                     && r.value == s
                     && s.inode == i && s.mount == o.identity.mount && s.epoch == epoch && s.client == o.client
                     && s.mode == Overwrite && s.layout == layout && s.expiresAt == expiresAt && s.ancestors == o.ancestors + [i]
                     && s.baseSize == 0 && s.generation == generation && s.issued == [] && s.steps == map[]
                     && s.pending.None? && s.publication.None? && !s.submitted
                     && s.replay == Some(CreateReplay(g.operation, o.identity, CreateResponse(i, epoch, layout, expiresAt, generation))))
  {
    hide Inv, ChainValid;
    CreateHolds(cfg, p, g.operation);
  }

  // ---- CreateFile retries -------------------------------------------------------------

  /** One operation leaves a living session the one it was, with what a retry of its CreateFile is
      answered from. */
  lemma StepSameSession(cfg: Limits, p: State, op: Op, i: InodeId, epoch: LeaseEpoch)
    requires Inv(cfg, p) && SessionCurrent(p, i, epoch) && SessionCurrent(Step(cfg, p, op), i, epoch)
    ensures SameSession(p.entries[i].session, Step(cfg, p, op).entries[i].session)
  {
    hide Inv, Step, Grows;
    if Activates(op, i, epoch) {
      ActivationLeavesActive(cfg, p, op, i, epoch);
    } else {
      StepAdvances(cfg, p, op);
      assert Continues(p, Step(cfg, p, op), op, i, epoch);
    }
  }

  lemma {:induction false} RunSameSession(cfg: Limits, p: State, ops: seq<Op>, i: InodeId, epoch: LeaseEpoch)
    requires Inv(cfg, p)
    requires forall k :: 0 <= k <= |ops| ==> SessionCurrent(Run(cfg, p, ops[..k]), i, epoch)
    ensures SessionCurrent(p, i, epoch) && SessionCurrent(Run(cfg, p, ops), i, epoch)
    ensures SameSession(p.entries[i].session, Run(cfg, p, ops).entries[i].session)
  {
    hide Inv, Step;
    assert ops[..0] == [] && ops[..|ops|] == ops;
    if ops != [] {
      var init, n := ops[..|ops| - 1], |ops| - 1;
      assert forall k :: 0 <= k <= n ==> init[..k] == ops[..k];
      RunSameSession(cfg, p, init, i, epoch);
      RunKeeps(cfg, p, init);
      StepSameSession(cfg, Run(cfg, p, init), ops[n], i, epoch);
    }
  }

  /** While the created session lives, a CreateFile of the same operation is answered from the
      creation: an exact retry with the very response it was finished with, any other request
      as a mismatch. The registry is swept and nothing else. */
  lemma CreateRetryAnswers(cfg: Limits, p: State, g: CreateGuard, i: InodeId, epoch: LeaseEpoch, expiresAt: nat,
                           layout: FileLayout, generation: Generation, now: nat, ops: seq<Op>, input: BeginCreateInput,
                           later: nat)
    requires Inv(cfg, p) && CreateCurrent(p, g.operation, g.openingId)
    requires FinishCreate(p, g, i, epoch, expiresAt, layout, generation, now).1.Ok?
    requires var q := FinishCreate(p, g, i, epoch, expiresAt, layout, generation, now).0;
             && (forall k :: 0 <= k <= |ops| ==> SessionCurrent(Run(cfg, q, ops[..k]), i, epoch))
             && i in Sweep(Run(cfg, q, ops), later, SWEEP_BUDGET).entries
    requires input.operation == g.operation && input.client == g.operation.client && ParentChainValid(input.ancestors)
    ensures var r := Run(cfg, FinishCreate(p, g, i, epoch, expiresAt, layout, generation, now).0, ops);
            BeginCreate(cfg, r, input, later) ==
              (Sweep(r, later, SWEEP_BUDGET),
               if input.identity == p.creates[g.operation].identity
               then Ok(CreateReplayed(CreateResponse(i, epoch, layout, expiresAt, generation)))
               else Err(IdentityMismatch))
  {
    hide Inv, Run, Sweep, FinishCreate, ParentChainValid, SessionCurrent;
    var q := FinishCreate(p, g, i, epoch, expiresAt, layout, generation, now).0;
    var r := Run(cfg, q, ops);
    CreationAnswers(cfg, p, g, i, epoch, expiresAt, layout, generation, now);
    FinishCreateKeeps(cfg, p, g, i, epoch, expiresAt, layout, generation, now);
    RunSameSession(cfg, q, ops, i, epoch);
    RunKeeps(cfg, q, ops);
    CurrentHere(r, i, epoch);
    HeldReplayAnswers(cfg, r, i, input, later);
  }

  lemma CurrentHere(p: State, i: InodeId, epoch: LeaseEpoch)
    requires SessionCurrent(p, i, epoch)
    ensures i in p.entries && p.entries[i].Active?
  {
  }

  /** A CreateFile of an operation whose session is still there after the sweep. */
  lemma HeldReplayAnswers(cfg: Limits, p: State, i: InodeId, input: BeginCreateInput, now: nat)
    requires Inv(cfg, p) && i in p.entries && p.entries[i].Replayed() == Some(input.operation)
    requires i in Sweep(p, now, SWEEP_BUDGET).entries
    requires input.client == input.operation.client && ParentChainValid(input.ancestors)
    ensures BeginCreate(cfg, p, input, now) ==
              (Sweep(p, now, SWEEP_BUDGET),
               if input.identity == p.entries[i].session.replay.value.identity
               then Ok(CreateReplayed(p.entries[i].session.replay.value.response)) else Err(IdentityMismatch))
  {
    hide Inv, Sweep, CreateFresh;
    ReplayAlone(cfg, p, i, i, input.operation);
    SweepShrinks(p, now, SWEEP_BUDGET);
    var q := Sweep(p, now, SWEEP_BUDGET);
    assert ReplayHeld(q, input.operation, i);
    forall j | ReplayHeld(q, input.operation, j) ensures j == i {
      ReplayAlone(cfg, p, i, j, input.operation);
    }
  }

  lemma ReplayAlone(cfg: Limits, p: State, i: InodeId, j: InodeId, o: OpId)
    requires Inv(cfg, p) && i in p.entries && p.entries[i].Replayed() == Some(o)
    ensures o !in p.creates && (j in p.entries && p.entries[j].Replayed() == Some(o) ==> j == i)
  {
    assert ReplaysApart(p, i, j);
  }

  /** A CreateFile under another client's identity, or under no chain of parents, is refused outright. */
  lemma MalformedCreateAnswers(cfg: Limits, p: State, input: BeginCreateInput, now: nat)
    ensures input.client != input.operation.client ==> BeginCreate(cfg, p, input, now) == (p, Err(IdentityMismatch))
    ensures input.client == input.operation.client && !ParentChainValid(input.ancestors) ==>
              BeginCreate(cfg, p, input, now) == (p, Err(InvalidParentChain))
  {
  }

  /** A chain of parents is accepted exactly if a new file below its last one would have a valid
      chain; so the activation of an accepted CreateFile fails on its chain only if the inode it
      was given is one of its own parents. */
  lemma ChainsAgree(i: InodeId, parents: seq<InodeId>)
    ensures !ParentChainValid([]) && ChainValid(i, [i])
    ensures parents != [] ==> (ChainValid(i, parents + [i]) <==> ParentChainValid(parents) && i !in parents)
    ensures forall chain :: ChainValid(i, chain) ==> chain != [] && chain[|chain| - 1] == i
  {
    var chain := parents + [i];
    assert forall k :: 0 <= k < |parents| ==> chain[k] == parents[k];
    assert chain[|parents|] == i;
    if Inode.Distinct(chain) {
      forall k | 0 <= k < |parents| ensures parents[k] != i {
        assert chain[k] != chain[|parents|];
      }
      assert Inode.Distinct(parents) by {
        forall j, k | 0 <= j < k < |parents| ensures parents[j] != parents[k] {
          assert chain[j] != chain[k];
        }
      }
    }
  }

  /** A CreateFile whose operation nobody holds is refused or reserved by what it would exclude. */
  lemma FreshCreateAnswers(cfg: Limits, p: State, input: BeginCreateInput, now: nat)
    requires input.client == input.operation.client && ParentChainValid(input.ancestors)
    requires forall i :: i in p.entries ==> p.entries[i].Replayed() != Some(input.operation)
    ensures var (q, r) := BeginCreate(cfg, p, input, now);
            var o := input.operation;
            var kept := if o in p.creates && p.creates[o].expiresAt <= now then p.(creates := p.creates - {o}) else p;
            var t := Sweep(kept, now, SWEEP_BUDGET);
            if o in t.creates
            then q == t && r == Err(if t.creates[input.operation].identity == input.identity then CreatePending else IdentityMismatch)
            else if exists o :: o in t.creates && t.creates[o].identity.mount == input.identity.mount
                                && t.creates[o].identity.path == input.identity.path
            then q == t && r == Err(PathBusy)
            else if |t.entries| + |t.creates| >= cfg.maxSessions then q == t && r == Err(CreateLimitExceeded(GlobalSessions, cfg.maxSessions))
            else if ClientCount(t, input.client) >= cfg.maxPerClient then q == t && r == Err(CreateLimitExceeded(PerClient, cfg.maxPerClient))
            else if t.nextOpening >= U64_MAX then q == t && r == Err(CreateIdExhausted)
            else
              && q.entries == t.entries && q.guards == t.guards && q.nextPublication == t.nextPublication
              && q.nextOpening == t.nextOpening + 1
              && input.operation in q.creates && q.creates == t.creates[input.operation := q.creates[input.operation]]
              && var o := q.creates[input.operation];
                 && r == Ok(CreateReserved(CreateGuard(input.operation, t.nextOpening, o.expiresAt)))
                 && o.openingId == t.nextOpening && o.operation == input.operation && o.identity == input.identity
                 && o.client == input.client && o.ancestors == input.ancestors
                 && o.expiresAt == if now + cfg.ttl <= U64_MAX then now + cfg.ttl else U64_MAX
  {
    hide Sweep, ParentChainValid, ClientCount;
    SweepShrinks(RetireOperation(p, input.operation, now), now, SWEEP_BUDGET);
  }

  // ---- Publication --------------------------------------------------------------------

  /** A publication begins exactly for a live session that is neither allocating nor publishing;
      its owner holds the session as it is frozen. */
  lemma PublicationAnswers(p: State, i: InodeId, epoch: LeaseEpoch, now: nat)
    ensures var (q, r) := BeginPublication(p, i, epoch, now);
            var t := Tidy(p, i, now);
            if !LiveSession(p, i, epoch, now) then q == t && r == Err(PublicationSession)
            else
              var s := p.entries[i].session;
              if s.pending.Some? then q == t && r == Err(AllocateBlockPending)
              else if s.publication.Some? then q == t && r == Err(AlreadyPublishing)
              else if t.nextPublication >= U64_MAX then q == t && r == Err(PublicationIdExhausted)
              else
                var id := t.nextPublication;
                && r == Ok(PublicationGuard(s.(publication := Some(id)), id, false))
                && q.entries == t.entries[i := Active(s.(publication := Some(id)))]
                && q.guards == t.guards[id := r.value] && q.nextPublication == id + 1
                && q.creates == t.creates && q.nextOpening == t.nextOpening
  {
    hide Tidy;
    TidiedSession(p, i, epoch, now);
  }

  /** The session a publication owner is shown: the one that still holds its publication, if any. */
  lemma RevalidationAnswers(p: State, g: PublicationGuard, now: nat)
    ensures var i := g.session.inode;
            Revalidate(p, g, now) ==
              (Tidy(p, i, now),
               if LiveSession(p, i, g.session.epoch, now) && p.entries[i].session.publication == Some(g.id)
               then Ok(p.entries[i].session) else Err(PublicationNotCurrent))
  {
    hide Tidy;
    TidiedSession(p, g.session.inode, g.session.epoch, now);
  }

  /** A SyncWrite completes exactly for the live session that holds its publication, with the
      content the session knows or the generation that follows it; what it then does is
      `SyncRetiresExactSuffix`. Otherwise an unsubmitted publication is given up and a
      submitted one keeps its protection. */
  lemma SyncAnswers(p: State, g: PublicationGuard, generation: Generation, size: nat, now: nat)
    ensures var i := g.session.inode;
            var (q, r) := CompleteSync(p, g, generation, size, now);
            var t := Tidy(p, i, now);
            if !LiveSession(p, i, g.session.epoch, now) || p.entries[i].session.publication != Some(g.id)
            then q == t && r == Err(PublicationNotCurrent)
            else
              var s := p.entries[i].session;
              && (r.Ok? <==> (generation == s.generation && size == s.baseSize) || (generation == s.generation + 1 && generation <= U64_MAX))
              && (r.Err? ==>
                    && q == (if g.submitted then t else t.(entries := t.entries[i := Active(s.(publication := None))]))
                    && r.error == if generation == s.generation then SizeChanged
                                  else if s.generation >= U64_MAX then GenerationOverflow else GenerationChanged)
  {
    hide Tidy, Retained;
    TidiedSession(p, g.session.inode, g.session.epoch, now);
  }

  /** Dropping an owner that was not submitted gives up exactly its own publication, if it is the
      current one; a submitted owner leaves everything. */
  lemma CancelledPublication(p: State, g: PublicationGuard)
    ensures var i := g.session.inode;
            DropPublication(p, g) ==
              if !g.submitted && i in p.entries && p.entries[i].Active? && p.entries[i].session.epoch == g.session.epoch
                 && p.entries[i].session.publication == Some(g.id)
              then p.(entries := p.entries[i := Active(p.entries[i].session.(publication := None))]) else p
  {
  }

  /** After which the session publishes again, if an identity is left. */
  lemma DroppedPublicationFrees(cfg: Limits, p: State, g: PublicationGuard, now: nat)
    requires Inv(cfg, p) && !g.submitted && LiveSession(p, g.session.inode, g.session.epoch, now)
    requires !p.entries[g.session.inode].session.submitted && p.entries[g.session.inode].session.publication == Some(g.id)
    ensures BeginPublication(DropPublication(p, g), g.session.inode, g.session.epoch, now).1.Ok? <==> p.nextPublication < U64_MAX
  {
    hide Inv, Tidy, BeginPublication, DropPublication;
    var i := g.session.inode;
    EntryHolds(cfg, p, i);
    CancelledPublication(p, g);
    PublicationAnswers(DropPublication(p, g), i, g.session.epoch, now);
    TidyShrinks(DropPublication(p, g), i, now);
  }

  /** A committed publication removes exactly the session that holds it. */
  lemma CommitAnswers(p: State, g: PublicationGuard)
    ensures var i := g.session.inode;
            CompleteCommit(p, g) ==
              if i in p.entries && p.entries[i].Active? && p.entries[i].session.epoch == g.session.epoch
                 && p.entries[i].session.publication == Some(g.id)
              then p.(entries := p.entries - {i}) else p
  {
  }

  // ---- Lookup, removal and renewal ------------------------------------------------------

  lemma LookupAnswers(p: State, i: InodeId, now: nat)
    ensures GetSession(p, i, now) ==
              (Tidy(p, i, now),
               if i in p.entries && p.entries[i].Active? && LiveSession(p, i, p.entries[i].session.epoch, now)
               then Some(p.entries[i].session) else None)
  {
    hide Tidy;
    TidyShrinks(p, i, now);
    if i in p.entries && p.entries[i].Active? {
      TidiedSession(p, i, p.entries[i].session.epoch, now);
    }
  }

  lemma RemovalAnswers(p: State, i: InodeId, epoch: LeaseEpoch)
    ensures RemoveIfEpoch(p, i, epoch) ==
              if i in p.entries && p.entries[i].Active? && p.entries[i].session.epoch == epoch
              then (p.(entries := p.entries - {i}), Some(p.entries[i].session)) else (p, None)
  {
  }

  /** A session is renewed exactly by its own client under its epoch while its lease runs, pinned or
      not; the deadline never comes earlier and reaches at most the end of the clock. */
  lemma RenewalAnswers(cfg: Limits, p: State, i: InodeId, epoch: LeaseEpoch, client: ClientId, now: nat)
    requires i in p.entries ==> p.entries[i].ExpiresAt() <= U64_MAX
    ensures var (q, r) := RenewSession(cfg, p, i, epoch, client, now);
            if i in p.entries && p.entries[i].ExpiresAt() <= now then r == Err(SessionExpired)
            else if !(i in p.entries && p.entries[i].Active?) then r == Err(NotFound)
            else
              var s := p.entries[i].session;
              var granted := if now + cfg.ttl <= U64_MAX then now + cfg.ttl else U64_MAX;
              if s.epoch != epoch then r == Err(LeaseEpochMismatch(s.epoch, epoch))
              else if s.client != client then r == Err(OwnerMismatch)
              else
                && r == Ok(if granted > s.expiresAt then granted else s.expiresAt)
                && q == Sweep(p, now, SWEEP_BUDGET).(entries := Sweep(p, now, SWEEP_BUDGET).entries[i := Active(s.(expiresAt := r.value))])
    ensures RenewSession(cfg, p, i, epoch, client, now).1.Err? ==>
              RenewSession(cfg, p, i, epoch, client, now).0 == ValidateSession(p, i, epoch, now).0
    ensures ValidateSession(p, i, epoch, now).0 ==
              if !(i in p.entries && p.entries[i].ExpiresAt() <= now) then Sweep(p, now, SWEEP_BUDGET)
              else if p.entries[i].Active? && p.entries[i].session.submitted && now < U64_MAX then p
              else p.(entries := p.entries - {i})
    ensures ValidateSession(p, i, epoch, now).1 ==
              if i in p.entries && p.entries[i].ExpiresAt() <= now then Err(SessionExpired)
              else if !(i in p.entries && p.entries[i].Active?) then Err(NotFound)
              else if p.entries[i].session.epoch != epoch then Err(LeaseEpochMismatch(p.entries[i].session.epoch, epoch))
              else Ok(())
  {
    hide Sweep;
    SweepShrinks(p, now, SWEEP_BUDGET);
    if i in p.entries && p.entries[i].ExpiresAt() > now {
      SweepSparesLive(p, now, SWEEP_BUDGET, i);
    }
  }
}
