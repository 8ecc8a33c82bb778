/** Stale guards: an opening, a create opening, a publication owner or a target reservation
    whose registry state is gone stays without effect for the rest of every run. */
module SessionGuards {
  import opened BerylTypes
  import opened MapSums
  import opened SessionSpec
  import opened SessionInvariant
  import opened SessionRuns
  import Inode

  /** Some session, for lemma arguments that do not matter. */
  const ANY: WriteSession := WriteSession(0, 0, 0, 0, 0, Overwrite, 0, FileLayout(0, 0), 0, [], [], map[], None, None,
                                          false, None)

  /** The operation can make a session of `epoch` active at `i`. */
  predicate Activates(op: Op, i: InodeId, epoch: LeaseEpoch) {
    || (op.OpFinishOpening? && op.opening.inode == i && op.epoch == epoch)
    || (op.OpFinishCreate? && op.inode == i && op.epoch == epoch)
  }

  /** `t` still answers every AllocateBlock step of `s` with the same target. */
  ghost predicate Grows(s: WriteSession, t: WriteSession) {
    && s.issued <= t.issued
    && Submap(s.steps, t.steps)
  }

  /** `t` is the same session: what it was opened or created with has not changed. */
  predicate SameSession(s: WriteSession, t: WriteSession) {
    && t.inode == s.inode && t.mount == s.mount && t.client == s.client && t.layout == s.layout
    && t.ancestors == s.ancestors && t.replay == s.replay
  }

  /** A session current in both states is the same one, and lost no issued target unless a
      SyncWrite completed. */
  ghost predicate Continues(p: State, q: State, op: Op, i: InodeId, e: LeaseEpoch) {
    && SessionCurrent(p, i, e) && SessionCurrent(q, i, e)
    && SameSession(p.entries[i].session, q.entries[i].session)
    && (op.OpCompleteSync? || Grows(p.entries[i].session, q.entries[i].session))
  }

  /** Between `p` and `q` nothing that a guard can name came back: only identities not yet
      issued in `p`, or an activated epoch, can be current in `q` without being so in `p`. */
  ghost predicate Advances(p: State, q: State, op: Op) {
    && p.nextOpening <= q.nextOpening && p.nextPublication <= q.nextPublication
    && (forall i, id: nat {:trigger OpeningCurrent(q, i, id)} ::
          OpeningCurrent(q, i, id) ==> OpeningCurrent(p, i, id) || id >= p.nextOpening)
    && (forall o, id: nat {:trigger CreateCurrent(q, o, id)} ::
          CreateCurrent(q, o, id) ==> CreateCurrent(p, o, id) || id >= p.nextOpening)
    && (forall i, e, id: nat {:trigger PublicationCurrent(q, i, e, id)} ::
          PublicationCurrent(q, i, e, id) ==> PublicationCurrent(p, i, e, id) || id >= p.nextPublication)
    && (forall i, e {:trigger SessionCurrent(q, i, e)} ::
          SessionCurrent(q, i, e) ==> Continues(p, q, op, i, e) || Activates(op, i, e))
  }

  lemma ShrunkAdvances(p: State, q: State, op: Op)
    requires Shrunk(p, q)
    ensures Advances(p, q, op)
  {
  }

  lemma AdvancesAfterShrink(p: State, h: State, q: State, op: Op)
    requires Shrunk(p, h) && Advances(h, q, op)
    ensures Advances(p, q, op)
  {
    forall i, id: nat | OpeningCurrent(q, i, id) ensures OpeningCurrent(p, i, id) || id >= p.nextOpening {
      assert OpeningCurrent(h, i, id) || id >= h.nextOpening;
    }
    forall o, id: nat | CreateCurrent(q, o, id) ensures CreateCurrent(p, o, id) || id >= p.nextOpening {
      assert CreateCurrent(h, o, id) || id >= h.nextOpening;
    }
    forall i, e, id: nat | PublicationCurrent(q, i, e, id)
      ensures PublicationCurrent(p, i, e, id) || id >= p.nextPublication
    {
      assert PublicationCurrent(h, i, e, id) || id >= h.nextPublication;
    }
    forall i, e | SessionCurrent(q, i, e) ensures Continues(p, q, op, i, e) || Activates(op, i, e) {
      assert Continues(h, q, op, i, e) || Activates(op, i, e);
    }
  }

  /** Updating a session under its epoch, without reviving a publication. */
  lemma UpdateAdvances(p: State, i: InodeId, t: WriteSession, op: Op)
    requires i in p.entries && p.entries[i].Active? && t.epoch == p.entries[i].session.epoch
    requires t.publication.None? || t.publication == p.entries[i].session.publication
    requires SameSession(p.entries[i].session, t) && (op.OpCompleteSync? || Grows(p.entries[i].session, t))
    ensures Advances(p, WithSession(p, i, t), op)
  {
  }

  lemma AdmitOpeningAdvances(p: State, o: OpeningSession, op: Op)
    requires o.openingId == p.nextOpening
    ensures Advances(p, AdmitOpening(p, o), op)
  {
  }

  lemma AdmitCreateAdvances(p: State, c: CreateOpening, op: Op)
    requires c.openingId == p.nextOpening
    ensures Advances(p, AdmitCreate(p, c), op)
  {
  }

  lemma FreezeAdvances(p: State, i: InodeId, op: Op)
    requires i in p.entries && p.entries[i].Active?
    ensures Advances(p, Freeze(p, i), op)
  {
  }

  lemma PinAdvances(p: State, g: PublicationGuard, op: Op)
    requires g.session.inode in p.entries && p.entries[g.session.inode].Active?
    ensures Advances(p, Pin(p, g), op)
  {
  }

  lemma ShrunkSelf(p: State)
    ensures Shrunk(p, p)
  {
  }

  lemma BeginSessionAdvances(cfg: Limits, p: State, input: BeginSessionInput, now: nat, op: Op)
    ensures Advances(p, BeginSession(cfg, p, input, now).0, op)
  {
    hide Advances, Tidy, AdmitOpening, Shrunk, ChainValid, PathHeld, GlobalFull, ClientFull;
    var h := Tidy(p, input.inode, now);
    TidyShrinks(p, input.inode, now);
    ShrunkSelf(p);
    ShrunkAdvances(p, p, op);
    ShrunkAdvances(p, h, op);
    var o := OpeningFor(cfg, input, h.nextOpening, now);
    AdmitOpeningAdvances(h, o, op);
    AdvancesAfterShrink(p, h, AdmitOpening(h, o), op);
  }

  lemma BeginCreateAdvances(cfg: Limits, p: State, input: BeginCreateInput, now: nat, op: Op)
    ensures Advances(p, BeginCreate(cfg, p, input, now).0, op)
  {
    hide Advances, Sweep, AdmitCreate, Shrunk, ParentChainValid, ReplayHeld, CreateRefusal, ReplayCreate,
         RetireOperation;
    var h := Sweep(RetireOperation(p, input.operation, now), now, SWEEP_BUDGET);
    RetireOperationShrinks(p, input.operation, now);
    SweepShrinks(RetireOperation(p, input.operation, now), now, SWEEP_BUDGET);
    ShrunkTwice(p, RetireOperation(p, input.operation, now), h);
    ShrunkSelf(p);
    ShrunkAdvances(p, p, op);
    ShrunkAdvances(p, h, op);
    var c := CreateFor(cfg, input, h.nextOpening, now);
    AdmitCreateAdvances(h, c, op);
    AdvancesAfterShrink(p, h, AdmitCreate(h, c), op);
  }

  lemma RetireOperationShrinks(p: State, o: OpId, now: nat)
    ensures Shrunk(p, RetireOperation(p, o, now))
  {
  }

  lemma WithoutAdvances(p: State, i: InodeId, o: OpId, op: Op)
    ensures Advances(p, p, op)
    ensures Advances(p, WithoutEntry(p, i), op)
    ensures Advances(p, WithoutCreate(p, o), op)
  {
    hide Advances;
    ShrunkAdvances(p, p, op);
    ShrunkAdvances(p, WithoutEntry(p, i), op);
    ShrunkAdvances(p, WithoutCreate(p, o), op);
  }

  lemma FinishOpeningAdvances(cfg: Limits, p: State, g: OpeningGuard, epoch: LeaseEpoch, now: nat,
                              file: Inode.FileData, tail: Option<LocatedBlock>, op: Op)
    requires Activates(op, g.inode, epoch)
    ensures Advances(p, FinishOpening(cfg, p, g, epoch, now, file, tail).0, op)
  {
    WithoutAdvances(p, g.inode, OpId(0, 0), op);
    if OpeningCurrent(p, g.inode, g.openingId) && p.entries[g.inode].opening.proposedEpoch == epoch {
      OpeningActivates(p, g.inode, SessionFor(p.entries[g.inode].opening, file, tail), op);
    }
    hide Advances, Outstanding, WithSession, WithoutEntry, FileMatches;
  }

  lemma OpeningActivates(p: State, i: InodeId, t: WriteSession, op: Op)
    requires i in p.entries && Activates(op, i, t.epoch) && t.publication.None?
    ensures Advances(p, WithSession(p, i, t), op)
  {
  }

  lemma FinishCreateAdvances(p: State, g: CreateGuard, i: InodeId, epoch: LeaseEpoch, expiresAt: nat,
                             layout: FileLayout, generation: Generation, now: nat, op: Op)
    requires Activates(op, i, epoch)
    ensures Advances(p, FinishCreate(p, g, i, epoch, expiresAt, layout, generation, now).0, op)
  {
    WithoutAdvances(p, i, g.operation, op);
    if g.operation in p.creates {
      CreateActivates(p, g.operation, i, CreatedSession(p.creates[g.operation], i, epoch, expiresAt, layout, generation), op);
    }
    hide Advances, WithSession, WithoutCreate, ChainValid, CreatedSession;
  }

  lemma CreateActivates(p: State, o: OpId, i: InodeId, t: WriteSession, op: Op)
    requires Activates(op, i, t.epoch) && t.publication.None?
    ensures Advances(p, WithSession(WithoutCreate(p, o), i, t), op)
  {
  }

  lemma TidyAdvances(p: State, i: InodeId, now: nat, op: Op)
    ensures Advances(p, Tidy(p, i, now), op)
  {
    hide Advances, Tidy, Shrunk;
    TidyShrinks(p, i, now);
    ShrunkAdvances(p, Tidy(p, i, now), op);
  }

  /** Cleanup followed by an update of one session. */
  lemma TidyUpdateAdvances(p: State, i: InodeId, now: nat, t: WriteSession, op: Op)
    requires var q := Tidy(p, i, now); i in q.entries && q.entries[i].Active? && t.epoch == q.entries[i].session.epoch
    requires t.publication.None? || t.publication == Tidy(p, i, now).entries[i].session.publication
    requires SameSession(Tidy(p, i, now).entries[i].session, t)
    requires op.OpCompleteSync? || Grows(Tidy(p, i, now).entries[i].session, t)
    ensures Advances(p, WithSession(Tidy(p, i, now), i, t), op)
  {
    hide Advances, Tidy, Shrunk;
    TidyShrinks(p, i, now);
    UpdateAdvances(Tidy(p, i, now), i, t, op);
    AdvancesAfterShrink(p, Tidy(p, i, now), WithSession(Tidy(p, i, now), i, t), op);
  }

  lemma BeginAllocateAdvances(cfg: Limits, p: State, i: InodeId, epoch: LeaseEpoch, previous: Option<BlockId>, now: nat,
                              op: Op)
    ensures Advances(p, BeginAllocate(cfg, p, i, epoch, previous, now).0, op)
  {
    hide Advances, Tidy, Outstanding, AllocateRefusal, NextOffset, WithSession;
    TidyAdvances(p, i, now, op);
    if SessionCurrent(Tidy(p, i, now), i, epoch) {
      TidyUpdateAdvances(p, i, now, Reserved(Tidy(p, i, now).entries[i].session, previous), op);
    }
  }

  lemma CompleteTargetAdvances(cfg: Limits, p: State, i: InodeId, epoch: LeaseEpoch, pending: Pending,
                               target: LocatedBlock, now: nat, op: Op)
    requires Inv(cfg, p)
    ensures Advances(p, CompleteTarget(p, i, epoch, pending, target, now).0, op)
  {
    hide Inv, Advances, Tidy, TargetValid, WithSession;
    TidyAdvances(p, i, now, op);
    TidyKeeps(cfg, p, i, now);
    if ReservationCurrent(Tidy(p, i, now), i, epoch, pending) {
      var s := Tidy(p, i, now).entries[i].session;
      EntryHolds(cfg, Tidy(p, i, now), i);
      TidyUpdateAdvances(p, i, now, WithTarget(s, pending, target), op);
      TidyUpdateAdvances(p, i, now, s.(pending := None), op);
    }
  }

  lemma BeginPublicationAdvances(p: State, i: InodeId, epoch: LeaseEpoch, now: nat, op: Op)
    ensures Advances(p, BeginPublication(p, i, epoch, now).0, op)
  {
    hide Advances, Tidy, Freeze, Shrunk;
    var q := Tidy(p, i, now);
    TidyAdvances(p, i, now, op);
    if SessionCurrent(q, i, epoch) {
      TidyShrinks(p, i, now);
      FreezeAdvances(q, i, op);
      AdvancesAfterShrink(p, q, Freeze(q, i), op);
    }
  }

  lemma CompleteSyncAdvances(p: State, g: PublicationGuard, generation: Generation, size: nat, now: nat, op: Op)
    requires op.OpCompleteSync?
    ensures Advances(p, CompleteSync(p, g, generation, size, now).0, op)
  {
    hide Advances, Tidy, WithSession, Retained;
    var i := g.session.inode;
    var q := Tidy(p, i, now);
    TidyAdvances(p, i, now, op);
    if PublicationCurrent(q, i, g.session.epoch, g.id) {
      var s := q.entries[i].session;
      TidyUpdateAdvances(p, i, now, s.(publication := None), op);
      if SyncResult(s, generation, size).Ok? {
        TidyUpdateAdvances(p, i, now, SyncResult(s, generation, size).value, op);
      }
    }
  }

  lemma OwnerAdvances(p: State, g: PublicationGuard, now: nat, op: Op)
    ensures Advances(p, Revalidate(p, g, now).0, op)
    ensures Advances(p, MarkSubmitted(p, g, now).0, op)
    ensures Advances(p, DropPublication(p, g), op)
    ensures Advances(p, CompleteCommit(p, g), op)
  {
    hide Advances, Tidy, WithSession, WithoutEntry, Pin;
    var i := g.session.inode;
    TidyAdvances(p, i, now, op);
    WithoutAdvances(p, i, OpId(0, 0), op);
    if PublicationCurrent(p, i, g.session.epoch, g.id) {
      UpdateAdvances(p, i, p.entries[i].session.(publication := None), op);
      PinAdvances(p, g, op);
    }
  }

  lemma RenewAdvances(cfg: Limits, p: State, i: InodeId, epoch: LeaseEpoch, client: ClientId, now: nat, op: Op)
    ensures Advances(p, ValidateSession(p, i, epoch, now).0, op)
    ensures Advances(p, RenewSession(cfg, p, i, epoch, client, now).0, op)
  {
    hide Advances, Sweep, WithSession, ValidateSession, Shrunk;
    var q := ValidateSession(p, i, epoch, now).0;
    ValidatedPresent(p, i, epoch, now);
    ValidateShrinks(p, i, epoch, now);
    ShrunkAdvances(p, q, op);
    var r := RenewSession(cfg, p, i, epoch, client, now).1;
    if r.Ok? {
      var t := q.entries[i].session.(expiresAt := r.value);
      UpdateAdvances(q, i, t, op);
      AdvancesAfterShrink(p, q, WithSession(q, i, t), op);
    }
  }

  lemma ValidateShrinks(p: State, i: InodeId, epoch: LeaseEpoch, now: nat)
    ensures Shrunk(p, ValidateSession(p, i, epoch, now).0)
  {
    SweepShrinks(p, now, SWEEP_BUDGET);
  }

  /** No operation brings back anything a stale guard could name. */
  lemma StepAdvances(cfg: Limits, p: State, op: Op)
    requires Inv(cfg, p)
    ensures Advances(p, Step(cfg, p, op), op)
  {
    hide Inv, Advances, BeginSession, BeginCreate, FinishOpening, FinishCreate, BeginAllocate, CompleteTarget,
         BeginPublication, Revalidate, MarkSubmitted, CompleteSync, CompleteCommit, DropPublication, ValidateSession,
         RenewSession, Sweep, Tidy, WithoutEntry, WithoutCreate, WithSession;
    WithoutAdvances(p, 0, OpId(0, 0), op);
    match op
    case OpBeginSession(input, now) => BeginSessionAdvances(cfg, p, input, now, op);
    case OpBeginCreate(input, now) => BeginCreateAdvances(cfg, p, input, now, op);
    case OpFinishOpening(g, epoch, now, file, tail) => FinishOpeningAdvances(cfg, p, g, epoch, now, file, tail, op);
    case OpDropOpening(g) => WithoutAdvances(p, g.inode, OpId(0, 0), op);
    case OpFinishCreate(g, i, epoch, expiresAt, layout, generation, now) =>
      FinishCreateAdvances(p, g, i, epoch, expiresAt, layout, generation, now, op);
    case OpDropCreate(g) => WithoutAdvances(p, 0, g.operation, op);
    case OpBeginAllocate(i, epoch, previous, now) => BeginAllocateAdvances(cfg, p, i, epoch, previous, now, op);
    case OpCompleteTarget(i, epoch, pending, target, now) =>
      CompleteTargetAdvances(cfg, p, i, epoch, pending, target, now, op);
    case OpDropTarget(i, epoch, pending) =>
      if ReservationCurrent(p, i, epoch, pending) {
        UpdateAdvances(p, i, p.entries[i].session.(pending := None), op);
      }
    case OpBeginPublication(i, epoch, now) => BeginPublicationAdvances(p, i, epoch, now, op);
    case OpRevalidate(id, now) => if id in p.guards { OwnerAdvances(p, p.guards[id], now, op); }
    case OpMarkSubmitted(id, now) => if id in p.guards { OwnerAdvances(p, p.guards[id], now, op); }
    case OpCompleteSync(id, generation, size, now) =>
      if id in p.guards { CompleteSyncAdvances(p, p.guards[id], generation, size, now, op); }
    case OpCompleteCommit(id) => if id in p.guards { OwnerAdvances(p, p.guards[id], 0, op); }
    case OpDropPublication(id) => if id in p.guards { OwnerAdvances(p, p.guards[id], 0, op); }
    case OpGetSession(i, now) => TidyAdvances(p, i, now, op);
    case OpRemoveIfEpoch(i, epoch) => WithoutAdvances(p, i, OpId(0, 0), op);
    case OpValidate(i, epoch, now) => RenewAdvances(cfg, p, i, epoch, 0, now, op);
    case OpRenew(i, epoch, client, now) => RenewAdvances(cfg, p, i, epoch, client, now, op);
    case OpSweep(now) => SweepShrinks(p, now, SWEEP_BUDGET); ShrunkAdvances(p, Sweep(p, now, SWEEP_BUDGET), op);
  }

  // ---- Stale for the rest of the run ------------------------------------------

  /** The opening was issued and is gone: expired, activated, cancelled or replaced. */
  ghost predicate OpeningStale(p: State, g: OpeningGuard) {
    g.openingId < p.nextOpening && !OpeningCurrent(p, g.inode, g.openingId)
  }

  ghost predicate CreateStale(p: State, g: CreateGuard) {
    g.openingId < p.nextOpening && !CreateCurrent(p, g.operation, g.openingId)
  }

  ghost predicate PublicationStale(p: State, g: PublicationGuard) {
    g.id < p.nextPublication && !PublicationCurrent(p, g.session.inode, g.session.epoch, g.id)
  }

  lemma {:induction false} StaleStaysStale(cfg: Limits, p: State, ops: seq<Op>, o: OpeningGuard, c: CreateGuard,
                                           g: PublicationGuard)
    requires Inv(cfg, p)
    ensures var q := Run(cfg, p, ops);
            && p.nextOpening <= q.nextOpening && p.nextPublication <= q.nextPublication
            && (OpeningStale(p, o) ==> OpeningStale(q, o))
            && (CreateStale(p, c) ==> CreateStale(q, c))
            && (PublicationStale(p, g) ==> PublicationStale(q, g))
  {
    hide Inv, Step;
    if ops != [] {
      var q := Run(cfg, p, ops[..|ops| - 1]);
      RunKeeps(cfg, p, ops[..|ops| - 1]);
      StaleStaysStale(cfg, p, ops[..|ops| - 1], o, c, g);
      StepAdvances(cfg, q, ops[|ops| - 1]);
    }
  }

  /** Whatever happens after an opening is gone, even a replacement of the same inode that
      proposes the same epoch, completing or dropping its guard changes nothing. */
  lemma StaleOpeningIsInert(cfg: Limits, p: State, ops: seq<Op>, g: OpeningGuard, epoch: LeaseEpoch, now: nat,
                            file: Inode.FileData, tail: Option<LocatedBlock>)
    requires Inv(cfg, p) && OpeningStale(p, g)
    ensures var q := Run(cfg, p, ops);
            && FinishOpening(cfg, q, g, epoch, now, file, tail) == (q, Err(NotCurrent))
            && CancelOpening(q, g.inode, g.openingId) == q
  {
    hide Inv, Run;
    StaleStaysStale(cfg, p, ops, g, CreateGuard(OpId(0, 0), 0, 0), PublicationGuard(ANY, 0, false));
  }

  lemma StaleCreateIsInert(cfg: Limits, p: State, ops: seq<Op>, g: CreateGuard, i: InodeId, epoch: LeaseEpoch,
                           expiresAt: nat, layout: FileLayout, generation: Generation, now: nat)
    requires Inv(cfg, p) && CreateStale(p, g)
    ensures var q := Run(cfg, p, ops);
            && FinishCreate(q, g, i, epoch, expiresAt, layout, generation, now) == (q, Err(NotCurrent))
            && CancelCreate(q, g.operation, g.openingId) == q
  {
    hide Inv, Run;
    StaleStaysStale(cfg, p, ops, OpeningGuard(0, 0, 0), g, PublicationGuard(ANY, 0, false));
  }

  /** A publication whose session moved on can neither commit, cancel, pin nor sync another:
      completing it only performs the cleanup that any lookup of its inode performs. */
  lemma StalePublicationIsInert(cfg: Limits, p: State, ops: seq<Op>, g: PublicationGuard, generation: Generation,
                                size: nat, now: nat)
    requires Inv(cfg, p) && PublicationStale(p, g)
    ensures var q := Run(cfg, p, ops);
            && CompleteCommit(q, g) == q
            && DropPublication(q, g) == q
            && MarkSubmitted(q, g, now).0 == q
            && CompleteSync(q, g, generation, size, now) == (Tidy(q, g.session.inode, now), Err(PublicationNotCurrent))
  {
    hide Inv, Run, Tidy, Shrunk, WithSession;
    StaleStaysStale(cfg, p, ops, OpeningGuard(0, 0, 0), CreateGuard(OpId(0, 0), 0, 0), g);
    var q := Run(cfg, p, ops);
    TidyAdvances(q, g.session.inode, now, OpSweep(0));
  }

  /** The operation activates a session of `epoch` at `i`, and succeeds. */
  ghost predicate ActivatesNow(cfg: Limits, p: State, op: Op, i: InodeId, epoch: LeaseEpoch) {
    Activates(op, i, epoch) &&
    match op
    case OpFinishOpening(g, e, now, file, tail) => FinishOpening(cfg, p, g, e, now, file, tail).1.Ok?
    case OpFinishCreate(g, j, e, expiresAt, layout, generation, now) =>
      FinishCreate(p, g, j, e, expiresAt, layout, generation, now).1.Ok?
    case _ => false
  }

  /** A finish makes a session current that was not exactly when it succeeds. */
  lemma FinishActivatesExact(cfg: Limits, p: State, op: Op, i: InodeId, epoch: LeaseEpoch)
    requires Activates(op, i, epoch) && !SessionCurrent(p, i, epoch)
    ensures SessionCurrent(Step(cfg, p, op), i, epoch) <==> ActivatesNow(cfg, p, op, i, epoch)
  {
    hide Outstanding, ChainValid, FileMatches;
  }

  /** A session that is not current becomes so exactly by a successful activation of its epoch. */
  lemma ActivationExact(cfg: Limits, p: State, op: Op, i: InodeId, epoch: LeaseEpoch)
    requires Inv(cfg, p) && !SessionCurrent(p, i, epoch)
    ensures SessionCurrent(Step(cfg, p, op), i, epoch) <==> ActivatesNow(cfg, p, op, i, epoch)
  {
    hide Inv, Step, FinishOpening, FinishCreate;
    if Activates(op, i, epoch) {
      FinishActivatesExact(cfg, p, op, i, epoch);
    } else {
      StepAdvances(cfg, p, op);
    }
  }

  /** No operation of the run succeeds in activating `epoch` at `i`, in the state it meets. */
  ghost predicate NeverActivated(cfg: Limits, p: State, ops: seq<Op>, i: InodeId, epoch: LeaseEpoch) {
    forall k :: 0 <= k < |ops| ==> !ActivatesNow(cfg, Run(cfg, p, ops[..k]), ops[k], i, epoch)
  }

  /** Once the session of a reservation is gone, and as long as its epoch is not activated
      again for the inode, completing or dropping the reservation changes nothing more than
      that cleanup. Durable epochs only increase, so it never is. */
  lemma StaleReservationIsInert(cfg: Limits, p: State, ops: seq<Op>, i: InodeId, epoch: LeaseEpoch, pending: Pending,
                                target: LocatedBlock, now: nat)
    requires Inv(cfg, p) && !SessionCurrent(p, i, epoch)
    requires NeverActivated(cfg, p, ops, i, epoch)
    ensures var q := Run(cfg, p, ops);
            && CancelTarget(q, i, epoch, pending) == q
            && CompleteTarget(q, i, epoch, pending, target, now) == (Tidy(q, i, now), Err(TargetNotCurrent))
  {
    hide Inv, Run, Tidy, NeverActivated;
    EndedSessionStaysEnded(cfg, p, ops, i, epoch);
    TidyAdvances(Run(cfg, p, ops), i, now, OpSweep(0));
  }

  lemma {:induction false} EndedSessionStaysEnded(cfg: Limits, p: State, ops: seq<Op>, i: InodeId, epoch: LeaseEpoch)
    requires Inv(cfg, p) && !SessionCurrent(p, i, epoch)
    requires NeverActivated(cfg, p, ops, i, epoch)
    ensures !SessionCurrent(Run(cfg, p, ops), i, epoch)
  {
    hide Inv, Step, ActivatesNow, SessionCurrent;
    if ops != [] {
      var init, n := ops[..|ops| - 1], |ops| - 1;
      assert forall k :: 0 <= k < n ==> init[..k] == ops[..k];
      RunKeeps(cfg, p, init);
      EndedSessionStaysEnded(cfg, p, init, i, epoch);
      ActivationExact(cfg, Run(cfg, p, init), ops[n], i, epoch);
    }
  }

  // ---- Stable replay ----------------------------------------------------------

  /** AllocateBlock after `b` was answered with `t` in the session of `epoch` at `i`. */
  predicate Issued(p: State, i: InodeId, epoch: LeaseEpoch, b: Option<BlockId>, t: LocatedBlock) {
    && SessionCurrent(p, i, epoch)
    && var s := p.entries[i].session;
       b in s.steps && s.steps[b] < |s.issued| && s.issued[s.steps[b]] == t
  }

  /** A completed reservation, the first of a session included, answers its own step: a retry of
      that AllocateBlock is given the target just completed, while the session lives. */
  lemma CompletedTargetReplays(cfg: Limits, p: State, i: InodeId, epoch: LeaseEpoch, pending: Pending,
                               target: LocatedBlock, now: nat, later: nat)
    requires CompleteTarget(p, i, epoch, pending, target, now).1.Ok?
    ensures var q := CompleteTarget(p, i, epoch, pending, target, now).0;
            && Issued(q, i, epoch, pending.previous, target)
            && (SessionCurrent(Tidy(q, i, later), i, epoch) ==>
                  BeginAllocate(cfg, q, i, epoch, pending.previous, later).1 == Ok(TargetReplayed(target)))
  {
    hide Tidy, TargetValid, Outstanding, AllocateRefusal;
    TidyShrinks(CompleteTarget(p, i, epoch, pending, target, now).0, i, later);
  }

  /** Until a reservation is completed no step of an opened session is answered: a reopened tail
      is no target that a first AllocateBlock could be given again. */
  lemma NothingReplaysYet(cfg: Limits, p: State, i: InodeId, epoch: LeaseEpoch, previous: Option<BlockId>, now: nat,
                          o: OpeningSession, file: Inode.FileData, tail: Option<LocatedBlock>)
    requires SessionCurrent(Tidy(p, i, now), i, epoch)
    requires Tidy(p, i, now).entries[i].session == SessionFor(o, file, tail)
    ensures var r := BeginAllocate(cfg, p, i, epoch, previous, now).1; r.Ok? ==> r.value.TargetReserved?
  {
    hide Tidy, Outstanding, AllocateRefusal;
  }

  /** The operation completes a SyncWrite of new content that ends at or before the start of `t`. A
      SyncWrite that fails, or of content already known, retracts nothing. */
  ghost predicate Retracts(p: State, op: Op, i: InodeId, t: LocatedBlock) {
    && op.OpCompleteSync? && op.id in p.guards && p.guards[op.id].session.inode == i && op.size <= t.fileOffset
    && CompleteSync(p, p.guards[op.id], op.generation, op.size, op.now).1.Ok?
    && i in p.entries && p.entries[i].Active? && p.entries[i].session.generation != op.generation
  }

  /** A completed SyncWrite forgets an answered step exactly when it retracts its target. */
  lemma SyncKeepsIssued(cfg: Limits, p: State, id: nat, generation: Generation, size: nat, now: nat,
                        i: InodeId, epoch: LeaseEpoch, b: Option<BlockId>, t: LocatedBlock)
    requires Inv(cfg, p) && Issued(p, i, epoch, b, t) && id in p.guards
    requires SessionCurrent(CompleteSync(p, p.guards[id], generation, size, now).0, i, epoch)
    ensures Issued(CompleteSync(p, p.guards[id], generation, size, now).0, i, epoch, b, t)
            <==> !Retracts(p, OpCompleteSync(id, generation, size, now), i, t)
  {
    hide Inv, Tidy, Retained, Contiguous, StepsFollowChain;
    var g := p.guards[id];
    TidyShrinks(p, g.session.inode, now);
    if CompleteSync(p, g, generation, size, now).1.Ok? {
      SyncRetiresExactSuffix(cfg, p, g, generation, size, now);
    }
  }

  lemma ActivationLeavesActive(cfg: Limits, p: State, op: Op, i: InodeId, epoch: LeaseEpoch)
    requires SessionCurrent(p, i, epoch) && Activates(op, i, epoch)
    ensures var q := Step(cfg, p, op); i in q.entries && q.entries[i] == p.entries[i]
  {
    hide Outstanding, ChainValid;
  }

  /** One operation keeps an answered step answered, while its session lives, exactly unless it
      retracts the target. */
  lemma StepKeepsIssued(cfg: Limits, p: State, op: Op, i: InodeId, epoch: LeaseEpoch, b: Option<BlockId>, t: LocatedBlock)
    requires Inv(cfg, p) && Issued(p, i, epoch, b, t)
    requires SessionCurrent(Step(cfg, p, op), i, epoch)
    ensures Issued(Step(cfg, p, op), i, epoch, b, t) <==> !Retracts(p, op, i, t)
  {
    hide Inv, BeginSession, BeginCreate, FinishOpening, FinishCreate, BeginAllocate, CompleteTarget,
         BeginPublication, Revalidate, MarkSubmitted, CompleteSync, CompleteCommit, DropPublication, ValidateSession,
         RenewSession, Sweep, Tidy, WithoutEntry, WithoutCreate, WithSession;
    if Activates(op, i, epoch) {
      ActivationLeavesActive(cfg, p, op, i, epoch);
    } else if op.OpCompleteSync? {
      if op.id in p.guards {
        SyncKeepsIssued(cfg, p, op.id, op.generation, op.size, op.now, i, epoch, b, t);
      }
    } else {
      StepAdvances(cfg, p, op);
      assert Continues(p, Step(cfg, p, op), op, i, epoch);
    }
  }

  /** Along a run in which its session lives and no SyncWrite retracts it, an issued target
      is what every retry of its AllocateBlock step is answered with. */
  lemma {:induction false} RunKeepsIssued(cfg: Limits, p: State, ops: seq<Op>, i: InodeId, epoch: LeaseEpoch,
                                          b: Option<BlockId>, t: LocatedBlock)
    requires Inv(cfg, p) && Issued(p, i, epoch, b, t)
    requires forall k :: 0 <= k <= |ops| ==> SessionCurrent(Run(cfg, p, ops[..k]), i, epoch)
    requires forall k :: 0 <= k < |ops| ==> !Retracts(Run(cfg, p, ops[..k]), ops[k], i, t)
    ensures Issued(Run(cfg, p, ops), i, epoch, b, t)
  {
    hide Inv, Step, Issued, Retracts, SessionCurrent;
    if ops != [] {
      var init, n := ops[..|ops| - 1], |ops| - 1;
      assert forall k :: 0 <= k <= n ==> init[..k] == ops[..k];
      RunKeepsIssued(cfg, p, init, i, epoch, b, t);
      RunKeeps(cfg, p, init);
      assert ops[..|ops|] == ops;
      StepKeepsIssued(cfg, Run(cfg, p, init), ops[n], i, epoch, b, t);
    }
  }

  // ---- Rollback ---------------------------------------------------------------

  /** A failed activation releases its opening exactly unless it failed on the file: a
      not-current result disarms the guard, and a file or layout mismatch reports that while
      the opening is still installed. */
  lemma FailedActivationReleases(cfg: Limits, p: State, g: OpeningGuard, epoch: LeaseEpoch, now: nat,
                                 file: Inode.FileData, tail: Option<LocatedBlock>)
    requires OpeningCurrent(p, g.inode, g.openingId)
    requires FinishOpening(cfg, p, g, epoch, now, file, tail).1.Err?
    ensures var o := p.entries[g.inode].opening;
            var q := FinishOpening(cfg, p, g, epoch, now, file, tail).0;
            && (OpeningCurrent(q, g.inode, g.openingId) <==>
                  o.expiresAt > now && o.proposedEpoch == epoch && !FileMatches(o, file))
            && (!OpeningCurrent(q, g.inode, g.openingId) ==> q == WithoutEntry(p, g.inode))
  {
    hide Outstanding;
  }

  /** A failed create activation always releases its reservation. */
  lemma FailedCreationReleases(p: State, g: CreateGuard, i: InodeId, epoch: LeaseEpoch, expiresAt: nat,
                               layout: FileLayout, generation: Generation, now: nat)
    requires CreateCurrent(p, g.operation, g.openingId)
    requires FinishCreate(p, g, i, epoch, expiresAt, layout, generation, now).1.Err?
    ensures FinishCreate(p, g, i, epoch, expiresAt, layout, generation, now).0 == WithoutCreate(p, g.operation)
  {
    hide ChainValid;
  }

  // ---- A stranded opening -------------------------------------------------------

  /** The operation drops that very opening, or finishes it in any way but failing on the file. */
  predicate Frees(o: OpeningSession, op: Op, i: InodeId) {
    && (op.OpFinishOpening? || op.OpDropOpening?) && op.opening.inode == i && op.opening.openingId == o.openingId
    && (op.OpFinishOpening? ==> op.epoch != o.proposedEpoch || FileMatches(o, op.file))
  }

  /** The operation looks at no clock, or at one before `t`. */
  predicate Before(op: Op, t: nat) {
    || op.OpDropOpening? || op.OpDropCreate? || op.OpDropTarget?
    || op.OpCompleteCommit? || op.OpDropPublication? || op.OpRemoveIfEpoch?
    || op.now < t
  }

  predicate StillOpening(p: State, q: State, i: InodeId) {
    i in p.entries && p.entries[i].Opening? && i in q.entries && q.entries[i] == p.entries[i]
  }

  lemma OpeningsSpareOpening(cfg: Limits, p: State, op: Op, i: InodeId)
    requires i in p.entries && p.entries[i].Opening?
    requires Before(op, p.entries[i].opening.expiresAt)
    requires op.OpBeginSession? || op.OpBeginCreate? || op.OpFinishOpening? || op.OpDropOpening?
             || op.OpFinishCreate? || op.OpDropCreate?
    ensures StillOpening(p, Step(cfg, p, op), i) <==> !Frees(p.entries[i].opening, op, i)
  {
    hide Sweep, Tidy, ChainValid, ParentChainValid, PathHeld, GlobalFull, ClientFull, Outstanding, ReplayHeld,
         CreateRefusal, ReplayCreate, FileMatches;
    match op
    case OpBeginSession(input, now) => TidySparesLive(p, input.inode, now, i);
    case OpBeginCreate(input, now) =>
      SweepSparesLive(RetireOperation(p, input.operation, now), now, SWEEP_BUDGET, i);
    case _ =>
  }

  lemma TargetsSpareOpening(cfg: Limits, p: State, op: Op, i: InodeId)
    requires i in p.entries && p.entries[i].Opening? && Before(op, p.entries[i].opening.expiresAt)
    requires op.OpBeginAllocate? || op.OpCompleteTarget? || op.OpDropTarget? || op.OpBeginPublication?
    ensures StillOpening(p, Step(cfg, p, op), i)
  {
    hide Tidy, Outstanding, NextOffset, TargetValid;
    match op
    case OpBeginAllocate(j, epoch, previous, now) => TidySparesLive(p, j, now, i);
    case OpCompleteTarget(j, epoch, pending, target, now) => TidySparesLive(p, j, now, i);
    case OpBeginPublication(j, epoch, now) => TidySparesLive(p, j, now, i);
    case _ =>
  }

  lemma LookupsSpareOpening(cfg: Limits, p: State, op: Op, i: InodeId)
    requires i in p.entries && p.entries[i].Opening? && Before(op, p.entries[i].opening.expiresAt)
    requires op.OpGetSession? || op.OpSweep? || op.OpValidate? || op.OpRenew? || op.OpRemoveIfEpoch?
    ensures StillOpening(p, Step(cfg, p, op), i)
  {
    hide Tidy, Sweep;
    match op
    case OpGetSession(j, now) => TidySparesLive(p, j, now, i);
    case OpSweep(now) => SweepSparesLive(p, now, SWEEP_BUDGET, i);
    case OpValidate(j, epoch, now) => SweepSparesLive(p, now, SWEEP_BUDGET, i);
    case OpRenew(j, epoch, client, now) => SweepSparesLive(p, now, SWEEP_BUDGET, i);
    case OpRemoveIfEpoch(j, epoch) =>
  }

  lemma OwnersSpareOpening(cfg: Limits, p: State, op: Op, i: InodeId)
    requires i in p.entries && p.entries[i].Opening? && Before(op, p.entries[i].opening.expiresAt)
    requires op.OpRevalidate? || op.OpMarkSubmitted? || op.OpCompleteSync? || op.OpCompleteCommit? || op.OpDropPublication?
    ensures StillOpening(p, Step(cfg, p, op), i)
  {
    hide Tidy, SyncResult;
    if op.id in p.guards && (op.OpRevalidate? || op.OpMarkSubmitted? || op.OpCompleteSync?) {
      TidySparesLive(p, p.guards[op.id].session.inode, op.now, i);
    }
  }

  /** Before its expiry an operation leaves an opening as it is exactly unless it frees it. */
  lemma StepSparesOpening(cfg: Limits, p: State, op: Op, i: InodeId)
    requires i in p.entries && p.entries[i].Opening? && Before(op, p.entries[i].opening.expiresAt)
    ensures StillOpening(p, Step(cfg, p, op), i) <==> !Frees(p.entries[i].opening, op, i)
  {
    hide Step;
    if op.OpBeginSession? || op.OpBeginCreate? || op.OpFinishOpening? || op.OpDropOpening?
       || op.OpFinishCreate? || op.OpDropCreate? {
      OpeningsSpareOpening(cfg, p, op, i);
    } else if op.OpBeginAllocate? || op.OpCompleteTarget? || op.OpDropTarget? || op.OpBeginPublication? {
      TargetsSpareOpening(cfg, p, op, i);
    } else if op.OpGetSession? || op.OpSweep? || op.OpValidate? || op.OpRenew? || op.OpRemoveIfEpoch? {
      LookupsSpareOpening(cfg, p, op, i);
    } else {
      OwnersSpareOpening(cfg, p, op, i);
    }
  }

  /** Along a run in which no operation frees it, an opening stays until its expiry. */
  lemma {:induction false} RunSparesOpening(cfg: Limits, p: State, ops: seq<Op>, i: InodeId)
    requires i in p.entries && p.entries[i].Opening?
    requires forall k :: 0 <= k < |ops| ==>
               !Frees(p.entries[i].opening, ops[k], i) && Before(ops[k], p.entries[i].opening.expiresAt)
    ensures StillOpening(p, Run(cfg, p, ops), i)
  {
    hide Step;
    if ops != [] {
      RunSparesOpening(cfg, p, ops[..|ops| - 1], i);
      StepSparesOpening(cfg, Run(cfg, p, ops[..|ops| - 1]), ops[|ops| - 1], i);
    }
  }

  /** An activation that fails on the file consumes its guard and leaves the opening installed:
      with nobody left to finish or drop it, it stays through every run before its expiry, and
      the first clean-up of its inode after that removes it. */
  lemma StrandedUntilExpiry(cfg: Limits, p: State, g: OpeningGuard, epoch: LeaseEpoch, now: nat,
                            file: Inode.FileData, tail: Option<LocatedBlock>, ops: seq<Op>, later: nat)
    requires OpeningCurrent(p, g.inode, g.openingId)
    requires var o := p.entries[g.inode].opening;
             && o.expiresAt > now && o.proposedEpoch == epoch && !FileMatches(o, file)
             && (forall k :: 0 <= k < |ops| ==> !Frees(o, ops[k], g.inode) && Before(ops[k], o.expiresAt))
             && later >= o.expiresAt
    ensures var (q, r) := FinishOpening(cfg, p, g, epoch, now, file, tail);
            && r == Err(NotCurrent)
            && OpeningCurrent(Run(cfg, q, ops), g.inode, g.openingId)
            && g.inode !in Tidy(Run(cfg, q, ops), g.inode, later).entries
  {
    hide Run, Sweep;
    var q := FinishOpening(cfg, p, g, epoch, now, file, tail).0;
    assert q == p;
    RunSparesOpening(cfg, q, ops, g.inode);
    SweepShrinks(RetireInode(Run(cfg, q, ops), g.inode, later), later, SWEEP_BUDGET);
  }

  /** A first opening of a valid request is admitted. */
  lemma FirstOpening(cfg: Limits, input: BeginSessionInput, now: nat)
    requires LimitsValid(cfg) && ChainValid(input.inode, input.ancestors) && CheckedNext(input.currentEpoch).Some?
    ensures BeginSession(cfg, EMPTY, input, now) ==
            (AdmitOpening(EMPTY, OpeningFor(cfg, input, 1, now)), Ok(OpeningGuard(input.inode, 1, input.currentEpoch + 1)))
  {
    hide Sweep, ChainValid;
    var q := Tidy(EMPTY, input.inode, now);
    SweepShrinks(RetireInode(EMPTY, input.inode, now), now, SWEEP_BUDGET);
    assert q.entries == map[] && q.creates == map[];
    assert q == EMPTY;
  }

  lemma RunOne(cfg: Limits, p: State, ops: seq<Op>, op: Op)
    ensures Run(cfg, p, ops + [op]) == Step(cfg, Run(cfg, p, ops), op)
  {
    hide Step;
    assert (ops + [op])[..|ops|] == ops;
  }

  const SOME_LAYOUT: FileLayout := FileLayout(16, DURABLE_PREFIX)
  const SOME_INPUT: BeginSessionInput := BeginSessionInput("/f", 1, 7, 4, Append, 9, SOME_LAYOUT, [7])
  const SOME_GUARD: OpeningGuard := OpeningGuard(7, 1, 5)

  /** A run that strands an opening: a session is begun, then activated with a file whose epoch is
      not the proposed one. */
  lemma StrandingRun(cfg: Limits)
    requires LimitsValid(cfg) && cfg.ttl > 0
    ensures var begin := OpBeginSession(SOME_INPUT, 0);
            var finish := OpFinishOpening(SOME_GUARD, 5, 0, Inode.NewFile(SOME_LAYOUT), None);
            OpeningCurrent(Run(cfg, EMPTY, [] + [begin] + [finish]), 7, 1)
  {
    hide Run, BeginSession, FinishOpening, ChainValid;
    var begin := OpBeginSession(SOME_INPUT, 0);
    var finish := OpFinishOpening(SOME_GUARD, 5, 0, Inode.NewFile(SOME_LAYOUT), None);
    var o := OpeningFor(cfg, SOME_INPUT, 1, 0);
    SomeChain();
    FirstOpening(cfg, SOME_INPUT, 0);
    RunNone(cfg, EMPTY);
    RunOne(cfg, EMPTY, [], begin);
    RunOne(cfg, EMPTY, [] + [begin], finish);
    var p := AdmitOpening(EMPTY, o);
    StrandedUntilExpiry(cfg, p, SOME_GUARD, 5, 0, Inode.NewFile(SOME_LAYOUT), None, [], o.expiresAt);
    RunNone(cfg, FinishOpening(cfg, p, SOME_GUARD, 5, 0, Inode.NewFile(SOME_LAYOUT), None).0);
  }

  lemma RunNone(cfg: Limits, p: State)
    ensures Run(cfg, p, []) == p
  {
  }

  lemma SomeChain()
    ensures ChainValid(7, [7])
  {
  }
}
