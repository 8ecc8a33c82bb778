/** What every operation of the write-session registry keeps. */
module SessionInvariant {
  import opened BerylTypes
  import opened MapSums
  import opened SessionSpec
  import Inode

  /** Each issued target starts where the previous one's capacity ends, and every allocated
      one has capacity; only the tail of a reopened file is taken as the caller supplies it. */
  ghost predicate Contiguous(issued: seq<LocatedBlock>) {
    && (forall k {:trigger issued[k]} :: 0 < k < |issued| ==>
          issued[k].fileOffset == issued[k - 1].fileOffset + issued[k - 1].blockSize)
    && (forall k :: 0 < k < |issued| ==> issued[k].blockSize > 0)
  }

  /** The replay index is the predecessor-to-index map of the allocated chain. A reopened
      tail, which no AllocateBlock issued, is the one target that has no step. */
  ghost predicate StepsFollowChain(issued: seq<LocatedBlock>, steps: map<Option<BlockId>, nat>) {
    && (forall b :: b in steps ==> steps[b] < |issued| && b == Predecessor(issued, steps[b]))
    && (forall k {:trigger Predecessor(issued, k)} :: 0 < k < |issued| ==>
          Predecessor(issued, k) in steps && steps[Predecessor(issued, k)] == k)
  }

  /** The target is a whole new block of the session's file, in the shape its layout fixes, and
      carries the session's authority. */
  predicate IssuedTo(s: WriteSession, t: LocatedBlock) {
    && t.blockId.inode == s.inode
    && t.token.blockId == t.blockId && t.token.owner == s.client && t.token.epoch == s.epoch
    && t.format == s.layout.format && t.blockSize == s.layout.blockSize && t.chunkSize == STORAGE_CHUNK_SIZE
    && t.writeOffset == 0
  }

  /** Every allocated target was issued to its session. */
  ghost predicate Fenced(s: WriteSession) {
    forall b {:trigger s.steps[b]} :: b in s.steps && s.steps[b] < |s.issued| ==> IssuedTo(s, s.issued[s.steps[b]])
  }

  ghost predicate SessionOk(cfg: Limits, s: WriteSession) {
    && Contiguous(s.issued)
    && StepsFollowChain(s.issued, s.steps)
    && Fenced(s)
    && (s.pending.Some? ==>
          && s.publication.None?
          && s.pending.value.previous == Predecessor(s.issued, |s.issued|)
          && s.pending.value.previous !in s.steps)
    && (s.submitted ==> s.publication.Some?)
    && |s.issued| + (if s.pending.Some? then 1 else 0) <= cfg.maxPerSession
  }

  ghost predicate EntryOk(cfg: Limits, p: State, i: InodeId) {
    i in p.entries ==>
      var e := p.entries[i];
      && e.Inode() == i
      && ChainValid(i, e.Ancestors())
      && (e.Opening? ==> e.opening.openingId < p.nextOpening)
      && (e.Active? ==> SessionOk(cfg, e.session))
  }

  ghost predicate CreateOk(p: State, o: OpId) {
    o in p.creates ==>
      var c := p.creates[o];
      && c.operation == o
      && c.client == o.client
      && ParentChainValid(c.ancestors)
      && c.openingId < p.nextOpening
  }

  predicate SamePath(a: CreateOpening, b: CreateOpening) {
    a.identity.mount == b.identity.mount && a.identity.path == b.identity.path
  }

  /** Distinct create openings hold distinct paths and identities. */
  ghost predicate CreatesApart(p: State, a: OpId, b: OpId) {
    a in p.creates && b in p.creates && a != b ==>
      !SamePath(p.creates[a], p.creates[b]) && p.creates[a].openingId != p.creates[b].openingId
  }

  /** A replayable operation belongs to one session and is no longer opening. */
  ghost predicate ReplaysApart(p: State, i: InodeId, j: InodeId) {
    i in p.entries && p.entries[i].Replayed().Some? ==>
      && p.entries[i].Replayed().value !in p.creates
      && (j in p.entries && i != j ==> p.entries[i].Replayed() != p.entries[j].Replayed())
  }

  ghost predicate WithinLimits(cfg: Limits, p: State) {
    && |p.entries| + |p.creates| <= cfg.maxSessions
    && (forall c {:trigger ClientCount(p, c)} :: ClientCount(p, c) <= cfg.maxPerClient)
    && Outstanding(p) <= cfg.maxTargets
  }

  /** While its publication is current, a session differs from the frozen snapshot only in
      its lease deadline and in being pinned. */
  ghost predicate Frozen(guards: map<nat, PublicationGuard>, s: WriteSession) {
    s.publication.Some? ==>
      var id := s.publication.value;
      && id in guards
      && guards[id].session == s.(expiresAt := guards[id].session.expiresAt, submitted := false)
      && guards[id].submitted == s.submitted
  }

  ghost predicate FrozenAt(p: State, i: InodeId) {
    i in p.entries && p.entries[i].Active? ==> Frozen(p.guards, p.entries[i].session)
  }

  ghost predicate GuardOk(p: State, id: nat) {
    id in p.guards ==> id < p.nextPublication && p.guards[id].id == id
  }

  ghost predicate Entries(cfg: Limits, p: State) {
    forall i {:trigger EntryOk(cfg, p, i)} :: EntryOk(cfg, p, i)
  }

  ghost predicate Creates(p: State) {
    forall o {:trigger CreateOk(p, o)} :: CreateOk(p, o)
  }

  ghost predicate Exclusive(p: State) {
    && (forall a, b {:trigger CreatesApart(p, a, b)} :: CreatesApart(p, a, b))
    && (forall i, j {:trigger ReplaysApart(p, i, j)} :: ReplaysApart(p, i, j))
  }

  ghost predicate GuardsAgree(p: State) {
    && (forall id {:trigger GuardOk(p, id)} :: GuardOk(p, id))
    && (forall i {:trigger FrozenAt(p, i)} :: FrozenAt(p, i))
  }

  ghost predicate Inv(cfg: Limits, p: State) {
    LimitsValid(cfg) && Entries(cfg, p) && Creates(p) && Exclusive(p) && WithinLimits(cfg, p) && GuardsAgree(p)
  }

  lemma EntryHolds(cfg: Limits, p: State, i: InodeId)
    requires Inv(cfg, p)
    ensures EntryOk(cfg, p, i) && FrozenAt(p, i)
    ensures LimitsValid(cfg) && Outstanding(p) <= cfg.maxTargets
  {
  }

  lemma CreateHolds(cfg: Limits, p: State, o: OpId)
    requires Inv(cfg, p)
    ensures CreateOk(p, o)
  {
  }

  // ---- Shrinking --------------------------------------------------------------

  /** `q` is `p` with some writes retired. */
  ghost predicate Shrunk(p: State, q: State) {
    && Submap(q.entries, p.entries)
    && Submap(q.creates, p.creates)
    && q.nextOpening == p.nextOpening
    && q.nextPublication == p.nextPublication
    && q.guards == p.guards
  }

  lemma ShrinkKeeps(cfg: Limits, p: State, q: State)
    requires Inv(cfg, p) && Shrunk(p, q)
    ensures Inv(cfg, q)
  {
    ShrinkWithinLimits(cfg, p, q);
    forall i ensures EntryOk(cfg, q, i) { assert EntryOk(cfg, p, i); }
    forall o ensures CreateOk(q, o) { assert CreateOk(p, o); }
    forall a, b ensures CreatesApart(q, a, b) { assert CreatesApart(p, a, b); }
    forall i, j ensures ReplaysApart(q, i, j) { assert ReplaysApart(p, i, j); }
    forall id ensures GuardOk(q, id) { assert GuardOk(p, id); }
    forall i ensures FrozenAt(q, i) { assert FrozenAt(p, i); }
  }

  lemma ShrinkWithinLimits(cfg: Limits, p: State, q: State)
    requires WithinLimits(cfg, p) && Shrunk(p, q)
    ensures WithinLimits(cfg, q)
  {
    SubmapSize(q.entries, p.entries);
    SubmapSize(q.creates, p.creates);
    forall c ensures ClientCount(q, c) <= cfg.maxPerClient {
      SumSubmap(q.entries, p.entries, OfClient(c));
      SumSubmap(q.creates, p.creates, CreateOfClient(c));
      assert ClientCount(p, c) <= cfg.maxPerClient;
    }
    SumSubmap(q.entries, p.entries, Targets());
  }

  lemma WithoutEntryKeeps(cfg: Limits, p: State, i: InodeId)
    requires Inv(cfg, p)
    ensures Inv(cfg, WithoutEntry(p, i))
  {
    hide Inv, Shrunk, WithoutEntry;
    WithoutEntryShrinks(p, i);
    ShrinkKeeps(cfg, p, WithoutEntry(p, i));
  }

  lemma WithoutEntryShrinks(p: State, i: InodeId)
    ensures Shrunk(p, WithoutEntry(p, i))
  {
  }

  lemma WithoutCreateKeeps(cfg: Limits, p: State, o: OpId)
    requires Inv(cfg, p)
    ensures Inv(cfg, WithoutCreate(p, o))
  {
    hide Inv, Shrunk, WithoutCreate;
    WithoutCreateShrinks(p, o);
    ShrinkKeeps(cfg, p, WithoutCreate(p, o));
  }

  lemma WithoutCreateShrinks(p: State, o: OpId)
    ensures Shrunk(p, WithoutCreate(p, o))
  {
  }

  lemma {:induction false} SweepShrinks(p: State, now: nat, budget: nat)
    ensures Shrunk(p, Sweep(p, now, budget))
    decreases budget
  {
    hide NextVictim;
    if budget > 0 && !NextVictim(p, now).NoVictim? {
      var next := Retire(p, NextVictim(p, now));
      SweepShrinks(next, now, budget - 1);
      ShrunkTwice(p, next, Sweep(p, now, budget));
    }
  }

  lemma ShrunkTwice(p: State, q: State, r: State)
    requires Shrunk(p, q) && Shrunk(q, r)
    ensures Shrunk(p, r)
  {
  }

  ghost function Size(p: State): nat { |p.entries| + |p.creates| }

  predicate Present(p: State, v: Victim) {
    (v.SessionVictim? && v.i in p.entries) || (v.CreateVictim? && v.o in p.creates)
  }

  function Due(p: State, v: Victim): nat
    requires Present(p, v)
  {
    if v.SessionVictim? then p.entries[v.i].Retirement() else p.creates[v.o].expiresAt
  }

  ghost predicate NothingBefore(p: State, due: nat) {
    forall v {:trigger Present(p, v)} :: Present(p, v) ==> Due(p, v) >= due
  }

  ghost predicate NothingExpired(p: State, now: nat) {
    forall v {:trigger Present(p, v)} :: Present(p, v) ==> Due(p, v) > now
  }

  /** Whatever left between `p` and `q` was due by `now`, and no later than what stayed. */
  ghost predicate RetiredInOrder(p: State, q: State, now: nat) {
    forall v {:trigger Present(p, v), Present(q, v)} :: Present(p, v) && !Present(q, v) ==>
      Due(p, v) <= now && NothingBefore(q, Due(p, v))
  }

  /** `v` is expired and nothing is due before it. */
  ghost predicate Earliest(p: State, v: Victim, now: nat) {
    Present(p, v) && Due(p, v) <= now && NothingBefore(p, Due(p, v))
  }

  /** The next victim is due first; without one nothing is expired. */
  lemma VictimIsEarliest(p: State, now: nat)
    ensures NextVictim(p, now).NoVictim? ==> NothingExpired(p, now)
    ensures !NextVictim(p, now).NoVictim? ==> Earliest(p, NextVictim(p, now), now)
  {
    forall v | Present(p, v)
      ensures v.SessionVictim? ==> (Due(p, v), v.i) in EntryExpiries(p.entries)
      ensures v.CreateVictim? ==> Deadline(p.creates[v.o]) in CreateExpiries(p.creates)
    {
    }
  }

  /** `q` is `p` after a sweep with the given budget. */
  ghost predicate Swept(p: State, q: State, now: nat, budget: nat) {
    && Shrunk(p, q)
    && RetiredInOrder(p, q, now)
    && Size(q) <= Size(p) <= Size(q) + budget
    && (Size(p) < Size(q) + budget ==> NothingExpired(q, now))
  }

  /** A sweep retires at most its budget, earliest expiry first and only expired writes, and
      leaves nothing expired when it stops short of its budget. */
  lemma {:induction false} SweepRetires(p: State, now: nat, budget: nat)
    ensures Swept(p, Sweep(p, now, budget), now, budget)
    decreases budget
  {
    hide Swept, NextVictim;
    VictimIsEarliest(p, now);
    var v := NextVictim(p, now);
    if budget == 0 || v.NoVictim? {
      SweptNone(p, now, budget);
    } else {
      SweepRetires(Retire(p, v), now, budget - 1);
      SweptOnce(p, v, Sweep(Retire(p, v), now, budget - 1), now, budget - 1);
    }
  }

  lemma SweptNone(p: State, now: nat, budget: nat)
    requires budget == 0 || NothingExpired(p, now)
    ensures Swept(p, p, now, budget)
  {
  }

  lemma SweptOnce(p: State, v: Victim, q: State, now: nat, budget: nat)
    requires Earliest(p, v, now) && Swept(Retire(p, v), q, now, budget)
    ensures Swept(p, q, now, budget + 1)
  {
    RetireOne(p, v, now);
    RetiredTwice(p, Retire(p, v), q, now);
  }

  lemma RetireOne(p: State, v: Victim, now: nat)
    requires Earliest(p, v, now)
    ensures Shrunk(p, Retire(p, v)) && RetiredInOrder(p, Retire(p, v), now) && Size(p) == Size(Retire(p, v)) + 1
  {
    match v {
      case SessionVictim(i) => SizeRemove(p.entries, i);
      case CreateVictim(o) => SizeRemove(p.creates, o);
    }
    RetireOnly(p, v);
  }

  lemma RetireOnly(p: State, v: Victim)
    requires Present(p, v)
    ensures Shrunk(p, Retire(p, v))
    ensures forall w :: Present(Retire(p, v), w) ==> Present(p, w) && Due(Retire(p, v), w) == Due(p, w)
    ensures forall w :: Present(p, w) && !Present(Retire(p, v), w) ==> w == v
  {
  }

  lemma RetiredTwice(p: State, q: State, r: State, now: nat)
    requires Shrunk(p, q) && Shrunk(q, r) && RetiredInOrder(p, q, now) && RetiredInOrder(q, r, now)
    ensures Shrunk(p, r) && RetiredInOrder(p, r, now)
  {
    forall v | Present(p, v) && !Present(r, v) ensures Due(p, v) <= now && NothingBefore(r, Due(p, v)) {
      if !Present(q, v) {
        forall w | Present(r, w) ensures Due(r, w) >= Due(p, v) { assert Present(q, w); }
      }
    }
  }

  /** Retiring expired writes cannot change whether anything is active below an inode. */
  lemma SweepKeepsActive(p: State, now: nat, budget: nat, a: InodeId)
    ensures ActiveUnder(Sweep(p, now, budget), a, now) <==> ActiveUnder(p, a, now)
  {
    SweepRetires(p, now, budget);
    var q := Sweep(p, now, budget);
    forall i | i in p.entries && p.entries[i].Retirement() > now ensures i in q.entries {
      assert Present(p, SessionVictim(i)) && (Present(q, SessionVictim(i)) || !Present(q, SessionVictim(i)));
    }
    forall o | o in p.creates && p.creates[o].expiresAt > now ensures o in q.creates {
      assert Present(p, CreateVictim(o)) && (Present(q, CreateVictim(o)) || !Present(q, CreateVictim(o)));
    }
  }

  lemma TidyShrinks(p: State, i: InodeId, now: nat)
    ensures Shrunk(p, Tidy(p, i, now))
  {
    SweepShrinks(RetireInode(p, i, now), now, SWEEP_BUDGET);
  }

  lemma TidyKeeps(cfg: Limits, p: State, i: InodeId, now: nat)
    requires Inv(cfg, p)
    ensures Inv(cfg, Tidy(p, i, now))
  {
    hide Inv;
    TidyShrinks(p, i, now);
    ShrinkKeeps(cfg, p, Tidy(p, i, now));
  }

  lemma SweepKeeps(cfg: Limits, p: State, now: nat, budget: nat)
    requires Inv(cfg, p)
    ensures Inv(cfg, Sweep(p, now, budget))
  {
    hide Inv;
    SweepShrinks(p, now, budget);
    ShrinkKeeps(cfg, p, Sweep(p, now, budget));
  }

  // ---- Single-session updates -------------------------------------------------

  /** Replacing one entry by another of the same owner that fits the target limit. */
  lemma ReplaceKeeps(cfg: Limits, p: State, i: InodeId, t: WriteSession)
    requires Inv(cfg, p)
    requires i in p.entries && SameOwner(p.entries[i], Active(t))
    requires SessionOk(cfg, t) && Frozen(p.guards, t)
    requires Outstanding(p) + Active(t).Owned() <= cfg.maxTargets + p.entries[i].Owned()
    ensures Inv(cfg, WithSession(p, i, t))
  {
    var q := WithSession(p, i, t);
    ReplaceWithinLimits(cfg, p, i, Active(t));
    forall j ensures EntryOk(cfg, q, j) { assert EntryOk(cfg, p, j); }
    forall o ensures CreateOk(q, o) { assert CreateOk(p, o); }
    forall a, b ensures CreatesApart(q, a, b) { assert CreatesApart(p, a, b); }
    forall j, k ensures ReplaysApart(q, j, k) { assert ReplaysApart(p, j, k); }
    forall id ensures GuardOk(q, id) { assert GuardOk(p, id); }
    forall j ensures FrozenAt(q, j) { assert FrozenAt(p, j); }
  }

  /** Only the target totals can tell the two entries apart. */
  predicate SameOwner(d: Entry, e: Entry) {
    e.Inode() == d.Inode() && e.Client() == d.Client() && e.Ancestors() == d.Ancestors() && e.Replayed() == d.Replayed()
  }

  lemma ReplaceWithinLimits(cfg: Limits, p: State, i: InodeId, e: Entry)
    requires WithinLimits(cfg, p) && i in p.entries && e.Client() == p.entries[i].Client()
    requires Outstanding(p) + e.Owned() <= cfg.maxTargets + p.entries[i].Owned()
    ensures WithinLimits(cfg, WithEntry(p, i, e))
  {
    var q := WithEntry(p, i, e);
    SizeInsert(p.entries, i, e);
    forall c ensures ClientCount(q, c) <= cfg.maxPerClient {
      SumReplace(p.entries, i, e, OfClient(c));
      assert ClientCount(p, c) <= cfg.maxPerClient;
    }
    SumReplace(p.entries, i, e, Targets());
  }

  // ---- Opening ----------------------------------------------------------------

  lemma BeginSessionKeeps(cfg: Limits, p: State, input: BeginSessionInput, now: nat)
    requires Inv(cfg, p)
    ensures Inv(cfg, BeginSession(cfg, p, input, now).0)
  {
    hide Inv;
    var q := Tidy(p, input.inode, now);
    TidyKeeps(cfg, p, input.inode, now);
    if BeginSession(cfg, p, input, now).1.Ok? {
      AdmitOpeningKeeps(cfg, q, OpeningFor(cfg, input, q.nextOpening, now));
    }
  }

  /** Admitting one more opening for which there is room. */
  lemma AdmitOpeningKeeps(cfg: Limits, q: State, o: OpeningSession)
    requires Inv(cfg, q) && o.inode !in q.entries && o.openingId == q.nextOpening
    requires !GlobalFull(cfg, q) && !ClientFull(cfg, q, o.client)
    requires ChainValid(o.inode, o.ancestors)
    ensures Inv(cfg, AdmitOpening(q, o))
  {
    var r := AdmitOpening(q, o);
    InsertWithinLimits(cfg, q, o.inode, Opening(o), q.nextOpening + 1);
    forall j ensures EntryOk(cfg, r, j) { assert EntryOk(cfg, q, j); }
    forall o ensures CreateOk(r, o) { assert CreateOk(q, o); }
    forall a, b ensures CreatesApart(r, a, b) { assert CreatesApart(q, a, b); }
    forall j, k ensures ReplaysApart(r, j, k) { assert ReplaysApart(q, j, k); }
    forall id ensures GuardOk(r, id) { assert GuardOk(q, id); }
    forall j ensures FrozenAt(r, j) { assert FrozenAt(q, j); }
  }

  lemma InsertWithinLimits(cfg: Limits, q: State, i: InodeId, e: Entry, next: nat)
    requires WithinLimits(cfg, q) && i !in q.entries && e.Owned() == 0
    requires !GlobalFull(cfg, q) && !ClientFull(cfg, q, e.Client())
    ensures WithinLimits(cfg, WithEntry(q, i, e).(nextOpening := next))
  {
    var r := WithEntry(q, i, e).(nextOpening := next);
    SizeInsert(q.entries, i, e);
    forall c ensures ClientCount(r, c) <= cfg.maxPerClient {
      SumInsert(q.entries, i, e, OfClient(c));
      assert ClientCount(q, c) <= cfg.maxPerClient;
    }
    SumInsert(q.entries, i, e, Targets());
  }

  lemma BeginCreateKeeps(cfg: Limits, p: State, input: BeginCreateInput, now: nat)
    requires Inv(cfg, p)
    ensures Inv(cfg, BeginCreate(cfg, p, input, now).0)
  {
    hide Inv, CreateIn;
    var q := RetireOperation(p, input.operation, now);
    ShrinkKeeps(cfg, p, q);
    SweepKeeps(cfg, q, now, SWEEP_BUDGET);
    if ParentChainValid(input.ancestors) && input.operation.client == input.client {
      CreateInKeeps(cfg, Sweep(q, now, SWEEP_BUDGET), input, now);
    }
  }

  lemma CreateInKeeps(cfg: Limits, q: State, input: BeginCreateInput, now: nat)
    requires Inv(cfg, q) && ParentChainValid(input.ancestors) && input.operation.client == input.client
    ensures Inv(cfg, CreateIn(cfg, q, input, now).0)
  {
    hide Inv, CreateFresh;
    if forall i :: !ReplayHeld(q, input.operation, i) {
      CreateFreshKeeps(cfg, q, input, now);
    }
  }

  lemma CreateFreshKeeps(cfg: Limits, q: State, input: BeginCreateInput, now: nat)
    requires Inv(cfg, q) && ParentChainValid(input.ancestors) && input.operation.client == input.client
    requires forall i :: !ReplayHeld(q, input.operation, i)
    ensures Inv(cfg, CreateFresh(cfg, q, input, now).0)
  {
    hide Inv;
    if CreateRefusal(cfg, q, input).None? {
      AdmitCreateKeeps(cfg, q, CreateFor(cfg, input, q.nextOpening, now));
    }
  }

  lemma AdmitCreateKeeps(cfg: Limits, q: State, c: CreateOpening)
    requires Inv(cfg, q) && c.operation !in q.creates && c.openingId == q.nextOpening
    requires !GlobalFull(cfg, q) && !ClientFull(cfg, q, c.client)
    requires c.client == c.operation.client && ParentChainValid(c.ancestors)
    requires !PathHeld(q, c.identity.mount, c.identity.path)
    requires forall i :: !ReplayHeld(q, c.operation, i)
    ensures Inv(cfg, AdmitCreate(q, c))
  {
    var r := AdmitCreate(q, c);
    InsertCreateWithinLimits(cfg, q, c);
    forall j ensures EntryOk(cfg, r, j) { assert EntryOk(cfg, q, j); }
    forall o ensures CreateOk(r, o) { assert CreateOk(q, o); }
    forall a, b ensures CreatesApart(r, a, b) {
      assert CreatesApart(q, a, b);
      assert CreateOk(q, a) && CreateOk(q, b);
    }
    forall j, k ensures ReplaysApart(r, j, k) {
      assert ReplaysApart(q, j, k);
      assert !ReplayHeld(q, c.operation, j);
    }
    forall id ensures GuardOk(r, id) { assert GuardOk(q, id); }
    forall j ensures FrozenAt(r, j) { assert FrozenAt(q, j); }
  }

  lemma InsertCreateWithinLimits(cfg: Limits, q: State, c: CreateOpening)
    requires WithinLimits(cfg, q) && c.operation !in q.creates
    requires !GlobalFull(cfg, q) && !ClientFull(cfg, q, c.client)
    ensures WithinLimits(cfg, AdmitCreate(q, c))
  {
    var r := AdmitCreate(q, c);
    SizeInsert(q.creates, c.operation, c);
    forall x ensures ClientCount(r, x) <= cfg.maxPerClient {
      SumInsert(q.creates, c.operation, c, CreateOfClient(x));
      assert ClientCount(q, x) <= cfg.maxPerClient;
    }
  }

  lemma FinishOpeningKeeps(cfg: Limits, p: State, g: OpeningGuard, epoch: LeaseEpoch, now: nat,
                           file: Inode.FileData, tail: Option<LocatedBlock>)
    requires Inv(cfg, p)
    ensures Inv(cfg, FinishOpening(cfg, p, g, epoch, now, file, tail).0)
  {
    hide Inv;
    var q := ActivateOpening(cfg, p, g.inode, g.openingId, epoch, now, file, tail).0;
    ActivateOpeningKeeps(cfg, p, g.inode, g.openingId, epoch, now, file, tail);
    ShrinkKeeps(cfg, q, CancelOpening(q, g.inode, g.openingId));
  }

  lemma ActivateOpeningKeeps(cfg: Limits, p: State, i: InodeId, id: nat, epoch: LeaseEpoch, now: nat,
                             file: Inode.FileData, tail: Option<LocatedBlock>)
    requires Inv(cfg, p)
    ensures Inv(cfg, ActivateOpening(cfg, p, i, id, epoch, now, file, tail).0)
  {
    WithoutEntryKeeps(cfg, p, i);
    hide Inv, SessionFor, Outstanding, WithSession, WithoutEntry, FileMatches;
    if OpeningCurrent(p, i, id) && (tail.Some? ==> Outstanding(p) < cfg.maxTargets) {
      ActivatedKeeps(cfg, p, i, file, tail);
    }
  }

  lemma ActivatedKeeps(cfg: Limits, p: State, i: InodeId, file: Inode.FileData, tail: Option<LocatedBlock>)
    requires Inv(cfg, p) && i in p.entries && p.entries[i].Opening?
    requires tail.Some? ==> Outstanding(p) < cfg.maxTargets
    ensures Inv(cfg, WithSession(p, i, SessionFor(p.entries[i].opening, file, tail)))
  {
    EntryHolds(cfg, p, i);
    hide Inv;
    ReplaceKeeps(cfg, p, i, SessionFor(p.entries[i].opening, file, tail));
  }

  lemma FinishCreateKeeps(cfg: Limits, p: State, g: CreateGuard, i: InodeId, epoch: LeaseEpoch, expiresAt: nat,
                          layout: FileLayout, generation: Generation, now: nat)
    requires Inv(cfg, p)
    ensures Inv(cfg, FinishCreate(p, g, i, epoch, expiresAt, layout, generation, now).0)
  {
    hide Inv;
    var q := ActivateCreate(p, g.operation, g.openingId, i, epoch, expiresAt, layout, generation, now).0;
    ActivateCreateKeeps(cfg, p, g.operation, g.openingId, i, epoch, expiresAt, layout, generation, now);
    ShrinkKeeps(cfg, q, CancelCreate(q, g.operation, g.openingId));
  }

  lemma ActivateCreateKeeps(cfg: Limits, p: State, op: OpId, id: nat, i: InodeId, epoch: LeaseEpoch, expiresAt: nat,
                            layout: FileLayout, generation: Generation, now: nat)
    requires Inv(cfg, p)
    ensures Inv(cfg, ActivateCreate(p, op, id, i, epoch, expiresAt, layout, generation, now).0)
  {
    WithoutCreateKeeps(cfg, p, op);
    hide Inv, CreatedSession, ChainValid, WithSession, WithoutCreate;
    if CreateCurrent(p, op, id) && i !in p.entries && ChainValid(i, p.creates[op].ancestors + [i]) {
      CreationKeeps(cfg, p, op, i, epoch, expiresAt, layout, generation);
    }
  }

  /** Binding a create opening to its inode moves its capacity without changing any total. */
  lemma CreationKeeps(cfg: Limits, p: State, op: OpId, i: InodeId, epoch: LeaseEpoch, expiresAt: nat,
                      layout: FileLayout, generation: Generation)
    requires Inv(cfg, p) && op in p.creates && i !in p.entries
    requires ChainValid(i, p.creates[op].ancestors + [i])
    ensures Inv(cfg, WithSession(WithoutCreate(p, op), i,
                                 CreatedSession(p.creates[op], i, epoch, expiresAt, layout, generation)))
  {
    var o := p.creates[op];
    var s := CreatedSession(o, i, epoch, expiresAt, layout, generation);
    var q := WithSession(WithoutCreate(p, op), i, s);
    assert CreateOk(p, op);
    CreationWithinLimits(cfg, p, op, i, s);
    forall j ensures EntryOk(cfg, q, j) { assert EntryOk(cfg, p, j); }
    forall x ensures CreateOk(q, x) { assert CreateOk(p, x); }
    forall a, b ensures CreatesApart(q, a, b) { assert CreatesApart(p, a, b); }
    forall j, k ensures ReplaysApart(q, j, k) { assert ReplaysApart(p, j, k) && ReplaysApart(p, k, j); }
    forall id ensures GuardOk(q, id) { assert GuardOk(p, id); }
    forall j ensures FrozenAt(q, j) { assert FrozenAt(p, j); }
  }

  lemma CreationWithinLimits(cfg: Limits, p: State, op: OpId, i: InodeId, s: WriteSession)
    requires WithinLimits(cfg, p) && op in p.creates && i !in p.entries
    requires s.client == p.creates[op].client && Active(s).Owned() == 0
    ensures WithinLimits(cfg, WithSession(WithoutCreate(p, op), i, s))
  {
    var q := WithSession(WithoutCreate(p, op), i, s);
    SizeInsert(p.entries, i, Active(s));
    SizeRemove(p.creates, op);
    forall c ensures ClientCount(q, c) <= cfg.maxPerClient {
      SumInsert(p.entries, i, Active(s), OfClient(c));
      SumSplit(p.creates, op, CreateOfClient(c));
      assert ClientCount(p, c) <= cfg.maxPerClient;
    }
    SumInsert(p.entries, i, Active(s), Targets());
  }

  // ---- Write targets ----------------------------------------------------------

  lemma BeginAllocateKeeps(cfg: Limits, p: State, i: InodeId, epoch: LeaseEpoch, previous: Option<BlockId>, now: nat)
    requires Inv(cfg, p)
    ensures Inv(cfg, BeginAllocate(cfg, p, i, epoch, previous, now).0)
    ensures BeginAllocate(cfg, p, i, epoch, previous, now).1 != Err(InconsistentIndex)
  {
    hide Inv, Tidy, Contiguous, StepsFollowChain, Outstanding;
    var q := Tidy(p, i, now);
    TidyKeeps(cfg, p, i, now);
    if SessionCurrent(q, i, epoch) {
      var s := q.entries[i].session;
      EntryHolds(cfg, q, i);
      StepsInRange(s.issued, s.steps);
      if previous !in s.steps && AllocateRefusal(cfg, s, previous).None? && Outstanding(q) < cfg.maxTargets {
        ReplaceKeeps(cfg, q, i, Reserved(s, previous));
      }
    }
  }

  lemma StepsInRange(issued: seq<LocatedBlock>, steps: map<Option<BlockId>, nat>)
    requires StepsFollowChain(issued, steps)
    ensures forall k :: k in steps ==> steps[k] < |issued|
  {
  }

  lemma StepsExtend(issued: seq<LocatedBlock>, steps: map<Option<BlockId>, nat>, target: LocatedBlock)
    requires StepsFollowChain(issued, steps) && Predecessor(issued, |issued|) !in steps
    ensures StepsFollowChain(issued + [target], steps[Predecessor(issued, |issued|) := |issued|])
  {
    var longer, more := issued + [target], steps[Predecessor(issued, |issued|) := |issued|];
    forall k | 0 <= k <= |issued| ensures Predecessor(longer, k) == Predecessor(issued, k) {
    }
    forall k | 0 < k < |longer| ensures Predecessor(longer, k) in more && more[Predecessor(longer, k)] == k {
      assert k < |issued| ==> Predecessor(issued, k) in steps;
    }
  }

  lemma ContiguousExtend(issued: seq<LocatedBlock>, target: LocatedBlock)
    requires Contiguous(issued) && target.blockSize > 0
    requires issued != [] ==>
               target.fileOffset == issued[|issued| - 1].fileOffset + issued[|issued| - 1].blockSize
    ensures Contiguous(issued + [target])
  {
  }

  lemma WithTargetOk(cfg: Limits, s: WriteSession, pending: Pending, epoch: LeaseEpoch, target: LocatedBlock)
    requires SessionOk(cfg, s) && s.pending == Some(pending) && s.epoch == epoch && TargetValid(s, epoch, target)
    ensures SessionOk(cfg, WithTarget(s, pending, target))
  {
    hide StepsFollowChain, Contiguous, Fenced;
    StepsInRange(s.issued, s.steps);
    StepsExtend(s.issued, s.steps, target);
    ContiguousExtend(s.issued, target);
    FencedExtend(s, pending, epoch, target);
  }

  lemma FencedExtend(s: WriteSession, pending: Pending, epoch: LeaseEpoch, target: LocatedBlock)
    requires Fenced(s) && s.epoch == epoch && TargetValid(s, epoch, target)
    requires forall b :: b in s.steps ==> s.steps[b] < |s.issued|
    ensures Fenced(WithTarget(s, pending, target))
  {
    var t := WithTarget(s, pending, target);
    forall b | b in t.steps && t.steps[b] < |t.issued| ensures IssuedTo(t, t.issued[t.steps[b]]) {
      if b != pending.previous {
        assert IssuedTo(s, s.issued[s.steps[b]]);
      }
    }
  }

  lemma FencedTruncate(s: WriteSession, generation: Generation, size: nat)
    requires Fenced(s)
    ensures Fenced(Released(Synced(s, generation, size)))
  {
    var t := Released(Synced(s, generation, size));
    forall b | b in t.steps && t.steps[b] < |t.issued| ensures IssuedTo(t, t.issued[t.steps[b]]) {
      assert IssuedTo(s, s.issued[s.steps[b]]);
    }
  }

  /** Everything the tokens of a session rest on stays as it is. */
  lemma FencedSame(s: WriteSession, t: WriteSession)
    requires Fenced(s) && t.issued == s.issued && t.steps == s.steps
    requires t.inode == s.inode && t.client == s.client && t.epoch == s.epoch && t.layout == s.layout
    ensures Fenced(t)
  {
    forall b | b in t.steps && t.steps[b] < |t.issued| ensures IssuedTo(t, t.issued[t.steps[b]]) {
      assert IssuedTo(s, s.issued[s.steps[b]]);
    }
  }

  lemma CompleteTargetKeeps(cfg: Limits, p: State, i: InodeId, epoch: LeaseEpoch, pending: Pending,
                            target: LocatedBlock, now: nat)
    requires Inv(cfg, p)
    ensures Inv(cfg, CompleteTarget(p, i, epoch, pending, target, now).0)
  {
    hide Inv;
    var q := Tidy(p, i, now);
    TidyKeeps(cfg, p, i, now);
    if ReservationCurrent(q, i, epoch, pending) {
      var s := q.entries[i].session;
      EntryHolds(cfg, q, i);
      if TargetValid(s, epoch, target) {
        WithTargetOk(cfg, s, pending, epoch, target);
        ReplaceKeeps(cfg, q, i, WithTarget(s, pending, target));
      } else {
        CancelTargetKeeps(cfg, q, i, epoch, pending);
      }
    }
  }

  lemma CancelTargetKeeps(cfg: Limits, p: State, i: InodeId, epoch: LeaseEpoch, pending: Pending)
    requires Inv(cfg, p)
    ensures Inv(cfg, CancelTarget(p, i, epoch, pending))
  {
    hide Inv;
    if ReservationCurrent(p, i, epoch, pending) {
      EntryHolds(cfg, p, i);
      ReplaceKeeps(cfg, p, i, p.entries[i].session.(pending := None));
    }
  }

  // ---- Publication ------------------------------------------------------------

  /** The owner presented is the one the registry handed out, as Rust's move semantics ensure. */
  predicate Genuine(p: State, g: PublicationGuard) {
    g.id in p.guards && p.guards[g.id] == g
  }

  lemma BeginPublicationKeeps(cfg: Limits, p: State, i: InodeId, epoch: LeaseEpoch, now: nat)
    requires Inv(cfg, p)
    ensures Inv(cfg, BeginPublication(p, i, epoch, now).0)
  {
    hide Inv;
    var q := Tidy(p, i, now);
    TidyKeeps(cfg, p, i, now);
    if BeginPublication(p, i, epoch, now).1.Ok? {
      FreezeKeeps(cfg, q, i);
    }
  }

  lemma FreezeKeeps(cfg: Limits, q: State, i: InodeId)
    requires Inv(cfg, q) && i in q.entries && q.entries[i].Active?
    requires q.entries[i].session.pending.None? && q.entries[i].session.publication.None?
    ensures Inv(cfg, Freeze(q, i))
  {
    var guard := FreezingGuard(q, i);
    var id := guard.id;
    var q' := q.(nextPublication := id + 1, guards := q.guards[id := guard]);
    assert EntryOk(cfg, q, i);
    forall j ensures FrozenAt(q', j) { assert FrozenAt(q, j) && GuardOk(q, id); }
    forall x ensures GuardOk(q', x) { assert GuardOk(q, x); }
    GuardsUpdateKeeps(cfg, q, q');
    ReplaceKeeps(cfg, q', i, guard.session);
  }

  /** Recording a guard that agrees with every session. */
  lemma GuardsUpdateKeeps(cfg: Limits, p: State, q: State)
    requires Inv(cfg, p)
    requires q == p.(guards := q.guards, nextPublication := q.nextPublication)
    requires GuardsAgree(q)
    ensures Inv(cfg, q)
  {
    forall c ensures ClientCount(q, c) <= cfg.maxPerClient { assert ClientCount(p, c) <= cfg.maxPerClient; }
    forall i ensures EntryOk(cfg, q, i) { assert EntryOk(cfg, p, i); }
    forall o ensures CreateOk(q, o) { assert CreateOk(p, o); }
    forall a, b ensures CreatesApart(q, a, b) { assert CreatesApart(p, a, b); }
    forall i, j ensures ReplaysApart(q, i, j) { assert ReplaysApart(p, i, j); }
  }

  lemma MarkSubmittedKeeps(cfg: Limits, p: State, g: PublicationGuard, now: nat)
    requires Inv(cfg, p) && Genuine(p, g)
    ensures Inv(cfg, MarkSubmitted(p, g, now).0)
  {
    hide Inv;
    if MarkSubmitted(p, g, now).1.Ok? && !g.submitted {
      PinKeeps(cfg, p, g);
    }
  }

  lemma PinKeeps(cfg: Limits, p: State, g: PublicationGuard)
    requires Inv(cfg, p) && Genuine(p, g) && !g.submitted
    requires PublicationCurrent(p, g.session.inode, g.session.epoch, g.id)
    ensures Inv(cfg, Pin(p, g))
  {
    var i := g.session.inode;
    var s := p.entries[i].session.(submitted := true);
    var q, r := WithSession(p, i, s), Pin(p, g);
    assert EntryOk(cfg, p, i);
    ReplaceWithinLimits(cfg, p, i, Active(s));
    forall c ensures ClientCount(r, c) <= cfg.maxPerClient { assert ClientCount(q, c) <= cfg.maxPerClient; }
    forall j ensures EntryOk(cfg, r, j) { assert EntryOk(cfg, p, j); }
    forall o ensures CreateOk(r, o) { assert CreateOk(p, o); }
    forall a, b ensures CreatesApart(r, a, b) { assert CreatesApart(p, a, b); }
    forall j, k ensures ReplaysApart(r, j, k) { assert ReplaysApart(p, j, k); }
    forall id ensures GuardOk(r, id) { assert GuardOk(p, id); }
    forall j ensures FrozenAt(r, j) { assert FrozenAt(p, j) && EntryOk(cfg, p, j) && FrozenAt(p, i); }
  }

  lemma UnpublishedKeeps(cfg: Limits, p: State, i: InodeId)
    requires Inv(cfg, p) && i in p.entries && p.entries[i].Active? && !p.entries[i].session.submitted
    ensures Inv(cfg, WithSession(p, i, p.entries[i].session.(publication := None)))
  {
    hide Inv;
    EntryHolds(cfg, p, i);
    ReplaceKeeps(cfg, p, i, p.entries[i].session.(publication := None));
  }

  lemma {:induction false} RetainedExact(issued: seq<LocatedBlock>, size: nat)
    requires Contiguous(issued)
    ensures forall k :: 0 <= k < |issued| ==> (k < Retained(issued, size) <==> issued[k].fileOffset < size)
  {
    forall k | 0 <= k < |issued|
      ensures k < Retained(issued, size) <==> issued[k].fileOffset < size
    {
      OffsetsAscend(issued, Retained(issued, size), k);
    }
  }

  lemma {:induction false} OffsetsAscend(issued: seq<LocatedBlock>, j: nat, k: nat)
    requires Contiguous(issued) && k < |issued|
    ensures j <= k ==> issued[j].fileOffset <= issued[k].fileOffset
    ensures 0 < j < k ==> issued[j].fileOffset < issued[k].fileOffset
    decreases k
  {
    if j < k {
      OffsetsAscend(issued, j, k - 1);
    }
  }

  lemma StepsTruncate(issued: seq<LocatedBlock>, steps: map<Option<BlockId>, nat>, n: nat)
    requires StepsFollowChain(issued, steps) && n <= |issued|
    ensures StepsFollowChain(issued[..n], KeepSteps(steps, n))
  {
    var shorter, fewer := issued[..n], KeepSteps(steps, n);
    forall k | 0 <= k <= n ensures Predecessor(shorter, k) == Predecessor(issued, k) {
    }
    forall k | 0 < k < n ensures Predecessor(shorter, k) in fewer && fewer[Predecessor(shorter, k)] == k {
      assert Predecessor(issued, k) in steps;
    }
  }

  lemma ContiguousPrefix(issued: seq<LocatedBlock>, n: nat)
    requires Contiguous(issued) && n <= |issued|
    ensures Contiguous(issued[..n])
  {
  }

  lemma SyncResultOk(cfg: Limits, s: WriteSession, generation: Generation, size: nat)
    requires SessionOk(cfg, s) && s.pending.None? && SyncResult(s, generation, size).Ok?
    ensures var t := SyncResult(s, generation, size).value;
            && SessionOk(cfg, t)
            && SameOwner(Active(s), Active(t))
            && t.publication.None?
            && t.pending.None?
            && |t.issued| <= |s.issued|
  {
    var n := Retained(s.issued, size);
    hide StepsFollowChain, Contiguous, Retained, Fenced;
    StepsTruncate(s.issued, s.steps, n);
    ContiguousPrefix(s.issued, n);
    FencedTruncate(s, generation, size);
    FencedSame(s, Released(s));
  }

  lemma CompleteSyncKeeps(cfg: Limits, p: State, g: PublicationGuard, generation: Generation, size: nat, now: nat)
    requires Inv(cfg, p) && Genuine(p, g)
    ensures Inv(cfg, CompleteSync(p, g, generation, size, now).0)
  {
    hide Inv;
    var q := CompleteSyncAt(p, g.session.inode, g.session.epoch, g.id, generation, size, now).0;
    CompleteSyncAtKeeps(cfg, p, g.session.inode, g.session.epoch, g.id, generation, size, now);
    DropPublicationKeeps(cfg, q, g);
  }

  lemma CompleteSyncAtKeeps(cfg: Limits, p: State, i: InodeId, epoch: LeaseEpoch, id: nat,
                            generation: Generation, size: nat, now: nat)
    requires Inv(cfg, p)
    ensures Inv(cfg, CompleteSyncAt(p, i, epoch, id, generation, size, now).0)
    ensures CompleteSyncAt(p, i, epoch, id, generation, size, now).0.guards == p.guards
  {
    hide Inv;
    var q := Tidy(p, i, now);
    TidyShrinks(p, i, now);
    TidyKeeps(cfg, p, i, now);
    if PublicationCurrent(q, i, epoch, id) {
      var s := q.entries[i].session;
      EntryHolds(cfg, q, i);
      if SyncResult(s, generation, size).Ok? {
        SyncResultOk(cfg, s, generation, size);
        ReplaceKeeps(cfg, q, i, SyncResult(s, generation, size).value);
      }
    }
  }

  lemma DropPublicationKeeps(cfg: Limits, p: State, g: PublicationGuard)
    requires Inv(cfg, p) && Genuine(p, g)
    ensures Inv(cfg, DropPublication(p, g))
  {
    hide Inv;
    var i := g.session.inode;
    if !g.submitted && PublicationCurrent(p, i, g.session.epoch, g.id) {
      EntryHolds(cfg, p, i);
      UnpublishedKeeps(cfg, p, i);
    }
  }

  // ---- Lookup and renewal -----------------------------------------------------

  lemma ValidatedPresent(p: State, i: InodeId, epoch: LeaseEpoch, now: nat)
    ensures var (q, r) := ValidateSession(p, i, epoch, now);
            r.Ok? ==> i in q.entries && q.entries[i].Active?
  {
  }

  lemma ValidateSessionKeeps(cfg: Limits, p: State, i: InodeId, epoch: LeaseEpoch, now: nat)
    requires Inv(cfg, p)
    ensures Inv(cfg, ValidateSession(p, i, epoch, now).0)
  {
    hide Inv;
    SweepShrinks(p, now, SWEEP_BUDGET);
    ShrinkKeeps(cfg, p, ValidateSession(p, i, epoch, now).0);
  }

  lemma RenewSessionKeeps(cfg: Limits, p: State, i: InodeId, epoch: LeaseEpoch, client: ClientId, now: nat)
    requires Inv(cfg, p)
    ensures Inv(cfg, RenewSession(cfg, p, i, epoch, client, now).0)
  {
    hide Inv;
    ValidateSessionKeeps(cfg, p, i, epoch, now);
    var q := ValidateSession(p, i, epoch, now).0;
    var (r, outcome) := RenewSession(cfg, p, i, epoch, client, now);
    if outcome.Ok? {
      EntryHolds(cfg, q, i);
      ReplaceKeeps(cfg, q, i, q.entries[i].session.(expiresAt := outcome.value));
    }
  }
}
