/** The write-session registry with its derived indexes, changed in place under one lock.

    Each method takes the place of one locked section of the source and is proved to compute
    the corresponding scan-level function of `SessionSpec`, with every index kept equal to
    what a scan of the primary maps gives. The source's `assert!`, `expect` and `panic!`
    sites are the `assert` statements and map lookups below. */
module SessionRegistry {
  import opened BerylTypes
  import opened MapSums
  import opened SessionSpec
  import opened SessionInvariant
  import opened SessionIndex
  import Inode

  /** `BTreeSet::first`. */
  method FirstOf(s: set<(nat, nat)>) returns (r: Option<(nat, nat)>)
    ensures r.None? <==> s == {}
    ensures r.Some? ==> r.value == First(s)
  {
    r := None;
    var rest := s;
    while rest != {}
      invariant rest <= s
      invariant r.None? ==> rest == s
      invariant r.Some? ==> r.value in s && forall x :: x in s && x !in rest ==> PairLe(r.value, x)
      decreases |rest|
    {
      var x :| x in rest;
      if r.None? || !PairLe(r.value, x) {
        r := Some(x);
      }
      rest := rest - {x};
    }
    assert r.Some? ==> PairLe(First(s), r.value) && PairLe(r.value, First(s));
  }

  /** `BTreeMap::last_key_value` on a non-empty expiry multiset. */
  method LastOf(m: multiset<nat>) returns (r: nat)
    requires m != multiset{}
    ensures r in m && forall t :: t in m ==> t <= r
  {
    r :| r in m;
    var rest := m;
    while rest != multiset{}
      invariant rest <= m && r in m
      invariant forall t :: t in m && t !in rest ==> t <= r
      decreases |rest|
    {
      var x :| x in rest;
      if x > r {
        r := x;
      }
      rest := rest[x := 0];
    }
  }

  /** Whether a captured path is free of cycles. */
  method Acyclic(chain: seq<InodeId>) returns (ok: bool)
    ensures ok <==> Inode.Distinct(chain)
  {
    var seen: set<InodeId> := {};
    for k := 0 to |chain|
      invariant seen == set j | 0 <= j < k :: chain[j]
      invariant Inode.Distinct(chain[..k])
    {
      if chain[k] in seen {
        return false;
      }
      seen := seen + {chain[k]};
    }
    assert chain[..|chain|] == chain;
    return true;
  }

  type Activity = map<InodeId, multiset<nat>>

  // ---- Ancestor activity ------------------------------------------------------

  method IndexChain(before: Activity, chain: seq<InodeId>, t: nat) returns (m: Activity)
    requires Inode.Distinct(chain) && NoEmptyActivity(before)
    ensures ActivityPlus(before, m, chain, t)
  {
    m := before;
    for k := 0 to |chain|
      invariant ActivityPlus(before, m, chain[..k], t)
    {
      ghost var prior := m;
      m := AddActivity(m, chain[k], t);
      ExtendPrefix(chain, k);
      forall a, u ensures Act(m, a, u) == Act(before, a, u) + (if a in chain[..k + 1] && u == t then 1 else 0) {
        assert Act(prior, a, u) == Act(before, a, u) + (if a in chain[..k] && u == t then 1 else 0);
      }
    }
    assert chain[..|chain|] == chain;
  }

  method UnindexChain(before: Activity, chain: seq<InodeId>, t: nat) returns (m: Activity)
    requires Inode.Distinct(chain) && NoEmptyActivity(before)
    requires forall a :: a in chain ==> Act(before, a, t) > 0
    ensures NoEmptyActivity(m)
    ensures ActivityPlus(m, before, chain, t)
  {
    m := before;
    for k := 0 to |chain|
      invariant NoEmptyActivity(m)
      invariant ActivityPlus(m, before, chain[..k], t)
    {
      ghost var prior := m;
      ExtendPrefix(chain, k);
      assert Act(before, chain[k], t) > 0;
      m := SubtractActivity(m, chain[k], t);
      forall a, u ensures Act(before, a, u) == Act(m, a, u) + (if a in chain[..k + 1] && u == t then 1 else 0) {
        assert Act(before, a, u) == Act(prior, a, u) + (if a in chain[..k] && u == t then 1 else 0);
      }
    }
    assert chain[..|chain|] == chain;
  }

  /** The ancestor half of `move_expiry_indexes`. */
  method MoveChain(before: Activity, chain: seq<InodeId>, previous: nat, next: nat) returns (m: Activity)
    requires Inode.Distinct(chain) && NoEmptyActivity(before)
    requires forall a :: a in chain ==> Act(before, a, previous) > 0
    ensures ActivityMoved(before, m, chain, previous, next)
  {
    m := before;
    for k := 0 to |chain|
      invariant ActivityMoved(before, m, chain[..k], previous, next)
    {
      ghost var prior := m;
      var a := chain[k];
      ExtendPrefix(chain, k);
      assert Act(prior, a, previous) == Act(before, a, previous);
      m := m[a := m[a] - multiset{previous} + multiset{next}];
      forall b, v
        ensures Act(m, b, v) + (if b in chain[..k + 1] && v == previous then 1 else 0)
                == Act(before, b, v) + (if b in chain[..k + 1] && v == next then 1 else 0)
      {
        assert Act(prior, b, v) + (if b in chain[..k] && v == previous then 1 else 0)
               == Act(before, b, v) + (if b in chain[..k] && v == next then 1 else 0);
      }
    }
    assert chain[..|chain|] == chain;
  }

  class Registry {
    const limits: Limits
    var entries: map<InodeId, Entry>
    var creates: map<OpId, CreateOpening>
    var index: Index
    var nextOpening: nat
    var nextPublication: nat
    ghost var guards: map<nat, PublicationGuard>

    ghost function Abs(): State
      reads this
    {
      State(entries, creates, nextOpening, nextPublication, guards)
    }

    ghost predicate Valid()
      reads this
    {
      Inv(limits, Abs()) && Agree(Abs(), index)
    }

    constructor (limits: Limits)
      requires LimitsValid(limits)
      ensures Valid() && Abs() == EMPTY && this.limits == limits
    {
      this.limits := limits;
      entries, creates, index := map[], map[], Index(map[], map[], {}, map[], 0, map[], map[], {}, 0, 0);
      nextOpening, nextPublication, guards := 1, 1, map[];
    }

    // ---- Primary entries ------------------------------------------------------

    /** `insert_entry`. */
    method InsertEntry(e: Entry)
      requires Agree(Abs(), index) && e.Inode() !in entries && Inode.Distinct(e.Ancestors())
      requires e.Replayed().Some? ==> e.Replayed().value !in index.activeCreates
      modifies this`entries, this`index
      ensures Agree(Abs(), index)
      ensures Abs() == WithEntry(old(Abs()), e.Inode(), e)
    {
      var i, x := e.Inode(), index;
      assert (e.Retirement(), i) !in x.expiries;
      var activity := IndexChain(x.activity, e.Ancestors(), e.Retirement());
      var y := x.(activity := activity,
                  expiries := x.expiries + {(e.Retirement(), i)},
                  openings := if e.Opening? then x.openings + 1 else x.openings,
                  clients := Increment(x.clients, e.Client()),
                  activeCreates := if e.Replayed().Some? then x.activeCreates[e.Replayed().value := i] else x.activeCreates,
                  outstanding := x.outstanding + e.Owned(),
                  pending := x.pending + e.PendingCount());
      InsertAgrees(Abs(), x, y, i, e);
      entries, index := entries[i := e], y;
    }

    /** `remove_entry`. */
    method RemoveEntry(i: InodeId) returns (r: Option<Entry>)
      requires Agree(Abs(), index)
      requires i in entries ==> Inode.Distinct(entries[i].Ancestors())
      modifies this`entries, this`index
      ensures Agree(Abs(), index)
      ensures Abs() == WithoutEntry(old(Abs()), i)
      ensures r == if i in old(entries) then Some(old(entries)[i]) else None
    {
      if i !in entries {
        assert entries - {i} == entries;
        return None;
      }
      var e, x := entries[i], index;
      EntryContributes(Abs(), x, i);
      assert e.Replayed().Some? ==> x.activeCreates[e.Replayed().value] == i;
      var activity := UnindexChain(x.activity, e.Ancestors(), e.Retirement());
      var y := x.(activity := activity,
                  expiries := x.expiries - {(e.Retirement(), i)},
                  openings := if e.Opening? then x.openings - 1 else x.openings,
                  clients := Decrement(x.clients, e.Client()),
                  activeCreates := if e.Replayed().Some? then x.activeCreates - {e.Replayed().value} else x.activeCreates,
                  outstanding := x.outstanding - e.Owned(),
                  pending := x.pending - e.PendingCount());
      RemoveAgrees(Abs(), x, y, i);
      entries, index := entries - {i}, y;
      return Some(e);
    }

    /** `insert_create_opening`. */
    method InsertCreateOpening(c: CreateOpening)
      requires Agree(Abs(), index) && c.operation !in creates && Inode.Distinct(c.ancestors)
      requires KeyOf(c) !in index.paths && c.openingId !in index.operations
      modifies this`creates, this`index
      ensures Agree(Abs(), index)
      ensures Abs() == old(Abs()).(creates := old(creates)[c.operation := c])
    {
      var x := index;
      DeadlineNew(creates, x, c);
      assert Deadline(c) !in x.createExpiries;
      var activity := IndexChain(x.activity, c.ancestors, c.expiresAt);
      var y := x.(paths := x.paths[KeyOf(c) := c.operation],
                  activity := activity,
                  createExpiries := x.createExpiries + {Deadline(c)},
                  operations := x.operations[c.openingId := c.operation],
                  clients := Increment(x.clients, c.client));
      InsertCreateAgrees(Abs(), x, y, c);
      creates, index := creates[c.operation := c], y;
    }

    /** `remove_create_opening`. */
    method RemoveCreateOpening(o: OpId) returns (r: Option<CreateOpening>)
      requires Agree(Abs(), index)
      requires o in creates ==> Inode.Distinct(creates[o].ancestors)
      modifies this`creates, this`index
      ensures Agree(Abs(), index) && SameEntryIndexes(old(index), index)
      ensures Abs() == WithoutCreate(old(Abs()), o)
      ensures r == if o in old(creates) then Some(old(creates)[o]) else None
    {
      if o !in creates {
        assert creates - {o} == creates;
        return None;
      }
      var c, x := creates[o], index;
      CreateContributes(Abs(), x, o);
      assert x.paths[KeyOf(c)] == o && x.operations[c.openingId] == o;
      var activity := UnindexChain(x.activity, c.ancestors, c.expiresAt);
      var y := x.(paths := x.paths - {KeyOf(c)},
                  createExpiries := x.createExpiries - {Deadline(c)},
                  operations := x.operations - {c.openingId},
                  activity := activity,
                  clients := Decrement(x.clients, c.client));
      RemoveCreateAgrees(Abs(), x, y, o);
      creates, index := creates - {o}, y;
      return Some(c);
    }

    /** Installs continuation state that keeps the retirement of its session. */
    method UpdateSession(i: InodeId, t: WriteSession)
      requires Agree(Abs(), index) && i in entries && SameOwner(entries[i], Active(t))
      requires Active(t).Retirement() == entries[i].Retirement()
      modifies this`entries, this`index
      ensures Agree(Abs(), index)
      ensures Abs() == WithSession(old(Abs()), i, t)
    {
      var d, e, x := entries[i], Active(t), index;
      EntryContributes(Abs(), x, i);
      var y := x.(openings := if d.Opening? then x.openings - 1 else x.openings,
                  outstanding := x.outstanding - d.Owned() + e.Owned(),
                  pending := x.pending - d.PendingCount() + e.PendingCount());
      ReplaceAgrees(Abs(), x, y, i, e);
      entries, index := entries[i := e], y;
    }

    /** `move_expiry_indexes` from `previous`, together with the session state that calls for it. */
    method MoveSession(i: InodeId, t: WriteSession, previous: nat)
      requires Agree(Abs(), index) && i in entries && entries[i].Active? && SameOwner(entries[i], Active(t))
      requires Inode.Distinct(t.ancestors) && previous == entries[i].Retirement()
      modifies this`entries, this`index
      ensures Agree(Abs(), index)
      ensures Abs() == WithSession(old(Abs()), i, t)
    {
      var d, e, x := entries[i], Active(t), index;
      EntryContributes(Abs(), x, i);
      assert (previous, i) in x.expiries;
      var activity := MoveChain(x.activity, t.ancestors, previous, e.Retirement());
      var y := x.(activity := activity,
                  expiries := x.expiries - {(previous, i)} + {(e.Retirement(), i)},
                  outstanding := x.outstanding - d.Owned() + e.Owned(),
                  pending := x.pending - d.PendingCount() + e.PendingCount());
      MoveAgrees(Abs(), x, y, i, e);
      entries, index := entries[i := e], y;
    }

    /** `release_sync_publication`, with the session state the SyncWrite leaves. */
    method ReleaseSync(i: InodeId, t: WriteSession)
      requires Agree(Abs(), index) && i in entries && entries[i].Active? && SameOwner(entries[i], Active(t))
      requires Inode.Distinct(t.ancestors) && t.submitted == entries[i].session.submitted
      requires t.expiresAt == entries[i].session.expiresAt
      modifies this`entries, this`index
      ensures Agree(Abs(), index)
      ensures Abs() == WithSession(old(Abs()), i, Released(t))
    {
      hide Agree;
      if t.submitted {
        MoveSession(i, Released(t), U64_MAX);
      } else {
        UpdateSession(i, Released(t));
      }
    }

    // ---- Expiry ---------------------------------------------------------------

    /** `retire_expired_entry_for_inode`. */
    method RetireExpiredEntryForInode(i: InodeId, now: nat) returns (retired: bool)
      requires Valid()
      modifies this`entries, this`index
      ensures Valid() && Abs() == RetireInode(old(Abs()), i, now)
      ensures retired <==> i in old(entries) && i !in entries
    {
      hide Inv, Agree;
      retired := i in entries && entries[i].Retirement() <= now;
      if retired {
        ghost var p := Abs();
        EntryHolds(limits, p, i);
        var removed := RemoveEntry(i);
        assert removed.Some?;
        ShrinkKeeps(limits, p, Abs());
      }
    }

    /** `retire_expired_create_opening_for_operation`. */
    method RetireExpiredCreateForOperation(o: OpId, now: nat)
      requires Valid()
      modifies this`creates, this`index
      ensures Valid() && Abs() == RetireOperation(old(Abs()), o, now)
    {
      hide Inv, Agree;
      if o in creates && creates[o].expiresAt <= now {
        ghost var p := Abs();
        CreateHolds(limits, p, o);
        var removed := RemoveCreateOpening(o);
        assert removed.Some?;
        ShrinkKeeps(limits, p, Abs());
      }
    }

    /** Reads the write due first off the two ordered expiry indexes. */
    method ChooseVictim(now: nat) returns (v: Victim)
      requires Valid()
      ensures v == NextVictim(Abs(), now)
    {
      hide Inv, Agree, NextVictim, First;
      VictimIndexed(Abs(), index, now);
      var session := FirstOf(index.expiries);
      var create := FirstOf(index.createExpiries);
      if create.Some? && (session.None? || create.value.0 < session.value.0) {
        return if create.value.0 > now then NoVictim else CreateVictim(index.operations[create.value.1]);
      }
      return if session.Some? && session.value.0 <= now then SessionVictim(session.value.1) else NoVictim;
    }

    method RetireVictim(v: Victim)
      requires Valid() && Present(Abs(), v)
      modifies this`entries, this`creates, this`index
      ensures Valid() && Abs() == Retire(old(Abs()), v)
      ensures Size(old(Abs())) == Size(Abs()) + 1
    {
      hide Inv, Agree;
      ghost var p := Abs();
      if v.CreateVictim? {
        CreateHolds(limits, p, v.o);
        var removed := RemoveCreateOpening(v.o);
        assert removed.Some?;
        SizeRemove(p.creates, v.o);
      } else {
        EntryHolds(limits, p, v.i);
        var removed := RemoveEntry(v.i);
        assert removed.Some?;
        SizeRemove(p.entries, v.i);
      }
      ShrinkKeeps(limits, p, Abs());
    }

    /** `retire_expired_entries`. */
    method RetireExpiredEntries(now: nat) returns (retired: nat)
      requires Valid()
      modifies this`entries, this`creates, this`index
      ensures Valid() && Abs() == Sweep(old(Abs()), now, SWEEP_BUDGET)
      ensures retired == Size(old(Abs())) - Size(Abs())
    {
      hide Inv, Agree, NextVictim;
      retired := 0;
      while retired < SWEEP_BUDGET
        invariant retired <= SWEEP_BUDGET && Size(old(Abs())) == Size(Abs()) + retired
        invariant Valid() && Sweep(Abs(), now, SWEEP_BUDGET - retired) == Sweep(old(Abs()), now, SWEEP_BUDGET)
      {
        var victim := ChooseVictim(now);
        if victim.NoVictim? {
          break;
        }
        RetireVictim(victim);
        retired := retired + 1;
      }
    }

    method Tidy(i: InodeId, now: nat)
      requires Valid()
      modifies this`entries, this`creates, this`index
      ensures Valid() && Abs() == SessionSpec.Tidy(old(Abs()), i, now)
    {
      hide Inv, Agree, Sweep;
      var _ := RetireExpiredEntryForInode(i, now);
      var _ := RetireExpiredEntries(now);
    }

    /** `has_active_write_under_at`: exact although the sweep is bounded. */
    method HasActiveWriteUnder(a: InodeId, now: nat) returns (active: bool)
      requires Valid()
      modifies this`entries, this`creates, this`index
      ensures Valid() && Abs() == Sweep(old(Abs()), now, SWEEP_BUDGET)
      ensures active <==> ActiveUnder(old(Abs()), a, now)
    {
      var _ := RetireExpiredEntries(now);
      SweepKeepsActive(old(Abs()), now, SWEEP_BUDGET, a);
      ActivityIndexed(Abs(), index, a, now);
      if a !in index.activity {
        return false;
      }
      var last := LastOf(index.activity[a]);
      return last > now;
    }

    // ---- Opening --------------------------------------------------------------

    /** Which session capacity is exhausted, read from the indexes. */
    method SessionCapacity(client: ClientId) returns (global: bool, own: bool)
      requires Valid()
      ensures global <==> GlobalFull(limits, Abs())
      ensures own <==> ClientFull(limits, Abs(), client)
    {
      hide Inv, Agree;
      global := |entries| + |creates| >= limits.maxSessions;
      ClientIndexed(Abs(), index, client);
      own := Count(index.clients, client) >= limits.maxPerClient;
    }

    method PathBusy(mount: MountId, path: string) returns (busy: bool)
      requires Valid()
      ensures busy <==> PathHeld(Abs(), mount, path)
    {
      hide Inv, Agree;
      PathIndexed(Abs(), index, mount, path);
      return (mount, path) in index.paths;
    }

    method BeginSession(input: BeginSessionInput, now: nat) returns (r: Result<OpeningGuard, BeginSessionError>)
      requires Valid()
      modifies this
      ensures Valid() && (Abs(), r) == SessionSpec.BeginSession(limits, old(Abs()), input, now)
    {
      hide Inv, Agree, Sweep, GlobalFull, ClientFull, PathHeld;
      BeginSessionKeeps(limits, Abs(), input, now);
      var acyclic := Acyclic(input.ancestors);
      if |input.ancestors| == 0 || |input.ancestors| > MAX_PATH_COMPONENTS + 1
         || input.ancestors[|input.ancestors| - 1] != input.inode || !acyclic {
        return Err(InvalidAncestorChain);
      }
      Tidy(input.inode, now);
      var held := PathBusy(input.mount, input.path);
      if input.inode in entries || held {
        return Err(Busy);
      }
      var global, own := SessionCapacity(input.client);
      if global {
        return Err(LimitExceeded(GlobalSessions, limits.maxSessions));
      }
      if own {
        return Err(LimitExceeded(PerClient, limits.maxPerClient));
      }
      if CheckedNext(input.currentEpoch).None? {
        return Err(LeaseEpochExhausted);
      }
      if CheckedNext(nextOpening).None? {
        return Err(OpeningIdExhausted);
      }
      var opening := OpeningFor(limits, input, nextOpening, now);
      InsertEntry(Opening(opening));
      AgreeOnMaps(Abs(), Abs().(nextOpening := nextOpening + 1), index);
      nextOpening := nextOpening + 1;
      return Ok(OpeningGuard(input.inode, opening.openingId, opening.proposedEpoch));
    }

    method BeginCreate(input: BeginCreateInput, now: nat) returns (r: Result<BeginCreateOutcome, BeginCreateError>)
      requires Valid()
      modifies this
      ensures Valid() && (Abs(), r) == SessionSpec.BeginCreate(limits, old(Abs()), input, now)
    {
      hide Inv, Agree, Sweep, CreateIn;
      if input.operation.client != input.client {
        return Err(IdentityMismatch);
      }
      var acyclic := Acyclic(input.ancestors);
      if |input.ancestors| == 0 || |input.ancestors| > MAX_PATH_COMPONENTS || !acyclic {
        return Err(InvalidParentChain);
      }
      RetireExpiredCreateForOperation(input.operation, now);
      var _ := RetireExpiredEntries(now);
      r := CreateHere(input, now);
    }

    method CreateHere(input: BeginCreateInput, now: nat) returns (r: Result<BeginCreateOutcome, BeginCreateError>)
      requires Valid() && ParentChainValid(input.ancestors) && input.operation.client == input.client
      modifies this
      ensures Valid() && (Abs(), r) == CreateIn(limits, old(Abs()), input, now)
    {
      hide Inv, Agree, CreateFresh, ReplayCreate;
      OperationIndexed(Abs(), index, input.operation);
      if input.operation in index.activeCreates {
        return ReplayCreate(entries[index.activeCreates[input.operation]].session.replay.value, input);
      }
      r := ReserveCreate(input, now);
    }

    method ReserveCreate(input: BeginCreateInput, now: nat) returns (r: Result<BeginCreateOutcome, BeginCreateError>)
      requires Valid() && ParentChainValid(input.ancestors) && input.operation.client == input.client
      requires forall i :: !ReplayHeld(Abs(), input.operation, i)
      modifies this
      ensures Valid() && (Abs(), r) == CreateFresh(limits, old(Abs()), input, now)
    {
      hide Inv, Agree, CreateRefusal, ReplayHeld;
      CreateFreshKeeps(limits, Abs(), input, now);
      var refusal := CreateRefused(input);
      if refusal.Some? {
        return Err(refusal.value);
      }
      NotRefused(limits, Abs(), index, input);
      var opening := CreateFor(limits, input, nextOpening, now);
      InsertCreateOpening(opening);
      AgreeOnMaps(Abs(), Abs().(nextOpening := nextOpening + 1), index);
      nextOpening := nextOpening + 1;
      return Ok(CreateReserved(CreateGuard(input.operation, opening.openingId, opening.expiresAt)));
    }

    /** The admission checks of a create operation that is not replayed. */
    method CreateRefused(input: BeginCreateInput) returns (r: Option<BeginCreateError>)
      requires Valid()
      ensures r == CreateRefusal(limits, Abs(), input)
    {
      hide Inv, Agree, GlobalFull, ClientFull, PathHeld;
      if input.operation in creates {
        return Some(if creates[input.operation].identity == input.identity then CreatePending else IdentityMismatch);
      }
      var busy := PathBusy(input.identity.mount, input.identity.path);
      if busy {
        return Some(BeginCreateError.PathBusy);
      }
      var global, own := SessionCapacity(input.client);
      if global {
        return Some(CreateLimitExceeded(GlobalSessions, limits.maxSessions));
      }
      if own {
        return Some(CreateLimitExceeded(PerClient, limits.maxPerClient));
      }
      return if CheckedNext(nextOpening).None? then Some(CreateIdExhausted) else None;
    }

    /** `WriteOpening::activate`, then the drop of the consumed guard. */
    method FinishOpening(g: OpeningGuard, epoch: LeaseEpoch, now: nat, file: Inode.FileData, tail: Option<LocatedBlock>)
      returns (r: Result<WriteSession, WriteOpeningError>)
      requires Valid()
      modifies this`entries, this`index
      ensures Valid() && (Abs(), r) == SessionSpec.FinishOpening(limits, old(Abs()), g, epoch, now, file, tail)
    {
      hide Inv, Agree;
      r := ActivateOpening(g.inode, g.openingId, epoch, now, file, tail);
      if r.Err? && !r.error.NotCurrent? && !r.error.Expired? {
        DropOpening(g.inode, g.openingId);
      }
    }

    method ActivateOpening(i: InodeId, id: nat, epoch: LeaseEpoch, now: nat, file: Inode.FileData,
                           tail: Option<LocatedBlock>)
      returns (r: Result<WriteSession, WriteOpeningError>)
      requires Valid()
      modifies this`entries, this`index
      ensures Valid() && (Abs(), r) == SessionSpec.ActivateOpening(limits, old(Abs()), i, id, epoch, now, file, tail)
    {
      hide Inv, Agree, Outstanding, FileMatches, WithSession, WithoutEntry;
      ActivateOpeningKeeps(limits, Abs(), i, id, epoch, now, file, tail);
      OutstandingIndexed(Abs(), index);
      if !(i in entries && entries[i].Opening? && entries[i].opening.openingId == id) {
        return Err(NotCurrent);
      }
      var opening := entries[i].opening;
      if opening.expiresAt <= now {
        var _ := RetireExpiredEntryForInode(i, now);
        return Err(Expired);
      }
      if opening.proposedEpoch != epoch {
        return Err(EpochMismatch(opening.proposedEpoch, epoch));
      }
      if !FileMatches(opening, file) {
        return Err(NotCurrent);
      }
      if tail.Some? && index.outstanding >= limits.maxTargets {
        return Err(TargetLimitReached);
      }
      var session := SessionFor(opening, file, tail);
      UpdateSession(i, session);
      return Ok(session);
    }

    /** Dropping an armed `WriteOpening`. */
    method DropOpening(i: InodeId, id: nat)
      requires Valid()
      modifies this`entries, this`index
      ensures Valid() && Abs() == CancelOpening(old(Abs()), i, id)
    {
      hide Inv, Agree;
      if i in entries && entries[i].Opening? && entries[i].opening.openingId == id {
        DiscardEntry(i);
      }
    }

    /** Removes an entry that is known to be present. */
    method DiscardEntry(i: InodeId)
      requires Valid() && i in entries
      modifies this`entries, this`index
      ensures Valid() && Abs() == WithoutEntry(old(Abs()), i)
    {
      hide Inv, Agree;
      ghost var p := Abs();
      EntryHolds(limits, p, i);
      var removed := RemoveEntry(i);
      assert removed.Some?;
      ShrinkKeeps(limits, p, Abs());
    }

    /** `CreateOpening::activate`, then the drop of the consumed guard. */
    method FinishCreate(g: CreateGuard, i: InodeId, epoch: LeaseEpoch, expiresAt: nat, layout: FileLayout,
                        generation: Generation, now: nat)
      returns (r: Result<WriteSession, WriteOpeningError>)
      requires Valid()
      modifies this`entries, this`creates, this`index
      ensures Valid()
      ensures (Abs(), r)
              == SessionSpec.FinishCreate(old(Abs()), g, i, epoch, expiresAt, layout, generation, now)
    {
      hide Inv, Agree;
      r := ActivateCreate(g.operation, g.openingId, i, epoch, expiresAt, layout, generation, now);
      if r.Err? {
        DropCreate(g.operation, g.openingId);
      }
    }

    method ActivateCreate(op: OpId, id: nat, i: InodeId, epoch: LeaseEpoch, expiresAt: nat, layout: FileLayout,
                          generation: Generation, now: nat)
      returns (r: Result<WriteSession, WriteOpeningError>)
      requires Valid()
      modifies this`entries, this`creates, this`index
      ensures Valid()
      ensures (Abs(), r)
              == SessionSpec.ActivateCreate(old(Abs()), op, id, i, epoch, expiresAt, layout, generation, now)
    {
      hide Inv, Agree, CreatedSession, WithSession, WithoutCreate;
      ActivateCreateKeeps(limits, Abs(), op, id, i, epoch, expiresAt, layout, generation, now);
      if !(op in creates && creates[op].openingId == id) {
        return Err(NotCurrent);
      }
      var opening := creates[op];
      if opening.expiresAt <= now || expiresAt <= now {
        DiscardCreate(op);
        return Err(Expired);
      }
      if epoch == 0 || i in entries {
        return Err(NotCurrent);
      }
      var chain := opening.ancestors + [i];
      var acyclic := Acyclic(chain);
      if |chain| > MAX_PATH_COMPONENTS + 1 || !acyclic {
        return Err(NotCurrent);
      }
      var session := CreatedSession(opening, i, epoch, expiresAt, layout, generation);
      BindCreate(op, i, epoch, expiresAt, layout, generation);
      return Ok(session);
    }

    /** Moves a create opening to the inode it was bound to. */
    method BindCreate(op: OpId, i: InodeId, epoch: LeaseEpoch, expiresAt: nat, layout: FileLayout,
                      generation: Generation)
      requires Valid() && op in creates && i !in entries && Inode.Distinct(creates[op].ancestors + [i])
      modifies this`entries, this`creates, this`index
      ensures Agree(Abs(), index)
      ensures Abs() == WithSession(WithoutCreate(old(Abs()), op), i,
                                   CreatedSession(old(creates)[op], i, epoch, expiresAt, layout, generation))
    {
      hide Inv, Agree;
      PendingNotActive(limits, Abs(), index, op);
      CreateHolds(limits, Abs(), op);
      var opening := RemoveCreateOpening(op);
      InsertEntry(Active(CreatedSession(opening.value, i, epoch, expiresAt, layout, generation)));
    }

    /** Dropping an armed `CreateOpening`. */
    method DropCreate(op: OpId, id: nat)
      requires Valid()
      modifies this`creates, this`index
      ensures Valid() && Abs() == CancelCreate(old(Abs()), op, id)
    {
      hide Inv, Agree;
      if op in creates && creates[op].openingId == id {
        DiscardCreate(op);
      }
    }

    method DiscardCreate(op: OpId)
      requires Valid() && op in creates
      modifies this`creates, this`index
      ensures Valid() && Abs() == WithoutCreate(old(Abs()), op)
    {
      hide Inv, Agree;
      ghost var p := Abs();
      CreateHolds(limits, p, op);
      var removed := RemoveCreateOpening(op);
      assert removed.Some?;
      ShrinkKeeps(limits, p, Abs());
    }

    // ---- Write targets --------------------------------------------------------

    /** Installs a session that keeps its owner and its retirement, and the invariant. */
    method InstallSession(i: InodeId, t: WriteSession)
      requires Valid() && i in entries && entries[i].Active? && SameOwner(entries[i], Active(t))
      requires t.submitted == entries[i].session.submitted && t.expiresAt == entries[i].session.expiresAt
      requires Inv(limits, WithSession(Abs(), i, t))
      modifies this`entries, this`index
      ensures Valid() && Abs() == WithSession(old(Abs()), i, t)
    {
      hide Inv, Agree, WithSession;
      UpdateSession(i, t);
    }

    method BeginAllocate(i: InodeId, epoch: LeaseEpoch, previous: Option<BlockId>, now: nat)
      returns (r: Result<BeginAllocateOutcome, BeginAllocateError>)
      requires Valid()
      modifies this`entries, this`creates, this`index
      ensures Valid() && (Abs(), r) == SessionSpec.BeginAllocate(limits, old(Abs()), i, epoch, previous, now)
    {
      hide Inv, Agree, SessionSpec.Tidy, Outstanding, WithSession, AllocateRefusal;
      BeginAllocateKeeps(limits, Abs(), i, epoch, previous, now);
      Tidy(i, now);
      if !(i in entries && entries[i].Active? && entries[i].session.epoch == epoch) {
        return Err(Session);
      }
      var s := entries[i].session;
      if previous in s.steps {
        var k := s.steps[previous];
        return if k < |s.issued| then Ok(TargetReplayed(s.issued[k])) else Err(InconsistentIndex);
      }
      var refusal := AllocateRefusal(limits, s, previous);
      if refusal.Some? {
        return Err(refusal.value);
      }
      OutstandingIndexed(Abs(), index);
      if index.outstanding >= limits.maxTargets {
        return Err(TargetLimitExceeded(GlobalTargets, limits.maxTargets));
      }
      NextOffsetKnown(limits, s, previous);
      assert s.pending.None?;
      InstallSession(i, Reserved(s, previous));
      return Ok(TargetReserved(Reservation(i, epoch, Pending(previous), s.layout, s.client, NextOffset(s).value)));
    }

    method CompleteTarget(i: InodeId, epoch: LeaseEpoch, pending: Pending, target: LocatedBlock, now: nat)
      returns (r: Result<LocatedBlock, CompleteTargetError>)
      requires Valid()
      modifies this`entries, this`creates, this`index
      ensures Valid() && (Abs(), r) == SessionSpec.CompleteTarget(old(Abs()), i, epoch, pending, target, now)
    {
      hide Inv, Agree, SessionSpec.Tidy, WithSession, TargetValid;
      CompleteTargetKeeps(limits, Abs(), i, epoch, pending, target, now);
      Tidy(i, now);
      if !(i in entries && entries[i].Active? && entries[i].session.epoch == epoch
           && entries[i].session.pending == Some(pending)) {
        return Err(TargetNotCurrent);
      }
      var s := entries[i].session;
      if !TargetValid(s, epoch, target) {
        DropTarget(i, epoch, pending);
        return Err(InvalidTarget);
      }
      StepNotIssued(limits, Abs(), i);
      assert pending.previous !in s.steps;
      InstallSession(i, WithTarget(s, pending, target));
      return Ok(target);
    }

    /** Dropping an armed `WriteTargetReservation`. */
    method DropTarget(i: InodeId, epoch: LeaseEpoch, pending: Pending)
      requires Valid()
      modifies this`entries, this`index
      ensures Valid() && Abs() == CancelTarget(old(Abs()), i, epoch, pending)
    {
      hide Inv, Agree, WithSession;
      CancelTargetKeeps(limits, Abs(), i, epoch, pending);
      if i in entries && entries[i].Active? && entries[i].session.epoch == epoch
         && entries[i].session.pending == Some(pending) {
        InstallSession(i, entries[i].session.(pending := None));
      }
    }

    // ---- Publication ----------------------------------------------------------

    method BeginPublication(i: InodeId, epoch: LeaseEpoch, now: nat)
      returns (r: Result<PublicationGuard, BeginPublicationError>)
      requires Valid()
      modifies this
      ensures Valid() && (Abs(), r) == SessionSpec.BeginPublication(old(Abs()), i, epoch, now)
    {
      hide Inv, Agree, SessionSpec.Tidy;
      BeginPublicationKeeps(limits, Abs(), i, epoch, now);
      Tidy(i, now);
      if !(i in entries && entries[i].Active? && entries[i].session.epoch == epoch) {
        return Err(PublicationSession);
      }
      var s := entries[i].session;
      if s.pending.Some? {
        return Err(AllocateBlockPending);
      }
      if s.publication.Some? {
        return Err(AlreadyPublishing);
      }
      if CheckedNext(nextPublication).None? {
        return Err(PublicationIdExhausted);
      }
      var guard := PublicationGuard(s.(publication := Some(nextPublication)), nextPublication, false);
      UpdateSession(i, guard.session);
      AgreeOnMaps(Abs(), Abs().(nextPublication := guard.id + 1, guards := guards[guard.id := guard]), index);
      nextPublication, guards := guard.id + 1, guards[guard.id := guard];
      return Ok(guard);
    }

    method Revalidate(g: PublicationGuard, now: nat) returns (r: Result<WriteSession, PublicationError>)
      requires Valid()
      modifies this`entries, this`creates, this`index
      ensures Valid() && (Abs(), r) == SessionSpec.Revalidate(old(Abs()), g, now)
    {
      hide Inv, Agree, SessionSpec.Tidy;
      var i := g.session.inode;
      Tidy(i, now);
      if i in entries && entries[i].Active? && entries[i].session.epoch == g.session.epoch
         && entries[i].session.publication == Some(g.id) {
        return Ok(entries[i].session);
      }
      return Err(PublicationNotCurrent);
    }

    /** `WritePublication::mark_submitted`; returns the guard as it is afterwards. */
    method MarkSubmitted(g: PublicationGuard, now: nat) returns (r: Result<PublicationGuard, PublicationError>)
      requires Valid() && Genuine(Abs(), g)
      modifies this
      ensures Valid() && (Abs(), r) == SessionSpec.MarkSubmitted(old(Abs()), g, now)
    {
      hide Inv, Agree;
      MarkSubmittedKeeps(limits, Abs(), g, now);
      var i := g.session.inode;
      if g.submitted {
        return Ok(g);
      }
      if CheckedNext(g.session.epoch).None? {
        return Err(EpochEnds);
      }
      if !(i in entries && entries[i].Active? && entries[i].session.epoch == g.session.epoch
           && entries[i].session.publication == Some(g.id)) || entries[i].session.expiresAt <= now {
        return Err(PublicationNotCurrent);
      }
      EntryHolds(limits, Abs(), i);
      var pinned, previous := g.(submitted := true), entries[i].session.expiresAt;
      assert !entries[i].session.submitted;
      MoveSession(i, entries[i].session.(submitted := true), previous);
      AgreeOnMaps(Abs(), Abs().(guards := guards[g.id := pinned]), index);
      guards := guards[g.id := pinned];
      return Ok(pinned);
    }

    /** `Vec::partition_point` on targets in ascending order of file offset. */
    method PartitionPoint(issued: seq<LocatedBlock>, size: nat) returns (n: nat)
      requires Contiguous(issued)
      ensures n == Retained(issued, size)
    {
      RetainedExact(issued, size);
      var low, high := 0, |issued|;
      while low < high
        invariant 0 <= low <= Retained(issued, size) <= high <= |issued|
      {
        var middle := (low + high) / 2;
        if issued[middle].fileOffset < size {
          low := middle + 1;
        } else {
          high := middle;
        }
      }
      return low;
    }

    /** `complete_sync_publication`. */
    method CompleteSyncAt(i: InodeId, epoch: LeaseEpoch, id: nat, generation: Generation, size: nat, now: nat)
      returns (r: Result<(), PublicationError>)
      requires Valid()
      modifies this`entries, this`creates, this`index
      ensures Valid()
      ensures (Abs(), r) == SessionSpec.CompleteSyncAt(old(Abs()), i, epoch, id, generation, size, now)
    {
      hide Inv, Agree, SessionSpec.Tidy, WithSession, Retained;
      CompleteSyncAtKeeps(limits, Abs(), i, epoch, id, generation, size, now);
      Tidy(i, now);
      if !(i in entries && entries[i].Active? && entries[i].session.epoch == epoch
           && entries[i].session.publication == Some(id)) {
        return Err(PublicationNotCurrent);
      }
      var s := entries[i].session;
      EntryHolds(limits, Abs(), i);
      if s.generation == generation {
        if s.baseSize != size {
          return Err(SizeChanged);
        }
        ReleaseSync(i, s);
        return Ok(());
      }
      if CheckedNext(s.generation).None? {
        return Err(GenerationOverflow);
      }
      if generation != CheckedNext(s.generation).value {
        return Err(GenerationChanged);
      }
      var kept := PartitionPoint(s.issued, size);
      var synced := s.(issued := s.issued[..kept], steps := KeepSteps(s.steps, kept),
                       generation := generation, baseSize := size);
      ReleaseSync(i, synced);
      return Ok(());
    }

    /** `WritePublication::complete_sync`, then the drop of the consumed guard. */
    method CompleteSync(g: PublicationGuard, generation: Generation, size: nat, now: nat)
      returns (r: Result<(), PublicationError>)
      requires Valid() && Genuine(Abs(), g)
      modifies this`entries, this`creates, this`index
      ensures Valid() && (Abs(), r) == SessionSpec.CompleteSync(old(Abs()), g, generation, size, now)
    {
      hide Inv, Agree, SessionSpec.CompleteSyncAt;
      CompleteSyncAtKeeps(limits, Abs(), g.session.inode, g.session.epoch, g.id, generation, size, now);
      r := CompleteSyncAt(g.session.inode, g.session.epoch, g.id, generation, size, now);
      if r.Err? {
        DropPublication(g);
      }
    }

    /** Dropping a `WritePublication`. */
    method DropPublication(g: PublicationGuard)
      requires Valid() && Genuine(Abs(), g)
      modifies this`entries, this`index
      ensures Valid() && Abs() == SessionSpec.DropPublication(old(Abs()), g)
    {
      hide Inv, Agree, WithSession;
      DropPublicationKeeps(limits, Abs(), g);
      var i := g.session.inode;
      if !g.submitted && i in entries && entries[i].Active? && entries[i].session.epoch == g.session.epoch
         && entries[i].session.publication == Some(g.id) {
        InstallSession(i, entries[i].session.(publication := None));
      }
    }

    /** `WritePublication::complete_commit`. */
    method CompleteCommit(g: PublicationGuard)
      requires Valid()
      modifies this`entries, this`index
      ensures Valid() && Abs() == SessionSpec.CompleteCommit(old(Abs()), g)
    {
      hide Inv, Agree;
      var i := g.session.inode;
      if i in entries && entries[i].Active? && entries[i].session.epoch == g.session.epoch
         && entries[i].session.publication == Some(g.id) {
        DiscardEntry(i);
      }
    }

    // ---- Lookup and renewal ---------------------------------------------------

    method GetSession(i: InodeId, now: nat) returns (r: Option<WriteSession>)
      requires Valid()
      modifies this`entries, this`creates, this`index
      ensures Valid() && (Abs(), r) == SessionSpec.GetSession(old(Abs()), i, now)
    {
      hide Inv, Agree, SessionSpec.Tidy;
      Tidy(i, now);
      return if i in entries && entries[i].Active? then Some(entries[i].session) else None;
    }

    method RemoveIfEpoch(i: InodeId, epoch: LeaseEpoch) returns (r: Option<WriteSession>)
      requires Valid()
      modifies this`entries, this`index
      ensures Valid() && (Abs(), r) == SessionSpec.RemoveIfEpoch(old(Abs()), i, epoch)
    {
      hide Inv, Agree;
      if !(i in entries && entries[i].Active? && entries[i].session.epoch == epoch) {
        return None;
      }
      var s := entries[i].session;
      DiscardEntry(i);
      return Some(s);
    }

    method ValidateSession(i: InodeId, epoch: LeaseEpoch, now: nat) returns (r: Result<(), SessionError>)
      requires Valid()
      modifies this`entries, this`creates, this`index
      ensures Valid() && (Abs(), r) == SessionSpec.ValidateSession(old(Abs()), i, epoch, now)
    {
      hide Inv, Agree, Sweep;
      if i in entries && entries[i].ExpiresAt() <= now {
        var _ := RetireExpiredEntryForInode(i, now);
        return Err(SessionExpired);
      }
      var _ := RetireExpiredEntries(now);
      if !(i in entries && entries[i].Active?) {
        return Err(NotFound);
      }
      if entries[i].session.epoch != epoch {
        return Err(LeaseEpochMismatch(entries[i].session.epoch, epoch));
      }
      return Ok(());
    }

    method RenewSession(i: InodeId, epoch: LeaseEpoch, client: ClientId, now: nat)
      returns (r: Result<nat, SessionError>)
      requires Valid()
      modifies this`entries, this`creates, this`index
      ensures Valid() && (Abs(), r) == SessionSpec.RenewSession(limits, old(Abs()), i, epoch, client, now)
    {
      hide Inv, Agree, SessionSpec.ValidateSession;
      RenewSessionKeeps(limits, Abs(), i, epoch, client, now);
      ValidatedPresent(Abs(), i, epoch, now);
      var valid := ValidateSession(i, epoch, now);
      if valid.Err? {
        return Err(valid.error);
      }
      var s := entries[i].session;
      if s.client != client {
        return Err(OwnerMismatch);
      }
      EntryHolds(limits, Abs(), i);
      var granted := SaturatingAdd(now, limits.ttl);
      var expiresAt := if granted < s.expiresAt then s.expiresAt else granted;
      if s.submitted {
        UpdateSession(i, s.(expiresAt := expiresAt));
      } else {
        MoveSession(i, s.(expiresAt := expiresAt), s.expiresAt);
      }
      return Ok(expiresAt);
    }

    /** `record_session_gauges`. */
    method SessionGauges() returns (opening: nat, active: nat)
      requires Valid()
      ensures opening == Sum(entries, IsOpening()) + |creates| && active == Sum(entries, IsActive())
    {
      hide Inv;
      OpeningsWithinEntries(Abs(), index);
      opening := index.openings + |creates|;
      active := |entries| - index.openings;
    }

    /** `record_write_target_gauges`. */
    method TargetGauges() returns (pending: nat, issued: nat)
      requires Valid()
      ensures pending == Sum(entries, PendingTargets()) && issued == Sum(entries, IssuedTargets())
    {
      hide Inv;
      PendingWithinOutstanding(Abs(), index);
      pending := index.pending;
      issued := index.outstanding - index.pending;
    }

    /** `retire_expired_batch`. */
    method RetireExpiredBatch(now: nat) returns (retired: nat)
      requires Valid()
      modifies this`entries, this`creates, this`index
      ensures Valid() && Abs() == Sweep(old(Abs()), now, SWEEP_BUDGET)
      ensures Swept(old(Abs()), Abs(), now, SWEEP_BUDGET) && retired == Size(old(Abs())) - Size(Abs())
    {
      hide Inv, Agree, Sweep;
      SweepRetires(Abs(), now, SWEEP_BUDGET);
      retired := RetireExpiredEntries(now);
    }
  }

  lemma NextOffsetKnown(cfg: Limits, s: WriteSession, previous: Option<BlockId>)
    requires AllocateRefusal(cfg, s, previous).None?
    ensures NextOffset(s).Some? && s.pending.None?
  {
  }

  /** The step a pending allocation completes is not in the replay index yet. */
  lemma StepNotIssued(cfg: Limits, p: State, i: InodeId)
    requires Inv(cfg, p) && i in p.entries && p.entries[i].Active? && p.entries[i].session.pending.Some?
    ensures p.entries[i].session.pending.value.previous !in p.entries[i].session.steps
  {
    assert EntryOk(cfg, p, i);
  }

  /** An admissible create operation meets no index entry of another. */
  lemma NotRefused(cfg: Limits, p: State, x: Index, input: BeginCreateInput)
    requires Inv(cfg, p) && Agree(p, x) && CreateRefusal(cfg, p, input).None?
    ensures input.operation !in p.creates
    ensures (input.identity.mount, input.identity.path) !in x.paths && p.nextOpening !in x.operations
  {
    PathIndexed(p, x, input.identity.mount, input.identity.path);
    assert OperationAgrees(p.creates, x.operations, p.nextOpening);
    forall o | o in p.creates ensures p.creates[o].openingId != p.nextOpening {
      assert CreateOk(p, o);
    }
  }

  /** A pending create operation is not yet replayable. */
  lemma PendingNotActive(cfg: Limits, p: State, x: Index, op: OpId)
    requires Inv(cfg, p) && Agree(p, x)
    ensures op in p.creates ==> op !in x.activeCreates
  {
    OperationIndexed(p, x, op);
    if op in x.activeCreates {
      assert ReplaysApart(p, x.activeCreates[op], x.activeCreates[op]);
    }
  }

  lemma ExtendPrefix(chain: seq<InodeId>, k: nat)
    requires k < |chain| && Inode.Distinct(chain)
    ensures chain[k] !in chain[..k]
    ensures forall a :: a in chain[..k + 1] <==> a in chain[..k] || a == chain[k]
  {
    assert chain[..k + 1] == chain[..k] + [chain[k]];
  }
}
