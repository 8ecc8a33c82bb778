/** The derived indexes of the write-session registry and what it means for them to agree
    with a scan of the primary maps. */
module SessionIndex {
  import opened BerylTypes
  import opened MapSums
  import opened SessionSpec
  import opened SessionInvariant

  type PathKey = (MountId, string)

  datatype Index = Index(
    paths: map<PathKey, OpId>,
    operations: map<nat, OpId>,
    createExpiries: set<(nat, nat)>,
    activeCreates: map<OpId, InodeId>,
    openings: nat,
    clients: map<ClientId, nat>,
    activity: map<InodeId, multiset<nat>>,
    expiries: set<(nat, nat)>,
    outstanding: nat,
    pending: nat)

  function KeyOf(c: CreateOpening): PathKey { (c.identity.mount, c.identity.path) }

  function Count(m: map<ClientId, nat>, c: ClientId): nat { if c in m then m[c] else 0 }

  function Increment(m: map<ClientId, nat>, c: ClientId): map<ClientId, nat> { m[c := Count(m, c) + 1] }

  /** `decrement_client_occupancy`: an empty slot is removed. */
  function Decrement(m: map<ClientId, nat>, c: ClientId): map<ClientId, nat>
    requires Count(m, c) > 0
  {
    if m[c] == 1 then m - {c} else m[c := m[c] - 1]
  }

  /** The multiplicity of expiry `t` in the activity of ancestor `a`. */
  function Act(m: map<InodeId, multiset<nat>>, a: InodeId, t: nat): nat { if a in m then m[a][t] else 0 }

  function AddActivity(m: map<InodeId, multiset<nat>>, a: InodeId, t: nat): map<InodeId, multiset<nat>> {
    m[a := (if a in m then m[a] else multiset{}) + multiset{t}]
  }

  /** One expiry less; an ancestor without activity is removed. */
  function SubtractActivity(m: map<InodeId, multiset<nat>>, a: InodeId, t: nat): map<InodeId, multiset<nat>>
    requires Act(m, a, t) > 0
  {
    if m[a] == multiset{t} then m - {a} else m[a := m[a] - multiset{t}]
  }

  ghost predicate NoEmptyActivity(m: map<InodeId, multiset<nat>>) {
    forall a {:trigger m[a]} :: a in m ==> m[a] != multiset{}
  }

  ghost predicate PathAgrees(creates: map<OpId, CreateOpening>, paths: map<PathKey, OpId>, k: PathKey) {
    k in paths ==> paths[k] in creates && KeyOf(creates[paths[k]]) == k
  }

  ghost predicate OperationAgrees(creates: map<OpId, CreateOpening>, operations: map<nat, OpId>, id: nat) {
    id in operations ==> operations[id] in creates && creates[operations[id]].openingId == id
  }

  ghost predicate CreateIndexed(creates: map<OpId, CreateOpening>, x: Index, o: OpId) {
    o in creates ==>
      var c := creates[o];
      && KeyOf(c) in x.paths && x.paths[KeyOf(c)] == o
      && c.openingId in x.operations && x.operations[c.openingId] == o
  }

  /** The indexes derived from create openings alone. */
  ghost predicate CreatesAgree(creates: map<OpId, CreateOpening>, x: Index) {
    && (forall k {:trigger PathAgrees(creates, x.paths, k)} :: PathAgrees(creates, x.paths, k))
    && (forall id {:trigger OperationAgrees(creates, x.operations, id)} :: OperationAgrees(creates, x.operations, id))
    && (forall o {:trigger CreateIndexed(creates, x, o)} :: CreateIndexed(creates, x, o))
    && x.createExpiries == CreateExpiries(creates)
  }

  ghost predicate ReplayAgrees(entries: map<InodeId, Entry>, active: map<OpId, InodeId>, o: OpId) {
    o in active ==> active[o] in entries && entries[active[o]].Replayed() == Some(o)
  }

  ghost predicate ReplayIndexed(entries: map<InodeId, Entry>, active: map<OpId, InodeId>, i: InodeId) {
    i in entries && entries[i].Replayed().Some? ==>
      entries[i].Replayed().value in active && active[entries[i].Replayed().value] == i
  }

  ghost predicate ReplaysAgree(entries: map<InodeId, Entry>, active: map<OpId, InodeId>) {
    && (forall o {:trigger ReplayAgrees(entries, active, o)} :: ReplayAgrees(entries, active, o))
    && (forall i {:trigger ReplayIndexed(entries, active, i)} :: ReplayIndexed(entries, active, i))
  }

  /** The indexes derived from inode entries alone. */
  ghost predicate EntriesAgree(entries: map<InodeId, Entry>, x: Index) {
    && ReplaysAgree(entries, x.activeCreates)
    && x.openings == Sum(entries, IsOpening())
    && x.expiries == EntryExpiries(entries)
    && x.outstanding == Sum(entries, Targets())
    && x.pending == Sum(entries, PendingTargets())
  }

  /** Client occupancy and ancestor activity count both kinds of write. */
  ghost predicate SharedAgree(p: State, x: Index) {
    && (forall c {:trigger Count(x.clients, c)} :: Count(x.clients, c) == ClientCount(p, c))
    && (forall c {:trigger x.clients[c]} :: c in x.clients ==> x.clients[c] > 0)
    && (forall a, t {:trigger Act(x.activity, a, t)} :: Act(x.activity, a, t) == BelowCount(p, a, t))
    && NoEmptyActivity(x.activity)
  }

  ghost predicate Agree(p: State, x: Index) {
    CreatesAgree(p.creates, x) && EntriesAgree(p.entries, x) && SharedAgree(p, x)
  }

  /** The indexes depend on the primary maps alone. */
  lemma AgreeOnMaps(p: State, q: State, x: Index)
    requires Agree(p, x) && q.entries == p.entries && q.creates == p.creates
    ensures Agree(q, x)
  {
    forall c ensures Count(x.clients, c) == ClientCount(q, c) { assert Count(x.clients, c) == ClientCount(p, c); }
    forall a, t ensures Act(x.activity, a, t) == BelowCount(q, a, t) {
      assert Act(x.activity, a, t) == BelowCount(p, a, t);
    }
  }

  /** `after` counts one more write on `chain` retiring at `t`. */
  ghost predicate ActivityPlus(before: map<InodeId, multiset<nat>>, after: map<InodeId, multiset<nat>>,
                               chain: seq<InodeId>, t: nat) {
    && NoEmptyActivity(after)
    && forall a, u {:trigger Act(after, a, u)} :: Act(after, a, u) == Act(before, a, u) + (if a in chain && u == t then 1 else 0)
  }

  /** `after` counts one write on `chain` at `u` instead of `t`. */
  ghost predicate ActivityMoved(before: map<InodeId, multiset<nat>>, after: map<InodeId, multiset<nat>>,
                                chain: seq<InodeId>, t: nat, u: nat) {
    && NoEmptyActivity(after)
    && forall a, v {:trigger Act(after, a, v)} ::
         Act(after, a, v) + (if a in chain && v == t then 1 else 0)
         == Act(before, a, v) + (if a in chain && v == u then 1 else 0)
  }

  // ---- Indexing an entry ------------------------------------------------------

  /** What one more entry adds to every count. */
  lemma EntryCounts(p: State, i: InodeId, e: Entry)
    requires i !in p.entries
    ensures forall c {:trigger ClientCount(WithEntry(p, i, e), c)} ::
              ClientCount(WithEntry(p, i, e), c) == ClientCount(p, c) + (if e.Client() == c then 1 else 0)
    ensures forall a, t {:trigger BelowCount(WithEntry(p, i, e), a, t)} ::
              BelowCount(WithEntry(p, i, e), a, t)
              == BelowCount(p, a, t) + (if a in e.Ancestors() && t == e.Retirement() then 1 else 0)
  {
    forall c ensures ClientCount(WithEntry(p, i, e), c) == ClientCount(p, c) + (if e.Client() == c then 1 else 0) {
      SumInsert(p.entries, i, e, OfClient(c));
    }
    forall a, t
      ensures BelowCount(WithEntry(p, i, e), a, t)
              == BelowCount(p, a, t) + (if a in e.Ancestors() && t == e.Retirement() then 1 else 0)
    {
      SumInsert(p.entries, i, e, Below(a, t));
    }
  }

  /** What one more create opening adds to every count. */
  lemma CreateCounts(p: State, o: OpId, c: CreateOpening)
    requires o !in p.creates
    ensures var q := p.(creates := p.creates[o := c]);
            && (forall x {:trigger ClientCount(q, x)} ::
                  ClientCount(q, x) == ClientCount(p, x) + (if c.client == x then 1 else 0))
            && (forall a, t {:trigger BelowCount(q, a, t)} ::
                  BelowCount(q, a, t) == BelowCount(p, a, t) + (if a in c.ancestors && t == c.expiresAt then 1 else 0))
  {
    var q := p.(creates := p.creates[o := c]);
    forall x ensures ClientCount(q, x) == ClientCount(p, x) + (if c.client == x then 1 else 0) {
      SumInsert(p.creates, o, c, CreateOfClient(x));
    }
    forall a, t
      ensures BelowCount(q, a, t) == BelowCount(p, a, t) + (if a in c.ancestors && t == c.expiresAt then 1 else 0)
    {
      SumInsert(p.creates, o, c, CreateBelow(a, t));
    }
  }

  lemma EntryInserted(entries: map<InodeId, Entry>, x: Index, y: Index, i: InodeId, e: Entry)
    requires EntriesAgree(entries, x) && i !in entries
    requires e.Replayed().Some? ==> e.Replayed().value !in x.activeCreates
    requires y.activeCreates ==
             if e.Replayed().Some? then x.activeCreates[e.Replayed().value := i] else x.activeCreates
    requires y.openings == x.openings + (if e.Opening? then 1 else 0)
    requires y.expiries == x.expiries + {(e.Retirement(), i)}
    requires y.outstanding == x.outstanding + e.Owned() && y.pending == x.pending + e.PendingCount()
    ensures EntriesAgree(entries[i := e], y)
  {
    hide ReplaysAgree;
    SumInsert(entries, i, e, IsOpening());
    SumInsert(entries, i, e, Targets());
    SumInsert(entries, i, e, PendingTargets());
    ExpiryInserted(entries, i, e);
    ReplaysInserted(entries, x.activeCreates, y.activeCreates, i, e);
  }

  lemma ReplaysInserted(entries: map<InodeId, Entry>, active: map<OpId, InodeId>, active': map<OpId, InodeId>,
                        i: InodeId, e: Entry)
    requires ReplaysAgree(entries, active) && i !in entries
    requires e.Replayed().Some? ==> e.Replayed().value !in active
    requires active' == if e.Replayed().Some? then active[e.Replayed().value := i] else active
    ensures ReplaysAgree(entries[i := e], active')
  {
    var next := entries[i := e];
    forall o ensures ReplayAgrees(next, active', o) { assert ReplayAgrees(entries, active, o); }
    forall j ensures ReplayIndexed(next, active', j) { assert ReplayIndexed(entries, active, j); }
  }

  lemma EntryRemoved(entries: map<InodeId, Entry>, x: Index, y: Index, i: InodeId)
    requires EntriesAgree(entries, x) && i in entries
    requires var e := entries[i];
             && y.activeCreates == (if e.Replayed().Some? then x.activeCreates - {e.Replayed().value} else x.activeCreates)
             && x.openings == y.openings + (if e.Opening? then 1 else 0)
             && y.expiries == x.expiries - {(e.Retirement(), i)}
             && x.outstanding == y.outstanding + e.Owned() && x.pending == y.pending + e.PendingCount()
    ensures EntriesAgree(entries - {i}, y)
  {
    hide ReplaysAgree;
    SumSplit(entries, i, IsOpening());
    SumSplit(entries, i, Targets());
    SumSplit(entries, i, PendingTargets());
    ExpiryInserted(entries - {i}, i, entries[i]);
    assert (entries - {i})[i := entries[i]] == entries;
    ReplaysRemoved(entries, x.activeCreates, i);
  }

  lemma ReplaysRemoved(entries: map<InodeId, Entry>, active: map<OpId, InodeId>, i: InodeId)
    requires ReplaysAgree(entries, active) && i in entries
    ensures var op := entries[i].Replayed();
            ReplaysAgree(entries - {i}, if op.Some? then active - {op.value} else active)
  {
    var op := entries[i].Replayed();
    var next, active' := entries - {i}, if op.Some? then active - {op.value} else active;
    assert ReplayIndexed(entries, active, i);
    forall o ensures ReplayAgrees(next, active', o) { assert ReplayAgrees(entries, active, o); }
    forall j ensures ReplayIndexed(next, active', j) { assert ReplayIndexed(entries, active, j); }
  }

  /** Replacing an entry by one of the same owner moves only its expiry and its totals. */
  lemma EntryReplaced(entries: map<InodeId, Entry>, x: Index, y: Index, i: InodeId, e: Entry)
    requires EntriesAgree(entries, x) && i in entries && e.Replayed() == entries[i].Replayed()
    requires y.activeCreates == x.activeCreates
    requires y.openings + (if entries[i].Opening? then 1 else 0) == x.openings + (if e.Opening? then 1 else 0)
    requires y.expiries == x.expiries - {(entries[i].Retirement(), i)} + {(e.Retirement(), i)}
    requires y.outstanding + entries[i].Owned() == x.outstanding + e.Owned()
    requires y.pending + entries[i].PendingCount() == x.pending + e.PendingCount()
    ensures EntriesAgree(entries[i := e], y)
  {
    hide ReplaysAgree;
    SumReplace(entries, i, e, IsOpening());
    SumReplace(entries, i, e, Targets());
    SumReplace(entries, i, e, PendingTargets());
    ExpiryReplaced(entries, i, e);
    ReplaysKept(entries, x.activeCreates, i, e);
  }

  lemma ReplaysKept(entries: map<InodeId, Entry>, active: map<OpId, InodeId>, i: InodeId, e: Entry)
    requires ReplaysAgree(entries, active) && i in entries && e.Replayed() == entries[i].Replayed()
    ensures ReplaysAgree(entries[i := e], active)
  {
    var next := entries[i := e];
    forall o ensures ReplayAgrees(next, active, o) { assert ReplayAgrees(entries, active, o); }
    forall j ensures ReplayIndexed(next, active, j) { assert ReplayIndexed(entries, active, j); }
  }

  lemma ExpiryInserted(entries: map<InodeId, Entry>, i: InodeId, e: Entry)
    requires i !in entries
    ensures EntryExpiries(entries[i := e]) == EntryExpiries(entries) + {(e.Retirement(), i)}
    ensures (e.Retirement(), i) !in EntryExpiries(entries)
  {
    var next := entries[i := e];
    forall y ensures y in EntryExpiries(next) <==> y in EntryExpiries(entries) + {(e.Retirement(), i)} {
      assert y.1 == i ==> (y == (e.Retirement(), i) <==> y.0 == e.Retirement());
    }
  }

  lemma ExpiryReplaced(entries: map<InodeId, Entry>, i: InodeId, e: Entry)
    requires i in entries
    ensures EntryExpiries(entries[i := e])
            == EntryExpiries(entries) - {(entries[i].Retirement(), i)} + {(e.Retirement(), i)}
  {
    var next := entries[i := e];
    forall y ensures y in EntryExpiries(next)
                     <==> y in EntryExpiries(entries) - {(entries[i].Retirement(), i)} + {(e.Retirement(), i)}
    {
      assert y.1 == i ==> (y == (e.Retirement(), i) <==> y.0 == e.Retirement());
    }
  }

  lemma SharedInserted(p: State, x: Index, y: Index, i: InodeId, e: Entry)
    requires SharedAgree(p, x) && i !in p.entries
    requires y.clients == Increment(x.clients, e.Client())
    requires ActivityPlus(x.activity, y.activity, e.Ancestors(), e.Retirement())
    ensures SharedAgree(WithEntry(p, i, e), y)
  {
    EntryCounts(p, i, e);
    var q := WithEntry(p, i, e);
    forall c ensures Count(y.clients, c) == ClientCount(q, c) {
      assert Count(x.clients, c) == ClientCount(p, c);
    }
    forall a, t ensures Act(y.activity, a, t) == BelowCount(q, a, t) {
      assert Act(x.activity, a, t) == BelowCount(p, a, t);
    }
  }

  lemma SharedRemoved(p: State, x: Index, y: Index, i: InodeId)
    requires SharedAgree(p, x) && i in p.entries
    requires Count(x.clients, p.entries[i].Client()) > 0 && y.clients == Decrement(x.clients, p.entries[i].Client())
    requires NoEmptyActivity(y.activity)
    requires ActivityPlus(y.activity, x.activity, p.entries[i].Ancestors(), p.entries[i].Retirement())
    ensures SharedAgree(WithoutEntry(p, i), y)
  {
    var q, e := WithoutEntry(p, i), p.entries[i];
    EntryCounts(q, i, e);
    assert WithEntry(q, i, e) == p by { assert q.entries[i := e] == p.entries; }
    forall c ensures Count(y.clients, c) == ClientCount(q, c) {
      assert Count(x.clients, c) == ClientCount(p, c);
    }
    forall a, t ensures Act(y.activity, a, t) == BelowCount(q, a, t) {
      assert Act(x.activity, a, t) == BelowCount(p, a, t);
    }
  }

  // ---- Indexing a create opening ----------------------------------------------

  lemma CreateInserted(creates: map<OpId, CreateOpening>, x: Index, y: Index, c: CreateOpening)
    requires CreatesAgree(creates, x) && c.operation !in creates
    requires KeyOf(c) !in x.paths && c.openingId !in x.operations
    requires y.paths == x.paths[KeyOf(c) := c.operation]
    requires y.operations == x.operations[c.openingId := c.operation]
    requires y.createExpiries == x.createExpiries + {Deadline(c)}
    ensures CreatesAgree(creates[c.operation := c], y)
  {
    var next := creates[c.operation := c];
    DeadlineInserted(creates, c);
    forall k ensures PathAgrees(next, y.paths, k) { assert PathAgrees(creates, x.paths, k); }
    forall id ensures OperationAgrees(next, y.operations, id) { assert OperationAgrees(creates, x.operations, id); }
    forall o ensures CreateIndexed(next, y, o) { assert CreateIndexed(creates, x, o); }
  }

  lemma DeadlineInserted(creates: map<OpId, CreateOpening>, c: CreateOpening)
    requires c.operation !in creates
    ensures CreateExpiries(creates[c.operation := c]) == CreateExpiries(creates) + {Deadline(c)}
  {
    var next := creates[c.operation := c];
    forall y | y in CreateExpiries(creates) + {Deadline(c)} ensures y in CreateExpiries(next) {
      if y == Deadline(c) {
        assert next[c.operation] == c;
      } else {
        var o :| o in creates && y == Deadline(creates[o]);
        assert o in next && next[o] == creates[o];
      }
    }
  }

  lemma CreateRemoved(creates: map<OpId, CreateOpening>, x: Index, y: Index, op: OpId)
    requires CreatesAgree(creates, x) && op in creates
    requires y.paths == x.paths - {KeyOf(creates[op])}
    requires y.operations == x.operations - {creates[op].openingId}
    requires y.createExpiries == x.createExpiries - {Deadline(creates[op])}
    ensures CreatesAgree(creates - {op}, y)
  {
    var next := creates - {op};
    CreateExpiryRemoved(creates, x, op);
    forall k ensures PathAgrees(next, y.paths, k) {
      assert PathAgrees(creates, x.paths, k) && CreateIndexed(creates, x, op);
    }
    forall id ensures OperationAgrees(next, y.operations, id) {
      assert OperationAgrees(creates, x.operations, id) && CreateIndexed(creates, x, op);
    }
    forall o ensures CreateIndexed(next, y, o) {
      assert CreateIndexed(creates, x, o) && CreateIndexed(creates, x, op);
    }
  }

  lemma CreateExpiryRemoved(creates: map<OpId, CreateOpening>, x: Index, op: OpId)
    requires CreatesAgree(creates, x) && op in creates
    ensures CreateExpiries(creates - {op}) == CreateExpiries(creates) - {Deadline(creates[op])}
  {
    assert CreateIndexed(creates, x, op);
    var rest := creates - {op};
    forall y | y in CreateExpiries(creates) - {Deadline(creates[op])} ensures y in CreateExpiries(rest) {
      var o :| o in creates && y == Deadline(creates[o]);
      assert o in rest && rest[o] == creates[o];
    }
    forall y | y in CreateExpiries(rest) ensures y in CreateExpiries(creates) && y != Deadline(creates[op]) {
      var o :| o in rest && y == Deadline(rest[o]);
      assert o in creates && CreateIndexed(creates, x, o);
    }
  }

  lemma SharedCreateInserted(p: State, x: Index, y: Index, c: CreateOpening)
    requires SharedAgree(p, x) && c.operation !in p.creates
    requires y.clients == Increment(x.clients, c.client)
    requires ActivityPlus(x.activity, y.activity, c.ancestors, c.expiresAt)
    ensures SharedAgree(p.(creates := p.creates[c.operation := c]), y)
  {
    CreateCounts(p, c.operation, c);
    var q := p.(creates := p.creates[c.operation := c]);
    forall k ensures Count(y.clients, k) == ClientCount(q, k) {
      assert Count(x.clients, k) == ClientCount(p, k);
    }
    forall a, t ensures Act(y.activity, a, t) == BelowCount(q, a, t) {
      assert Act(x.activity, a, t) == BelowCount(p, a, t);
    }
  }

  lemma SharedCreateRemoved(p: State, x: Index, y: Index, o: OpId)
    requires SharedAgree(p, x) && o in p.creates
    requires Count(x.clients, p.creates[o].client) > 0 && y.clients == Decrement(x.clients, p.creates[o].client)
    requires NoEmptyActivity(y.activity)
    requires ActivityPlus(y.activity, x.activity, p.creates[o].ancestors, p.creates[o].expiresAt)
    ensures SharedAgree(WithoutCreate(p, o), y)
  {
    var q, c := WithoutCreate(p, o), p.creates[o];
    CreateCounts(q, o, c);
    assert q.(creates := q.creates[o := c]) == p by { assert q.creates[o := c] == p.creates; }
    forall k ensures Count(y.clients, k) == ClientCount(q, k) {
      assert Count(x.clients, k) == ClientCount(p, k);
    }
    forall a, t ensures Act(y.activity, a, t) == BelowCount(q, a, t) {
      assert Act(x.activity, a, t) == BelowCount(p, a, t);
    }
  }

  /** Moving a write from one retirement to another. */
  lemma SharedMoved(p: State, x: Index, y: Index, i: InodeId, e: Entry)
    requires SharedAgree(p, x) && i in p.entries
    requires e.Client() == p.entries[i].Client() && e.Ancestors() == p.entries[i].Ancestors()
    requires y.clients == x.clients
    requires ActivityMoved(x.activity, y.activity, e.Ancestors(), p.entries[i].Retirement(), e.Retirement())
    ensures SharedAgree(WithEntry(p, i, e), y)
  {
    var r := WithEntry(p, i, e);
    forall c ensures Count(y.clients, c) == ClientCount(r, c) {
      assert Count(x.clients, c) == ClientCount(p, c);
      SumReplace(p.entries, i, e, OfClient(c));
    }
    forall a, t ensures Act(y.activity, a, t) == BelowCount(r, a, t) {
      assert Act(x.activity, a, t) == BelowCount(p, a, t);
      SumReplace(p.entries, i, e, Below(a, t));
    }
  }

  /** An entry that keeps its owner and retirement keeps every shared count. */
  lemma SharedKept(p: State, x: Index, i: InodeId, e: Entry)
    requires SharedAgree(p, x) && i in p.entries
    requires e.Client() == p.entries[i].Client() && e.Ancestors() == p.entries[i].Ancestors()
    requires e.Retirement() == p.entries[i].Retirement()
    ensures SharedAgree(WithEntry(p, i, e), x)
  {
    var r := WithEntry(p, i, e);
    forall c ensures Count(x.clients, c) == ClientCount(r, c) {
      SumReplace(p.entries, i, e, OfClient(c));
    }
    forall a, t ensures Act(x.activity, a, t) == BelowCount(r, a, t) {
      SumReplace(p.entries, i, e, Below(a, t));
    }
  }

  // ---- Whole-index steps ------------------------------------------------------

  predicate SameCreateIndexes(x: Index, y: Index) {
    y.paths == x.paths && y.operations == x.operations && y.createExpiries == x.createExpiries
  }

  lemma SameCreates(creates: map<OpId, CreateOpening>, x: Index, y: Index)
    requires CreatesAgree(creates, x) && SameCreateIndexes(x, y)
    ensures CreatesAgree(creates, y)
  {
    forall o ensures CreateIndexed(creates, y, o) { assert CreateIndexed(creates, x, o); }
  }

  /** The entry indexes of `y` are those of `x` with `e` indexed under `i`. */
  predicate EntryIndexed(x: Index, y: Index, i: InodeId, e: Entry) {
    && y.activeCreates == (if e.Replayed().Some? then x.activeCreates[e.Replayed().value := i] else x.activeCreates)
    && y.openings == x.openings + (if e.Opening? then 1 else 0)
    && y.expiries == x.expiries + {(e.Retirement(), i)}
    && y.outstanding == x.outstanding + e.Owned() && y.pending == x.pending + e.PendingCount()
  }

  lemma InsertAgrees(p: State, x: Index, y: Index, i: InodeId, e: Entry)
    requires Agree(p, x) && i !in p.entries
    requires e.Replayed().Some? ==> e.Replayed().value !in x.activeCreates
    requires SameCreateIndexes(x, y) && EntryIndexed(x, y, i, e)
    requires y.clients == Increment(x.clients, e.Client())
    requires ActivityPlus(x.activity, y.activity, e.Ancestors(), e.Retirement())
    ensures Agree(WithEntry(p, i, e), y)
  {
    EntryInserted(p.entries, x, y, i, e);
    SharedInserted(p, x, y, i, e);
    SameCreates(p.creates, x, y);
  }

  predicate EntryUnindexed(x: Index, y: Index, i: InodeId, e: Entry) {
    && y.activeCreates == (if e.Replayed().Some? then x.activeCreates - {e.Replayed().value} else x.activeCreates)
    && x.openings == y.openings + (if e.Opening? then 1 else 0)
    && y.expiries == x.expiries - {(e.Retirement(), i)}
    && x.outstanding == y.outstanding + e.Owned() && x.pending == y.pending + e.PendingCount()
  }

  lemma RemoveAgrees(p: State, x: Index, y: Index, i: InodeId)
    requires Agree(p, x) && i in p.entries
    requires SameCreateIndexes(x, y) && EntryUnindexed(x, y, i, p.entries[i])
    requires Count(x.clients, p.entries[i].Client()) > 0 && y.clients == Decrement(x.clients, p.entries[i].Client())
    requires NoEmptyActivity(y.activity)
    requires ActivityPlus(y.activity, x.activity, p.entries[i].Ancestors(), p.entries[i].Retirement())
    ensures Agree(WithoutEntry(p, i), y)
  {
    EntryRemoved(p.entries, x, y, i);
    SharedRemoved(p, x, y, i);
    SameCreates(p.creates, x, y);
  }

  /** What an entry contributes to the indexes, so that removing it cannot miss anything. */
  lemma EntryContributes(p: State, x: Index, i: InodeId)
    requires Agree(p, x) && i in p.entries
    ensures var e := p.entries[i];
            && Count(x.clients, e.Client()) > 0
            && (e.Replayed().Some? ==> e.Replayed().value in x.activeCreates && x.activeCreates[e.Replayed().value] == i)
            && (e.Opening? ==> x.openings > 0)
            && (e.Retirement(), i) in x.expiries
            && e.Owned() <= x.outstanding && e.PendingCount() <= x.pending
            && (forall a :: a in e.Ancestors() ==> Act(x.activity, a, e.Retirement()) > 0)
  {
    var e := p.entries[i];
    SumSplit(p.entries, i, OfClient(e.Client()));
    SumSplit(p.entries, i, IsOpening());
    SumSplit(p.entries, i, Targets());
    SumSplit(p.entries, i, PendingTargets());
    assert Count(x.clients, e.Client()) == ClientCount(p, e.Client());
    assert ReplayIndexed(p.entries, x.activeCreates, i);
    forall a | a in e.Ancestors() ensures Act(x.activity, a, e.Retirement()) > 0 {
      SumSplit(p.entries, i, Below(a, e.Retirement()));
    }
  }

  lemma CreateContributes(p: State, x: Index, o: OpId)
    requires Agree(p, x) && o in p.creates
    ensures var c := p.creates[o];
            && Count(x.clients, c.client) > 0
            && KeyOf(c) in x.paths && x.paths[KeyOf(c)] == o
            && c.openingId in x.operations && x.operations[c.openingId] == o
            && Deadline(c) in x.createExpiries
            && (forall a :: a in c.ancestors ==> Act(x.activity, a, c.expiresAt) > 0)
  {
    var c := p.creates[o];
    SumSplit(p.creates, o, CreateOfClient(c.client));
    assert Count(x.clients, c.client) == ClientCount(p, c.client);
    assert CreateIndexed(p.creates, x, o);
    forall a | a in c.ancestors ensures Act(x.activity, a, c.expiresAt) > 0 {
      SumSplit(p.creates, o, CreateBelow(a, c.expiresAt));
    }
  }

  /** The create expiry index leads back to exactly one operation. */
  lemma CreateAt(creates: map<OpId, CreateOpening>, x: Index, d: (nat, nat))
    requires CreatesAgree(creates, x) && d in x.createExpiries
    ensures d.1 in x.operations && x.operations[d.1] in creates && Deadline(creates[x.operations[d.1]]) == d
    ensures forall o :: o in creates && Deadline(creates[o]) == d ==> o == x.operations[d.1]
  {
    forall o | o in creates && Deadline(creates[o]) == d
      ensures d.1 in x.operations && o == x.operations[d.1]
    {
      assert CreateIndexed(creates, x, o);
    }
  }

  /** An identity that is not in use has no expiry entry. */
  lemma DeadlineNew(creates: map<OpId, CreateOpening>, x: Index, c: CreateOpening)
    requires CreatesAgree(creates, x) && c.openingId !in x.operations
    ensures Deadline(c) !in x.createExpiries
  {
    if Deadline(c) in x.createExpiries {
      CreateAt(creates, x, Deadline(c));
    }
  }

  /** The sweep's choice, read off the two ordered expiry indexes. */
  ghost function IndexedVictim(x: Index, now: nat): Victim
    requires forall d :: d in x.createExpiries ==> d.1 in x.operations
  {
    var es, cs := x.expiries, x.createExpiries;
    if cs != {} && (es == {} || First(cs).0 < First(es).0) then
      if First(cs).0 > now then NoVictim else CreateVictim(x.operations[First(cs).1])
    else if es != {} && First(es).0 <= now then SessionVictim(First(es).1)
    else NoVictim
  }

  lemma VictimIndexed(p: State, x: Index, now: nat)
    requires Agree(p, x)
    ensures forall d :: d in x.createExpiries ==> d.1 in x.operations
    ensures NextVictim(p, now) == IndexedVictim(x, now)
  {
    forall d | d in x.createExpiries ensures d.1 in x.operations {
      CreateAt(p.creates, x, d);
    }
    if x.createExpiries != {} {
      CreateAt(p.creates, x, First(x.createExpiries));
    }
  }

  lemma ClientIndexed(p: State, x: Index, c: ClientId)
    requires Agree(p, x)
    ensures Count(x.clients, c) == ClientCount(p, c)
  {
  }

  lemma OutstandingIndexed(p: State, x: Index)
    requires Agree(p, x)
    ensures x.outstanding == Outstanding(p)
  {
  }

  /** Entries that the opening counter leaves are the active ones, so it never exceeds them. */
  lemma OpeningsWithinEntries(p: State, x: Index)
    requires Agree(p, x)
    ensures x.openings + Sum(p.entries, IsActive()) == |p.entries|
  {
    var one: Entry -> nat := (e: Entry) => 1;
    SumAdd(p.entries, one, IsOpening(), IsActive());
    SumOnes(p.entries, one);
  }

  /** Outstanding targets that the pending counter leaves are the issued ones, so it never
      exceeds them. */
  lemma PendingWithinOutstanding(p: State, x: Index)
    requires Agree(p, x)
    ensures x.outstanding == x.pending + Sum(p.entries, IssuedTargets())
  {
    SumAdd(p.entries, Targets(), PendingTargets(), IssuedTargets());
  }

  /** A path key is indexed exactly when some create opening holds the path. */
  lemma PathIndexed(p: State, x: Index, mount: MountId, path: string)
    requires Agree(p, x)
    ensures (mount, path) in x.paths <==> PathHeld(p, mount, path)
  {
    assert PathAgrees(p.creates, x.paths, (mount, path));
    if PathHeld(p, mount, path) {
      var o :| o in p.creates && p.creates[o].identity.mount == mount && p.creates[o].identity.path == path;
      assert CreateIndexed(p.creates, x, o);
    }
  }

  /** An operation is indexed exactly under the session that replays it. */
  lemma OperationIndexed(p: State, x: Index, o: OpId)
    requires Agree(p, x)
    ensures o in x.activeCreates ==> ReplayHeld(p, o, x.activeCreates[o])
    ensures forall i :: ReplayHeld(p, o, i) ==> o in x.activeCreates && x.activeCreates[o] == i
  {
    assert ReplayAgrees(p.entries, x.activeCreates, o);
    forall i | ReplayHeld(p, o, i) ensures o in x.activeCreates && x.activeCreates[o] == i {
      assert ReplayIndexed(p.entries, x.activeCreates, i);
    }
  }

  /** An expiry is mirrored for an ancestor exactly while a write below it retires then. */
  lemma ActivityAt(p: State, x: Index, a: InodeId, t: nat)
    requires SharedAgree(p, x)
    ensures a in x.activity && t in x.activity[a] <==>
            || (exists i :: i in p.entries && a in p.entries[i].Ancestors() && p.entries[i].Retirement() == t)
            || (exists o :: o in p.creates && a in p.creates[o].ancestors && p.creates[o].expiresAt == t)
  {
    assert Act(x.activity, a, t) == BelowCount(p, a, t);
    SumPositive(p.entries, Below(a, t));
    SumPositive(p.creates, CreateBelow(a, t));
    assert forall i :: i in p.entries ==>
        (Below(a, t)(p.entries[i]) > 0 <==> a in p.entries[i].Ancestors() && p.entries[i].Retirement() == t);
    assert forall o :: o in p.creates ==>
        (CreateBelow(a, t)(p.creates[o]) > 0 <==> a in p.creates[o].ancestors && p.creates[o].expiresAt == t);
  }

  /** Whether a later expiry is mirrored answers whether a write is active below an inode. */
  lemma ActivityIndexed(p: State, x: Index, a: InodeId, now: nat)
    requires SharedAgree(p, x)
    ensures (exists t :: a in x.activity && t in x.activity[a] && t > now) <==> ActiveUnder(p, a, now)
  {
    forall t ensures a in x.activity && t in x.activity[a] <==>
            || (exists i :: i in p.entries && a in p.entries[i].Ancestors() && p.entries[i].Retirement() == t)
            || (exists o :: o in p.creates && a in p.creates[o].ancestors && p.creates[o].expiresAt == t)
    {
      ActivityAt(p, x, a, t);
    }
    hide SharedAgree;
    if i :| i in p.entries && a in p.entries[i].Ancestors() && p.entries[i].Retirement() > now {
      ActivityAt(p, x, a, p.entries[i].Retirement());
    }
    if o :| o in p.creates && a in p.creates[o].ancestors && p.creates[o].expiresAt > now {
      ActivityAt(p, x, a, p.creates[o].expiresAt);
    }
  }

  predicate SameEntryIndexes(x: Index, y: Index) {
    && y.activeCreates == x.activeCreates && y.openings == x.openings && y.expiries == x.expiries
    && y.outstanding == x.outstanding && y.pending == x.pending
  }

  lemma SameEntries(entries: map<InodeId, Entry>, x: Index, y: Index)
    requires EntriesAgree(entries, x) && SameEntryIndexes(x, y)
    ensures EntriesAgree(entries, y)
  {
  }

  lemma InsertCreateAgrees(p: State, x: Index, y: Index, c: CreateOpening)
    requires Agree(p, x) && c.operation !in p.creates && KeyOf(c) !in x.paths && c.openingId !in x.operations
    requires SameEntryIndexes(x, y)
    requires y.paths == x.paths[KeyOf(c) := c.operation] && y.operations == x.operations[c.openingId := c.operation]
    requires y.createExpiries == x.createExpiries + {Deadline(c)}
    requires y.clients == Increment(x.clients, c.client)
    requires ActivityPlus(x.activity, y.activity, c.ancestors, c.expiresAt)
    ensures Agree(p.(creates := p.creates[c.operation := c]), y)
  {
    CreateInserted(p.creates, x, y, c);
    SharedCreateInserted(p, x, y, c);
    SameEntries(p.entries, x, y);
  }

  lemma RemoveCreateAgrees(p: State, x: Index, y: Index, o: OpId)
    requires Agree(p, x) && o in p.creates && SameEntryIndexes(x, y)
    requires y.paths == x.paths - {KeyOf(p.creates[o])} && y.operations == x.operations - {p.creates[o].openingId}
    requires y.createExpiries == x.createExpiries - {Deadline(p.creates[o])}
    requires Count(x.clients, p.creates[o].client) > 0 && y.clients == Decrement(x.clients, p.creates[o].client)
    requires NoEmptyActivity(y.activity)
    requires ActivityPlus(y.activity, x.activity, p.creates[o].ancestors, p.creates[o].expiresAt)
    ensures Agree(WithoutCreate(p, o), y)
  {
    CreateRemoved(p.creates, x, y, o);
    SharedCreateRemoved(p, x, y, o);
    SameEntries(p.entries, x, y);
  }

  /** The totals of `y` are those of `x` with `d` replaced by `e`. */
  predicate TotalsReplaced(x: Index, y: Index, d: Entry, e: Entry) {
    && y.activeCreates == x.activeCreates
    && y.openings + (if d.Opening? then 1 else 0) == x.openings + (if e.Opening? then 1 else 0)
    && y.outstanding + d.Owned() == x.outstanding + e.Owned()
    && y.pending + d.PendingCount() == x.pending + e.PendingCount()
  }

  /** Continuation state changed, retirement did not: only the totals follow. */
  lemma ReplaceAgrees(p: State, x: Index, y: Index, i: InodeId, e: Entry)
    requires Agree(p, x) && i in p.entries && SameOwner(p.entries[i], e)
    requires e.Retirement() == p.entries[i].Retirement()
    requires SameCreateIndexes(x, y) && TotalsReplaced(x, y, p.entries[i], e)
    requires y.expiries == x.expiries && y.clients == x.clients && y.activity == x.activity
    ensures Agree(WithEntry(p, i, e), y)
  {
    EntryReplaced(p.entries, x, y, i, e);
    SharedKept(p, x, i, e);
    SameCreates(p.creates, x, y);
  }

  /** Retirement moved as well. */
  lemma MoveAgrees(p: State, x: Index, y: Index, i: InodeId, e: Entry)
    requires Agree(p, x) && i in p.entries && SameOwner(p.entries[i], e)
    requires SameCreateIndexes(x, y) && TotalsReplaced(x, y, p.entries[i], e)
    requires y.expiries == x.expiries - {(p.entries[i].Retirement(), i)} + {(e.Retirement(), i)}
    requires y.clients == x.clients
    requires ActivityMoved(x.activity, y.activity, e.Ancestors(), p.entries[i].Retirement(), e.Retirement())
    ensures Agree(WithEntry(p, i, e), y)
  {
    EntryReplaced(p.entries, x, y, i, e);
    SharedMoved(p, x, y, i, e);
    SameCreates(p.creates, x, y);
  }
}
