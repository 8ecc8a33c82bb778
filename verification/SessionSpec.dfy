/** The leader-local write-session registry as a reader of its two primary maps sees it.

    Every operation of the registry is one function from state to state. All questions that
    the implementation answers from a derived index (is the path held, how many sessions
    does this client own, what expires first, is anything active below this inode) are
    answered here by scanning the primary maps. `SessionRegistry` proves that the indexed
    implementation computes exactly these functions. */
module SessionSpec {
  import opened BerylTypes
  import opened MapSums
  import Inode

  const SWEEP_BUDGET: nat := 64
  const MAX_PATH_COMPONENTS: nat := 256

  datatype Limits = Limits(
    maxSessions: nat, maxPerClient: nat, maxTargets: nat, maxPerSession: nat, ttl: nat)

  /** What `SessionRegistry::new` asserts. */
  predicate LimitsValid(cfg: Limits) {
    && 0 < cfg.maxPerClient <= cfg.maxSessions
    && 0 < cfg.maxPerSession <= cfg.maxTargets
  }

  // ---- Sessions ---------------------------------------------------------------

  datatype OpId = OpId(client: ClientId, call: nat)

  datatype CreateResponse = CreateResponse(
    inode: InodeId, epoch: LeaseEpoch, layout: FileLayout, expiresAt: nat, generation: Generation)

  /** The request identity that an exact CreateFile retry must repeat. */
  datatype CreateIdentity = CreateIdentity(
    deadline: nat, path: string, mount: MountId, mountEpoch: nat, mountRoot: InodeId)

  datatype CreateReplay = CreateReplay(operation: OpId, identity: CreateIdentity, response: CreateResponse)

  datatype Pending = Pending(previous: Option<BlockId>)

  datatype WriteSession = WriteSession(
    inode: InodeId,
    mount: MountId,
    epoch: LeaseEpoch,
    baseSize: nat,
    generation: Generation,
    mode: WriteMode,
    client: ClientId,
    layout: FileLayout,
    expiresAt: nat,
    ancestors: seq<InodeId>,
    issued: seq<LocatedBlock>,
    steps: map<Option<BlockId>, nat>,
    pending: Option<Pending>,
    publication: Option<nat>,
    submitted: bool,
    replay: Option<CreateReplay>)

  datatype OpeningSession = OpeningSession(
    openingId: nat,
    inode: InodeId,
    mount: MountId,
    proposedEpoch: LeaseEpoch,
    mode: WriteMode,
    client: ClientId,
    layout: FileLayout,
    expiresAt: nat,
    ancestors: seq<InodeId>)

  datatype Entry = Opening(opening: OpeningSession) | Active(session: WriteSession) {
    function Inode(): InodeId { if Opening? then opening.inode else session.inode }
    function Client(): ClientId { if Opening? then opening.client else session.client }
    function ExpiresAt(): nat { if Opening? then opening.expiresAt else session.expiresAt }
    function Ancestors(): seq<InodeId> { if Opening? then opening.ancestors else session.ancestors }

    /** A submitted publication outlives its lease until it is durably resolved. */
    function Retirement(): nat {
      if Active? && session.submitted then U64_MAX else ExpiresAt()
    }

    function Replayed(): Option<OpId> {
      if Active? && session.replay.Some? then Some(session.replay.value.operation) else None
    }

    /** Issued plus pending write targets. */
    function Owned(): nat {
      if Active? then |session.issued| + PendingCount() else 0
    }

    function PendingCount(): nat {
      if Active? && session.pending.Some? then 1 else 0
    }
  }

  datatype CreateOpening = CreateOpening(
    openingId: nat,
    operation: OpId,
    identity: CreateIdentity,
    client: ClientId,
    expiresAt: nat,
    ancestors: seq<InodeId>)

  /** The owner of a frozen publication; `session` is the snapshot taken when it began. */
  datatype PublicationGuard = PublicationGuard(session: WriteSession, id: nat, submitted: bool)

  /** The primary maps, the two identity counters and, as history, every publication owner
      handed out so far. */
  datatype State = State(
    entries: map<InodeId, Entry>,
    creates: map<OpId, CreateOpening>,
    nextOpening: nat,
    nextPublication: nat,
    guards: map<nat, PublicationGuard>)

  const EMPTY: State := State(map[], map[], 1, 1, map[])

  // ---- Scans ------------------------------------------------------------------

  function OfClient(c: ClientId): Entry -> nat { (e: Entry) => if e.Client() == c then 1 else 0 }
  function CreateOfClient(c: ClientId): CreateOpening -> nat { (o: CreateOpening) => if o.client == c then 1 else 0 }
  function Below(a: InodeId, t: nat): Entry -> nat {
    (e: Entry) => if a in e.Ancestors() && e.Retirement() == t then 1 else 0
  }
  function CreateBelow(a: InodeId, t: nat): CreateOpening -> nat {
    (o: CreateOpening) => if a in o.ancestors && o.expiresAt == t then 1 else 0
  }
  function IsOpening(): Entry -> nat { (e: Entry) => if e.Opening? then 1 else 0 }
  function Targets(): Entry -> nat { (e: Entry) => e.Owned() }
  function IsActive(): Entry -> nat { (e: Entry) => if e.Active? then 1 else 0 }
  function PendingTargets(): Entry -> nat { (e: Entry) => e.PendingCount() }
  function IssuedTargets(): Entry -> nat { (e: Entry) => if e.Active? then |e.session.issued| else 0 }

  ghost function ClientCount(p: State, c: ClientId): nat {
    Sum(p.entries, OfClient(c)) + Sum(p.creates, CreateOfClient(c))
  }

  /** How many writes whose captured path contains `a` retire at `t`. */
  ghost function BelowCount(p: State, a: InodeId, t: nat): nat {
    Sum(p.entries, Below(a, t)) + Sum(p.creates, CreateBelow(a, t))
  }

  ghost function Outstanding(p: State): nat { Sum(p.entries, Targets()) }

  ghost predicate PathHeld(p: State, mount: MountId, path: string) {
    exists o :: o in p.creates && p.creates[o].identity.mount == mount && p.creates[o].identity.path == path
  }

  ghost predicate ReplayHeld(p: State, op: OpId, i: InodeId) {
    i in p.entries && p.entries[i].Replayed() == Some(op)
  }

  ghost predicate ActiveUnder(p: State, a: InodeId, now: nat) {
    || (exists i :: i in p.entries && a in p.entries[i].Ancestors() && p.entries[i].Retirement() > now)
    || (exists o :: o in p.creates && a in p.creates[o].ancestors && p.creates[o].expiresAt > now)
  }

  // ---- Expiry -----------------------------------------------------------------

  predicate PairLe(a: (nat, nat), b: (nat, nat)) {
    a.0 < b.0 || (a.0 == b.0 && a.1 <= b.1)
  }

  /** The least element of an ordered set. */
  ghost function First(s: set<(nat, nat)>): (r: (nat, nat))
    requires s != {}
    ensures r in s && forall x :: x in s ==> PairLe(r, x)
    decreases |s|
  {
    var c :| c in s;
    if s == {c} then c
    else
      assert s == (s - {c}) + {c};
      var d := First(s - {c});
      if PairLe(c, d) then c else d
  }

  ghost function EntryExpiries(entries: map<InodeId, Entry>): (r: set<(nat, nat)>)
    ensures forall y :: y in r <==> y.1 in entries && entries[y.1].Retirement() == y.0
  {
    set i | i in entries :: (entries[i].Retirement(), i)
  }

  function Deadline(c: CreateOpening): (nat, nat) { (c.expiresAt, c.openingId) }

  ghost function CreateExpiries(creates: map<OpId, CreateOpening>): set<(nat, nat)> {
    set o | o in creates :: Deadline(creates[o])
  }

  datatype Victim = NoVictim | SessionVictim(i: InodeId) | CreateVictim(o: OpId)

  /** The expired write a sweep retires next, if any: earliest expiry first, a session
      before a create opening of the same expiry. */
  ghost function NextVictim(p: State, now: nat): (v: Victim)
    ensures v.SessionVictim? ==> v.i in p.entries && p.entries[v.i].Retirement() <= now
    ensures v.CreateVictim? ==> v.o in p.creates && p.creates[v.o].expiresAt <= now
  {
    var es, cs := EntryExpiries(p.entries), CreateExpiries(p.creates);
    if cs != {} && (es == {} || First(cs).0 < First(es).0) then
      if First(cs).0 > now then NoVictim
      else
        var o :| o in p.creates && Deadline(p.creates[o]) == First(cs);
        CreateVictim(o)
    else if es != {} && First(es).0 <= now then SessionVictim(First(es).1)
    else NoVictim
  }

  function WithoutEntry(p: State, i: InodeId): State { p.(entries := p.entries - {i}) }
  function WithoutCreate(p: State, o: OpId): State { p.(creates := p.creates - {o}) }
  function WithEntry(p: State, i: InodeId, e: Entry): State { p.(entries := p.entries[i := e]) }
  function WithSession(p: State, i: InodeId, s: WriteSession): State { WithEntry(p, i, Active(s)) }

  /** `retire_expired_entries` with `budget` retirements left. */
  ghost function Sweep(p: State, now: nat, budget: nat): State
    decreases budget, p
  {
    if budget == 0 || NextVictim(p, now).NoVictim? then p
    else Sweep(Retire(p, NextVictim(p, now)), now, budget - 1)
  }

  function Retire(p: State, v: Victim): State {
    match v
    case NoVictim => p
    case SessionVictim(i) => WithoutEntry(p, i)
    case CreateVictim(o) => WithoutCreate(p, o)
  }

  function RetireInode(p: State, i: InodeId, now: nat): State {
    if i in p.entries && p.entries[i].Retirement() <= now then WithoutEntry(p, i) else p
  }

  function RetireOperation(p: State, o: OpId, now: nat): State {
    if o in p.creates && p.creates[o].expiresAt <= now then WithoutCreate(p, o) else p
  }

  /** The cleanup that most operations perform before they look at an inode. */
  ghost function Tidy(p: State, i: InodeId, now: nat): State {
    Sweep(RetireInode(p, i, now), now, SWEEP_BUDGET)
  }

  // ---- Opening ----------------------------------------------------------------

  datatype SessionLimit = GlobalSessions | PerClient
  datatype TargetLimit = GlobalTargets | PerSession

  datatype BeginSessionError =
    | Busy
    | LimitExceeded(limit: SessionLimit, maximum: nat)
    | LeaseEpochExhausted
    | OpeningIdExhausted
    | InvalidAncestorChain

  datatype BeginCreateError =
    | CreatePending
    | IdentityMismatch
    | PathBusy
    | CreateLimitExceeded(limit: SessionLimit, maximum: nat)
    | CreateIdExhausted
    | InvalidParentChain

  datatype WriteOpeningError =
    TargetLimitReached | Expired | NotCurrent | EpochMismatch(expected: LeaseEpoch, got: LeaseEpoch)

  datatype OpeningGuard = OpeningGuard(inode: InodeId, openingId: nat, proposedEpoch: LeaseEpoch)
  datatype CreateGuard = CreateGuard(operation: OpId, openingId: nat, expiresAt: nat)
  datatype BeginCreateOutcome = CreateReplayed(response: CreateResponse) | CreateReserved(guard: CreateGuard)

  datatype BeginSessionInput = BeginSessionInput(
    path: string, mount: MountId, inode: InodeId, currentEpoch: LeaseEpoch, mode: WriteMode,
    client: ClientId, layout: FileLayout, ancestors: seq<InodeId>)

  datatype BeginCreateInput = BeginCreateInput(
    operation: OpId, identity: CreateIdentity, client: ClientId, ancestors: seq<InodeId>)

  /** `validate_parent_ancestor_chain`: non-empty, bounded and acyclic. */
  ghost predicate ParentChainValid(chain: seq<InodeId>) {
    0 < |chain| <= MAX_PATH_COMPONENTS && Inode.Distinct(chain)
  }

  /** `validate_ancestor_chain`: additionally ends at the file. */
  ghost predicate ChainValid(i: InodeId, chain: seq<InodeId>) {
    0 < |chain| <= MAX_PATH_COMPONENTS + 1 && chain[|chain| - 1] == i && Inode.Distinct(chain)
  }

  predicate GlobalFull(cfg: Limits, p: State) { |p.entries| + |p.creates| >= cfg.maxSessions }
  ghost predicate ClientFull(cfg: Limits, p: State, client: ClientId) { ClientCount(p, client) >= cfg.maxPerClient }

  function OpeningFor(cfg: Limits, input: BeginSessionInput, id: nat, now: nat): OpeningSession {
    OpeningSession(id, input.inode, input.mount, input.currentEpoch + 1, input.mode, input.client,
                   input.layout, SaturatingAdd(now, cfg.ttl), input.ancestors)
  }

  /** Installs an opening under the next identity. */
  function AdmitOpening(p: State, o: OpeningSession): State {
    WithEntry(p, o.inode, Opening(o)).(nextOpening := p.nextOpening + 1)
  }

  ghost function BeginSession(cfg: Limits, p: State, input: BeginSessionInput, now: nat)
    : (State, Result<OpeningGuard, BeginSessionError>)
  {
    if !ChainValid(input.inode, input.ancestors) then (p, Err(InvalidAncestorChain))
    else
      var q := Tidy(p, input.inode, now);
      if input.inode in q.entries || PathHeld(q, input.mount, input.path) then (q, Err(Busy))
      else if GlobalFull(cfg, q) then (q, Err(LimitExceeded(GlobalSessions, cfg.maxSessions)))
      else if ClientFull(cfg, q, input.client) then (q, Err(LimitExceeded(PerClient, cfg.maxPerClient)))
      else if CheckedNext(input.currentEpoch).None? then (q, Err(LeaseEpochExhausted))
      else if CheckedNext(q.nextOpening).None? then (q, Err(OpeningIdExhausted))
      else
        var opening := OpeningFor(cfg, input, q.nextOpening, now);
        (AdmitOpening(q, opening), Ok(OpeningGuard(input.inode, q.nextOpening, opening.proposedEpoch)))
  }

  function CreateFor(cfg: Limits, input: BeginCreateInput, id: nat, now: nat): CreateOpening {
    CreateOpening(id, input.operation, input.identity, input.client, SaturatingAdd(now, cfg.ttl), input.ancestors)
  }

  function AdmitCreate(p: State, c: CreateOpening): State {
    p.(creates := p.creates[c.operation := c], nextOpening := p.nextOpening + 1)
  }

  ghost function BeginCreate(cfg: Limits, p: State, input: BeginCreateInput, now: nat)
    : (State, Result<BeginCreateOutcome, BeginCreateError>)
  {
    if input.operation.client != input.client then (p, Err(IdentityMismatch))
    else if !ParentChainValid(input.ancestors) then (p, Err(InvalidParentChain))
    else CreateIn(cfg, Sweep(RetireOperation(p, input.operation, now), now, SWEEP_BUDGET), input, now)
  }

  /** The decision of `begin_create_session_at` once expired writes are retired. */
  ghost function CreateIn(cfg: Limits, q: State, input: BeginCreateInput, now: nat)
    : (State, Result<BeginCreateOutcome, BeginCreateError>)
  {
    if exists i :: ReplayHeld(q, input.operation, i) then
      var i :| ReplayHeld(q, input.operation, i);
      (q, ReplayCreate(q.entries[i].session.replay.value, input))
    else CreateFresh(cfg, q, input, now)
  }

  ghost function CreateFresh(cfg: Limits, q: State, input: BeginCreateInput, now: nat)
    : (State, Result<BeginCreateOutcome, BeginCreateError>)
  {
    var refusal := CreateRefusal(cfg, q, input);
    if refusal.Some? then (q, Err(refusal.value))
    else
      var opening := CreateFor(cfg, input, q.nextOpening, now);
      (AdmitCreate(q, opening), Ok(CreateReserved(CreateGuard(input.operation, q.nextOpening, opening.expiresAt))))
  }

  /** An exact retry of an active CreateFile repeats its response. */
  function ReplayCreate(replay: CreateReplay, input: BeginCreateInput): Result<BeginCreateOutcome, BeginCreateError> {
    if replay.identity != input.identity then Err(IdentityMismatch) else Ok(CreateReplayed(replay.response))
  }

  ghost function CreateRefusal(cfg: Limits, q: State, input: BeginCreateInput): Option<BeginCreateError> {
    if input.operation in q.creates then
      Some(if q.creates[input.operation].identity == input.identity then CreatePending else IdentityMismatch)
    else if PathHeld(q, input.identity.mount, input.identity.path) then Some(PathBusy)
    else if GlobalFull(cfg, q) then Some(CreateLimitExceeded(GlobalSessions, cfg.maxSessions))
    else if ClientFull(cfg, q, input.client) then Some(CreateLimitExceeded(PerClient, cfg.maxPerClient))
    else if CheckedNext(q.nextOpening).None? then Some(CreateIdExhausted)
    else None
  }

  predicate OpeningCurrent(p: State, i: InodeId, id: nat) {
    i in p.entries && p.entries[i].Opening? && p.entries[i].opening.openingId == id
  }

  predicate CreateCurrent(p: State, o: OpId, id: nat) {
    o in p.creates && p.creates[o].openingId == id
  }

  function SessionFor(o: OpeningSession, file: Inode.FileData, tail: Option<LocatedBlock>): WriteSession {
    WriteSession(o.inode, o.mount, o.proposedEpoch, file.len, file.generation, o.mode, o.client, o.layout,
                 o.expiresAt, o.ancestors, if tail.Some? then [tail.value] else [], map[], None, None, false, None)
  }

  predicate FileMatches(o: OpeningSession, file: Inode.FileData) {
    file.epoch == o.proposedEpoch && file.layout == o.layout
  }

  /** `activate_opening`. */
  ghost function ActivateOpening(cfg: Limits, p: State, i: InodeId, id: nat, epoch: LeaseEpoch, now: nat,
                                 file: Inode.FileData, tail: Option<LocatedBlock>)
    : (State, Result<WriteSession, WriteOpeningError>)
  {
    if !OpeningCurrent(p, i, id) then (p, Err(NotCurrent))
    else
      var o := p.entries[i].opening;
      if o.expiresAt <= now then (WithoutEntry(p, i), Err(Expired))
      else if o.proposedEpoch != epoch then (p, Err(EpochMismatch(o.proposedEpoch, epoch)))
      else if !FileMatches(o, file) then (p, Err(NotCurrent))
      else if tail.Some? && Outstanding(p) >= cfg.maxTargets then (p, Err(TargetLimitReached))
      else
        var s := SessionFor(o, file, tail);
        (WithSession(p, i, s), Ok(s))
  }

  function CancelOpening(p: State, i: InodeId, id: nat): State {
    if OpeningCurrent(p, i, id) then WithoutEntry(p, i) else p
  }

  /** `WriteOpening::activate` together with the drop of the consumed guard. The guard stays
      armed, and so rolls back, only after an epoch mismatch or a full target registry. */
  ghost function FinishOpening(cfg: Limits, p: State, g: OpeningGuard, epoch: LeaseEpoch, now: nat,
                               file: Inode.FileData, tail: Option<LocatedBlock>)
    : (State, Result<WriteSession, WriteOpeningError>)
  {
    var (q, r) := ActivateOpening(cfg, p, g.inode, g.openingId, epoch, now, file, tail);
    if r.Ok? || r.error.NotCurrent? || r.error.Expired? then (q, r)
    else (CancelOpening(q, g.inode, g.openingId), r)
  }

  function CreatedSession(o: CreateOpening, i: InodeId, epoch: LeaseEpoch, expiresAt: nat, layout: FileLayout,
                          generation: Generation): WriteSession {
    WriteSession(i, o.identity.mount, epoch, 0, generation, Overwrite, o.client, layout, expiresAt,
                 o.ancestors + [i], [], map[], None, None, false,
                 Some(CreateReplay(o.operation, o.identity, CreateResponse(i, epoch, layout, expiresAt, generation))))
  }

  /** `activate_create_opening`. */
  ghost function ActivateCreate(p: State, op: OpId, id: nat, i: InodeId, epoch: LeaseEpoch, expiresAt: nat,
                                layout: FileLayout, generation: Generation, now: nat)
    : (State, Result<WriteSession, WriteOpeningError>)
  {
    if !CreateCurrent(p, op, id) then (p, Err(NotCurrent))
    else
      var o := p.creates[op];
      if o.expiresAt <= now || expiresAt <= now then (WithoutCreate(p, op), Err(Expired))
      else if epoch == 0 || i in p.entries || !ChainValid(i, o.ancestors + [i]) then (p, Err(NotCurrent))
      else
        var s := CreatedSession(o, i, epoch, expiresAt, layout, generation);
        (WithSession(WithoutCreate(p, op), i, s), Ok(s))
  }

  function CancelCreate(p: State, op: OpId, id: nat): State {
    if CreateCurrent(p, op, id) then WithoutCreate(p, op) else p
  }

  /** `CreateOpening::activate` with the drop of the guard, which stays armed on every error. */
  ghost function FinishCreate(p: State, g: CreateGuard, i: InodeId, epoch: LeaseEpoch, expiresAt: nat,
                              layout: FileLayout, generation: Generation, now: nat)
    : (State, Result<WriteSession, WriteOpeningError>)
  {
    var (q, r) := ActivateCreate(p, g.operation, g.openingId, i, epoch, expiresAt, layout, generation, now);
    if r.Ok? then (q, r) else (CancelCreate(q, g.operation, g.openingId), r)
  }

  // ---- Write targets ----------------------------------------------------------

  datatype BeginAllocateError =
    | Session
    | InconsistentIndex
    | InvalidPredecessor
    | AllocatePending
    | PublicationInProgress
    | TargetLimitExceeded(limit: TargetLimit, maximum: nat)

  datatype CompleteTargetError = TargetNotCurrent | InvalidTarget

  datatype Reservation = Reservation(
    inode: InodeId, epoch: LeaseEpoch, pending: Pending, layout: FileLayout, client: ClientId, fileOffset: nat)
  datatype BeginAllocateOutcome = TargetReplayed(target: LocatedBlock) | TargetReserved(reservation: Reservation)

  predicate SessionCurrent(p: State, i: InodeId, epoch: LeaseEpoch) {
    i in p.entries && p.entries[i].Active? && p.entries[i].session.epoch == epoch
  }

  /** The block that the `k`-th issued target follows. */
  function Predecessor(issued: seq<LocatedBlock>, k: nat): Option<BlockId>
    requires k <= |issued|
  {
    if k == 0 then None else Some(issued[k - 1].blockId)
  }

  /** `next_target_file_offset`. */
  function NextOffset(s: WriteSession): Option<nat> {
    if s.issued == [] then Some(if s.mode == Overwrite then 0 else s.baseSize)
    else
      var last := s.issued[|s.issued| - 1];
      if last.fileOffset + last.blockSize > U64_MAX then None else Some(last.fileOffset + last.blockSize)
  }

  /** What `begin_allocate_block` decides from the session alone. */
  function AllocateRefusal(cfg: Limits, s: WriteSession, previous: Option<BlockId>): Option<BeginAllocateError> {
    if s.publication.Some? then Some(PublicationInProgress)
    else if previous != Predecessor(s.issued, |s.issued|) then Some(InvalidPredecessor)
    else if s.pending.Some? then Some(AllocatePending)
    else if NextOffset(s).None? then Some(InvalidPredecessor)
    else if |s.issued| >= cfg.maxPerSession then Some(TargetLimitExceeded(PerSession, cfg.maxPerSession))
    else None
  }

  function Reserved(s: WriteSession, previous: Option<BlockId>): WriteSession {
    s.(pending := Some(Pending(previous)))
  }

  ghost function BeginAllocate(cfg: Limits, p: State, i: InodeId, epoch: LeaseEpoch, previous: Option<BlockId>, now: nat)
    : (State, Result<BeginAllocateOutcome, BeginAllocateError>)
  {
    var q := Tidy(p, i, now);
    if !SessionCurrent(q, i, epoch) then (q, Err(Session))
    else
      var s := q.entries[i].session;
      var refusal := AllocateRefusal(cfg, s, previous);
      if previous in s.steps then
        (q, if s.steps[previous] < |s.issued| then Ok(TargetReplayed(s.issued[s.steps[previous]]))
            else Err(InconsistentIndex))
      else if refusal.Some? then (q, Err(refusal.value))
      else if Outstanding(q) >= cfg.maxTargets then (q, Err(TargetLimitExceeded(GlobalTargets, cfg.maxTargets)))
      else
        (WithSession(q, i, Reserved(s, previous)),
         Ok(TargetReserved(Reservation(i, epoch, Pending(previous), s.layout, s.client, NextOffset(s).value))))
  }

  /** `validate_write_target`. */
  predicate TargetValid(s: WriteSession, epoch: LeaseEpoch, target: LocatedBlock) {
    var shape := BlockShape(target.format, target.blockSize, target.chunkSize, target.blockSize);
    && target.blockId.inode == s.inode
    && target.token == FencingToken(target.blockId, s.client, epoch)
    && NextOffset(s) == Some(target.fileOffset)
    && ShapeValid(shape)
    && shape == FullShape(s.layout)
    && target.writeOffset == 0
  }

  predicate ReservationCurrent(p: State, i: InodeId, epoch: LeaseEpoch, pending: Pending) {
    SessionCurrent(p, i, epoch) && p.entries[i].session.pending == Some(pending)
  }

  function CancelTarget(p: State, i: InodeId, epoch: LeaseEpoch, pending: Pending): State {
    if ReservationCurrent(p, i, epoch, pending)
    then WithSession(p, i, p.entries[i].session.(pending := None)) else p
  }

  function WithTarget(s: WriteSession, pending: Pending, target: LocatedBlock): WriteSession {
    s.(issued := s.issued + [target], steps := s.steps[pending.previous := |s.issued|], pending := None)
  }

  /** `complete_write_target`; the guard is disarmed whatever the result. */
  ghost function CompleteTarget(p: State, i: InodeId, epoch: LeaseEpoch, pending: Pending, target: LocatedBlock, now: nat)
    : (State, Result<LocatedBlock, CompleteTargetError>)
  {
    var q := Tidy(p, i, now);
    if !ReservationCurrent(q, i, epoch, pending) then (q, Err(TargetNotCurrent))
    else
      var s := q.entries[i].session;
      if !TargetValid(s, epoch, target) then (CancelTarget(q, i, epoch, pending), Err(InvalidTarget))
      else (WithSession(q, i, WithTarget(s, pending, target)), Ok(target))
  }

  // ---- Publication ------------------------------------------------------------

  datatype BeginPublicationError =
    PublicationSession | AllocateBlockPending | AlreadyPublishing | PublicationIdExhausted

  datatype PublicationError = PublicationNotCurrent | SizeChanged | GenerationOverflow | GenerationChanged | EpochEnds

  predicate PublicationCurrent(p: State, i: InodeId, epoch: LeaseEpoch, id: nat) {
    SessionCurrent(p, i, epoch) && p.entries[i].session.publication == Some(id)
  }

  function FreezingGuard(p: State, i: InodeId): PublicationGuard
    requires i in p.entries && p.entries[i].Active?
  {
    PublicationGuard(p.entries[i].session.(publication := Some(p.nextPublication)), p.nextPublication, false)
  }

  function Freeze(p: State, i: InodeId): State
    requires i in p.entries && p.entries[i].Active?
  {
    var guard := FreezingGuard(p, i);
    WithSession(p, i, guard.session).(nextPublication := guard.id + 1, guards := p.guards[guard.id := guard])
  }

  /** `begin_publication`: freezes the session under a fresh identity. */
  ghost function BeginPublication(p: State, i: InodeId, epoch: LeaseEpoch, now: nat)
    : (State, Result<PublicationGuard, BeginPublicationError>)
  {
    var q := Tidy(p, i, now);
    if !SessionCurrent(q, i, epoch) then (q, Err(PublicationSession))
    else
      var s := q.entries[i].session;
      if s.pending.Some? then (q, Err(AllocateBlockPending))
      else if s.publication.Some? then (q, Err(AlreadyPublishing))
      else if CheckedNext(q.nextPublication).None? then (q, Err(PublicationIdExhausted))
      else (Freeze(q, i), Ok(FreezingGuard(q, i)))
  }

  /** `revalidate_publication`. */
  ghost function Revalidate(p: State, g: PublicationGuard, now: nat): (State, Result<WriteSession, PublicationError>) {
    var q := Tidy(p, g.session.inode, now);
    if PublicationCurrent(q, g.session.inode, g.session.epoch, g.id)
    then (q, Ok(q.entries[g.session.inode].session)) else (q, Err(PublicationNotCurrent))
  }

  function Pin(p: State, g: PublicationGuard): State
    requires g.session.inode in p.entries && p.entries[g.session.inode].Active?
  {
    WithSession(p, g.session.inode, p.entries[g.session.inode].session.(submitted := true))
      .(guards := p.guards[g.id := g.(submitted := true)])
  }

  /** `mark_submitted`: pins the live session until the publication is resolved. */
  function MarkSubmitted(p: State, g: PublicationGuard, now: nat): (State, Result<PublicationGuard, PublicationError>) {
    var i := g.session.inode;
    if g.submitted then (p, Ok(g))
    else if CheckedNext(g.session.epoch).None? then (p, Err(EpochEnds))
    else if !PublicationCurrent(p, i, g.session.epoch, g.id) || p.entries[i].session.expiresAt <= now
    then (p, Err(PublicationNotCurrent))
    else (Pin(p, g), Ok(g.(submitted := true)))
  }

  /** How many leading targets start below `size`. */
  function Retained(issued: seq<LocatedBlock>, size: nat): (n: nat)
    ensures n <= |issued|
    ensures forall k :: 0 <= k < n ==> issued[k].fileOffset < size
    ensures n < |issued| ==> issued[n].fileOffset >= size
  {
    if issued == [] || issued[0].fileOffset >= size then 0 else 1 + Retained(issued[1..], size)
  }

  function KeepSteps(steps: map<Option<BlockId>, nat>, n: nat): map<Option<BlockId>, nat> {
    map k | k in steps && steps[k] < n :: steps[k]
  }

  /** The session after a SyncWrite published `size` bytes as `generation`. */
  function Synced(s: WriteSession, generation: Generation, size: nat): WriteSession {
    var kept := Retained(s.issued, size);
    s.(issued := s.issued[..kept], steps := KeepSteps(s.steps, kept), generation := generation, baseSize := size)
  }

  function Released(s: WriteSession): WriteSession {
    s.(mode := Append, publication := None, submitted := false)
  }

  /** What a SyncWrite result does to the session it was frozen from. */
  function SyncResult(s: WriteSession, generation: Generation, size: nat): Result<WriteSession, PublicationError> {
    if s.generation == generation then
      if s.baseSize != size then Err(SizeChanged) else Ok(Released(s))
    else if CheckedNext(s.generation).None? then Err(GenerationOverflow)
    else if generation != CheckedNext(s.generation).value then Err(GenerationChanged)
    else Ok(Released(Synced(s, generation, size)))
  }

  /** `complete_sync_publication`. */
  ghost function CompleteSyncAt(p: State, i: InodeId, epoch: LeaseEpoch, id: nat, generation: Generation, size: nat, now: nat)
    : (State, Result<(), PublicationError>)
  {
    var q := Tidy(p, i, now);
    if !PublicationCurrent(q, i, epoch, id) then (q, Err(PublicationNotCurrent))
    else
      match SyncResult(q.entries[i].session, generation, size)
      case Err(e) => (q, Err(e))
      case Ok(t) => (WithSession(q, i, t), Ok(()))
  }

  function CancelPublication(p: State, i: InodeId, epoch: LeaseEpoch, id: nat): State {
    if PublicationCurrent(p, i, epoch, id)
    then WithSession(p, i, p.entries[i].session.(publication := None)) else p
  }

  /** Dropping a publication owner; a submitted one leaves its protection in place. */
  function DropPublication(p: State, g: PublicationGuard): State {
    if g.submitted then p else CancelPublication(p, g.session.inode, g.session.epoch, g.id)
  }

  /** `WritePublication::complete_sync` with the drop of the guard, armed on every error. */
  ghost function CompleteSync(p: State, g: PublicationGuard, generation: Generation, size: nat, now: nat)
    : (State, Result<(), PublicationError>)
  {
    var (q, r) := CompleteSyncAt(p, g.session.inode, g.session.epoch, g.id, generation, size, now);
    if r.Ok? then (q, r) else (DropPublication(q, g), r)
  }

  /** `WritePublication::complete_commit`. */
  function CompleteCommit(p: State, g: PublicationGuard): State {
    if PublicationCurrent(p, g.session.inode, g.session.epoch, g.id)
    then WithoutEntry(p, g.session.inode) else p
  }

  // ---- Lookup and renewal -----------------------------------------------------

  datatype SessionError =
    NotFound | LeaseEpochMismatch(expected: LeaseEpoch, got: LeaseEpoch) | OwnerMismatch | SessionExpired

  ghost function GetSession(p: State, i: InodeId, now: nat): (State, Option<WriteSession>) {
    var q := Tidy(p, i, now);
    (q, if i in q.entries && q.entries[i].Active? then Some(q.entries[i].session) else None)
  }

  /** `remove_session_if_epoch` removes even a pinned session. */
  function RemoveIfEpoch(p: State, i: InodeId, epoch: LeaseEpoch): (State, Option<WriteSession>) {
    if SessionCurrent(p, i, epoch) then (WithoutEntry(p, i), Some(p.entries[i].session)) else (p, None)
  }

  predicate LeaseOver(p: State, i: InodeId, now: nat) {
    i in p.entries && p.entries[i].ExpiresAt() <= now
  }

  ghost function ValidateSession(p: State, i: InodeId, epoch: LeaseEpoch, now: nat): (State, Result<(), SessionError>) {
    if LeaseOver(p, i, now) then (RetireInode(p, i, now), Err(SessionExpired))
    else
      var q := Sweep(p, now, SWEEP_BUDGET);
      if !(i in q.entries && q.entries[i].Active?) then (q, Err(NotFound))
      else if q.entries[i].session.epoch != epoch
      then (q, Err(LeaseEpochMismatch(q.entries[i].session.epoch, epoch)))
      else (q, Ok(()))
  }

  ghost function RenewSession(cfg: Limits, p: State, i: InodeId, epoch: LeaseEpoch, client: ClientId, now: nat)
    : (State, Result<nat, SessionError>)
  {
    var (q, valid) := ValidateSession(p, i, epoch, now);
    if valid.Err? then (q, Err(valid.error))
    else
      var s := q.entries[i].session;
      if s.client != client then (q, Err(OwnerMismatch))
      else
        var granted := SaturatingAdd(now, cfg.ttl);
        var expiresAt := if granted < s.expiresAt then s.expiresAt else granted;
        (WithSession(q, i, s.(expiresAt := expiresAt)), Ok(expiresAt))
  }
}
