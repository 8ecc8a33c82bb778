/** Block placement: which live Workers receive the replicas of a new block and on which tier,
    and which ones a block can be read from. */
module Placement {
  import opened BerylTypes
  import opened Sorting

  datatype TierFree = TierFree(tier: Tier, freeBytes: nat)

  datatype WorkerView = WorkerView(
    group: string,
    id: WorkerId,
    runId: Option<nat>,
    endpoint: string,
    protocol: int,
    registered: bool,
    leaseValid: bool,
    place: Place,
    tierFree: seq<TierFree>,
    formats: seq<nat>)

  /** Where a caller or a Worker says it is. */
  datatype Place = Place(
    host: Option<string>,
    ip: Option<string>,
    az: Option<string>,
    rack: Option<string>,
    region: Option<string>)

  /** A Worker's report of a block it holds. */
  datatype Report = Report(group: string, blockId: BlockId, durableLen: nat, worker: WorkerId, runId: nat)

  datatype Request = Request(
    group: string,
    blockId: BlockId,
    visibleLen: nat,
    layout: FileLayout,
    caller: Option<Place>,
    existing: seq<Report>,
    exclude: seq<WorkerId>,
    targetReplicas: nat)

  datatype Chosen = Chosen(id: WorkerId, runId: nat, endpoint: string, protocol: int, tier: Option<Tier>)

  datatype Status =
    | Placed
    | NoLiveWorker
    | NoEligibleWorker
    | UnsupportedBlockFormat
    | NoWritableTier
    | InsufficientCapacity
    | NotEnoughReplicas
    | NoLiveReplica

  datatype Outcome = Outcome(workers: seq<Chosen>, status: Status)

  const WRITE_TIER_ORDER: seq<Tier> := [Nvme, Ssd, Hdd]

  // ---- Tiers ----------------------------------------------------------------------

  /** `tier_free_bytes`: the most free bytes a Worker reports on a tier. */
  function FreeOn(entries: seq<TierFree>, tier: Tier): Option<nat> {
    if entries == [] then None
    else
      var rest := FreeOn(entries[1..], tier);
      if entries[0].tier != tier then rest
      else if rest.Some? && rest.value > entries[0].freeBytes then rest
      else Some(entries[0].freeBytes)
  }

  predicate HasTier(w: WorkerView) {
    FreeOn(w.tierFree, Nvme).Some? || FreeOn(w.tierFree, Ssd).Some? || FreeOn(w.tierFree, Hdd).Some?
  }

  predicate HasRoom(w: WorkerView, tier: Tier, size: nat) {
    FreeOn(w.tierFree, tier).Some? && FreeOn(w.tierFree, tier).value >= size
  }

  /** The fastest tier a block may be written to that has room for it. */
  function FastestTier(w: WorkerView, size: nat): Option<Tier> {
    if HasRoom(w, Nvme, size) then Some(Nvme)
    else if HasRoom(w, Ssd, size) then Some(Ssd)
    else if HasRoom(w, Hdd, size) then Some(Hdd)
    else None
  }

  /** The walk over the tiers that `choose_write_targets` does for one Worker. */
  method PickTier(w: WorkerView, size: nat) returns (hasTier: bool, tier: Option<Tier>)
    ensures tier == FastestTier(w, size) && (hasTier <==> HasTier(w))
  {
    hide FreeOn;
    hasTier, tier := false, None;
    for k := 0 to |WRITE_TIER_ORDER|
      invariant tier.None?
      invariant hasTier <==> (k > 0 && FreeOn(w.tierFree, Nvme).Some?) || (k > 1 && FreeOn(w.tierFree, Ssd).Some?)
                             || (k > 2 && FreeOn(w.tierFree, Hdd).Some?)
      invariant forall j :: 0 <= j < k ==> !HasRoom(w, WRITE_TIER_ORDER[j], size)
    {
      var free := FreeOn(w.tierFree, WRITE_TIER_ORDER[k]);
      if free.Some? {
        hasTier := true;
        if free.value >= size {
          assert k > 0 ==> !HasRoom(w, WRITE_TIER_ORDER[0], size);
          assert k > 1 ==> !HasRoom(w, WRITE_TIER_ORDER[1], size);
          return true, Some(WRITE_TIER_ORDER[k]);
        }
      }
    }
    assert !HasRoom(w, WRITE_TIER_ORDER[0], size) && !HasRoom(w, WRITE_TIER_ORDER[1], size) && !HasRoom(w, WRITE_TIER_ORDER[2], size);
  }

  // ---- Order of preference -----------------------------------------------------------

  predicate SamePlace(a: Option<string>, b: Option<string>) { a.Some? && a == b }

  function Locality(caller: Option<Place>, at: Place): nat {
    if caller.None? then 0
    else
      var c := caller.value;
      if SamePlace(c.host, at.host) || SamePlace(c.ip, at.ip) then 0
      else if SamePlace(c.az, at.az) then 1
      else if SamePlace(c.rack, at.rack) then 2
      else if SamePlace(c.region, at.region) then 3
      else 4
  }

  function TierRank(tier: Tier): nat {
    match tier
    case Nvme => 0
    case Ssd => 1
    case Hdd => 2
    case Mem => 3
  }

  /** The tier picked for a Worker is persistent and has room, and no faster such tier does. */
  lemma FastestTierRanksBest(w: WorkerView, size: nat, tier: Tier)
    requires FastestTier(w, size) == Some(tier)
    ensures HasRoom(w, tier, size) && tier in WRITE_TIER_ORDER
    ensures forall other :: other in WRITE_TIER_ORDER && HasRoom(w, other, size) ==> !Faster(other, tier)
  {
  }

  const FNV_OFFSET: bv64 := 0xcbf2_9ce4_8422_2325
  const FNV_PRIME: bv64 := 0x0000_0100_0000_01b3

  function Word(value: nat): bv64 { (value % 0x1_0000_0000_0000_0000) as bv64 }

  function MixByte(hash: bv64, value: char): bv64 { (hash ^ Word(value as nat)) * FNV_PRIME }

  function MixName(hash: bv64, name: string): bv64
    decreases name
  {
    if name == [] then hash
    else MixName(MixByte(hash, name[0]), name[1..])
  }

  function MixWord(hash: bv64, value: bv64): bv64 {
    (((hash ^ value) * FNV_PRIME) ^ value.RotateLeft(32)) * FNV_PRIME
  }

  /** `stable_order`, a spread of the Workers that differs from block to block. */
  function StableOrder(group: string, blockId: BlockId, worker: WorkerId): nat {
    MixWord(MixWord(MixWord(MixName(FNV_OFFSET, group), Word(blockId.inode)), Word(blockId.index)), Word(worker)) as nat
  }

  /** The two loops of `stable_order`. */
  method ComputeStableOrder(group: string, blockId: BlockId, worker: WorkerId) returns (hash: bv64)
    ensures hash as nat == StableOrder(group, blockId, worker)
  {
    hide MixByte, MixWord, Word;
    hash := FNV_OFFSET;
    assert group[0..] == group;
    for k := 0 to |group|
      invariant MixName(FNV_OFFSET, group) == MixName(hash, group[k..])
    {
      assert group[k..][1..] == group[k + 1..];
      hash := MixByte(hash, group[k]);
    }
    var values := [Word(blockId.inode), Word(blockId.index), Word(worker)];
    ghost var start := hash;
    for k := 0 to 3
      invariant hash == (if k == 0 then start
                         else if k == 1 then MixWord(start, values[0])
                         else if k == 2 then MixWord(MixWord(start, values[0]), values[1])
                         else MixWord(MixWord(MixWord(start, values[0]), values[1]), values[2]))
    {
      hash := MixWord(hash, values[k]);
    }
  }

  datatype Candidate = Candidate(view: WorkerView, tier: Tier)

  function Preference(req: Request): Candidate -> Key {
    (c: Candidate) =>
      [TierRank(c.tier), Locality(req.caller, c.view.place), StableOrder(req.group, req.blockId, c.view.id), c.view.id]
  }

  // ---- What the order means ---------------------------------------------------------------

  predicate Faster(a: Tier, b: Tier) {
    match a
    case Nvme => !b.Nvme?
    case Ssd => b.Hdd? || b.Mem?
    case Hdd => b.Mem?
    case Mem => false
  }

  /** The Worker is on the caller's machine, or at most `k` levels away: zone, rack, region. */
  predicate Within(caller: Option<Place>, at: Place, k: nat) {
    caller.None? ||
    var c := caller.value;
    || (c.host.Some? && at.host == c.host) || (c.ip.Some? && at.ip == c.ip)
    || (k >= 1 && c.az.Some? && at.az == c.az)
    || (k >= 2 && c.rack.Some? && at.rack == c.rack)
    || (k >= 3 && c.region.Some? && at.region == c.region)
  }

  /** `a` is at least as close to the caller as `b`, at every distance. */
  predicate AsClose(caller: Option<Place>, a: Place, b: Place) {
    && (Within(caller, b, 0) ==> Within(caller, a, 0)) && (Within(caller, b, 1) ==> Within(caller, a, 1))
    && (Within(caller, b, 2) ==> Within(caller, a, 2)) && (Within(caller, b, 3) ==> Within(caller, a, 3))
  }

  /** Closer Workers go first; among equally close ones the hash of the block decides, then the id. */
  predicate PrefersWorker(req: Request, a: WorkerView, b: WorkerView) {
    && AsClose(req.caller, a.place, b.place)
    && (AsClose(req.caller, b.place, a.place) ==>
          var x, y := StableOrder(req.group, req.blockId, a.id), StableOrder(req.group, req.blockId, b.id);
          x < y || (x == y && a.id <= b.id))
  }

  /** Faster tiers go first, wherever the Worker is. */
  predicate Prefers(req: Request, a: Candidate, b: Candidate) {
    Faster(a.tier, b.tier) || (a.tier == b.tier && PrefersWorker(req, a.view, b.view))
  }

  lemma LocalityMeans(caller: Option<Place>, a: Place, b: Place)
    ensures Locality(caller, a) <= Locality(caller, b) <==> AsClose(caller, a, b)
  {
    LocalityWithin(caller, a);
    LocalityWithin(caller, b);
  }

  lemma LocalityWithin(caller: Option<Place>, at: Place)
    ensures Locality(caller, at) <= 4
    ensures forall k :: 0 <= k < 4 ==> (Within(caller, at, k) <==> Locality(caller, at) <= k)
  {
  }

  lemma TierRankMeans(a: Tier, b: Tier)
    ensures TierRank(a) < TierRank(b) <==> Faster(a, b)
    ensures TierRank(a) == TierRank(b) <==> a == b
  {
  }

  /** Sorting by the write key is preferring. */
  lemma PreferenceMeans(req: Request, a: Candidate, b: Candidate)
    ensures LexLe(Preference(req)(a), Preference(req)(b)) <==> Prefers(req, a, b)
  {
    hide Locality, TierRank, StableOrder, AsClose, Faster;
    LocalityMeans(req.caller, a.view.place, b.view.place);
    LocalityMeans(req.caller, b.view.place, a.view.place);
    TierRankMeans(a.tier, b.tier);
    TierRankMeans(b.tier, a.tier);
    LexPrepend(Preference(req)(a), Preference(req)(b));
    LexPrepend(Preference(req)(a)[1..], Preference(req)(b)[1..]);
    LexPrepend(Preference(req)(a)[1..][1..], Preference(req)(b)[1..][1..]);
    LexPrepend(Preference(req)(a)[1..][1..][1..], Preference(req)(b)[1..][1..][1..]);
  }

  lemma LexPrepend(a: Key, b: Key)
    requires |a| > 0 && |b| > 0
    ensures LexLe(a, b) <==> a[0] < b[0] || (a[0] == b[0] && LexLe(a[1..], b[1..]))
  {
  }

  /** Sorting by the read key is preferring the Worker. */
  lemma ReadPreferenceMeans(req: Request, a: WorkerView, b: WorkerView)
    ensures LexLe(ReadPreference(req)(a), ReadPreference(req)(b)) <==> PrefersWorker(req, a, b)
  {
    hide Locality, StableOrder, AsClose;
    LocalityMeans(req.caller, a.place, b.place);
    LocalityMeans(req.caller, b.place, a.place);
    LexPrepend(ReadPreference(req)(a), ReadPreference(req)(b));
    LexPrepend(ReadPreference(req)(a)[1..], ReadPreference(req)(b)[1..]);
    LexPrepend(ReadPreference(req)(a)[1..][1..], ReadPreference(req)(b)[1..][1..]);
  }

  /** The free bytes of a tier are the most that any of its entries reports. */
  lemma {:induction false} FreeOnExact(entries: seq<TierFree>, tier: Tier)
    ensures FreeOn(entries, tier).Some? <==> exists e :: e in entries && e.tier == tier
    ensures FreeOn(entries, tier).Some? ==>
              && TierFree(tier, FreeOn(entries, tier).value) in entries
              && forall e :: e in entries && e.tier == tier ==> e.freeBytes <= FreeOn(entries, tier).value
  {
    if entries != [] {
      FreeOnExact(entries[1..], tier);
      assert entries == [entries[0]] + entries[1..];
      assert entries[0] in entries;
    }
  }

  /** A live Worker of the group the request is for. */
  predicate InService(req: Request, w: WorkerView) {
    w.group == req.group && w.registered && w.leaseValid && w.runId.Some?
  }

  /** One that the request does not exclude. */
  predicate Admitted(req: Request, w: WorkerView) {
    InService(req, w) && w.id !in req.exclude
  }

  /** One that knows the format of the file. */
  predicate Suited(req: Request, w: WorkerView) {
    Admitted(req, w) && req.layout.format in w.formats
  }

  /** The filters pass, one after the other, live Workers of the group, those not excluded, and those
      that know the format, who are the eligible ones. */
  lemma EligibleExact(req: Request, w: WorkerView)
    ensures Passes(req, w, 1) <==> InService(req, w)
    ensures Passes(req, w, 2) <==> Admitted(req, w)
    ensures Eligible(req, w) <==> Suited(req, w)
  {
    assert Passes(req, w, 1) <==> Check(req, w, 0);
    assert Passes(req, w, 2) <==> Check(req, w, 0) && Check(req, w, 1);
  }

  /** The Worker reports room for a block on the tier. */
  ghost predicate Reports(w: WorkerView, tier: Tier, size: nat) {
    exists e :: e in w.tierFree && e.tier == tier && size <= e.freeBytes
  }

  lemma RoomExact(w: WorkerView, tier: Tier, size: nat)
    ensures HasRoom(w, tier, size) <==> Reports(w, tier, size)
  {
    hide FreeOn;
    FreeOnExact(w.tierFree, tier);
  }

  /** The Worker could take a block on the tier: it reports room there, and on no faster tier that
      keeps blocks. */
  ghost predicate Takes(w: WorkerView, tier: Tier, size: nat) {
    !tier.Mem? && Reports(w, tier, size) && forall other :: Faster(other, tier) ==> !Reports(w, other, size)
  }

  lemma TierExact(w: WorkerView, size: nat, tier: Tier)
    ensures FastestTier(w, size) == Some(tier) <==> Takes(w, tier, size)
  {
    hide HasRoom, Reports;
    RoomExact(w, Nvme, size);
    RoomExact(w, Ssd, size);
    RoomExact(w, Hdd, size);
    assert Faster(Nvme, Ssd) && Faster(Nvme, Hdd) && Faster(Ssd, Hdd);
  }

  /** The Worker has no tier that keeps blocks. */
  predicate Volatile(w: WorkerView) {
    forall e :: e in w.tierFree ==> e.tier.Mem?
  }

  lemma TiersExact(w: WorkerView)
    ensures HasTier(w) <==> !Volatile(w)
  {
    hide FreeOn;
    FreeOnExact(w.tierFree, Nvme);
    FreeOnExact(w.tierFree, Ssd);
    FreeOnExact(w.tierFree, Hdd);
  }

  // ---- Eligible Workers ------------------------------------------------------------------

  predicate Live(w: WorkerView) { w.registered && w.leaseValid && w.runId.Some? }

  /** The three filters of `choose_live_targets`, in order. */
  predicate Check(req: Request, w: WorkerView, k: nat) {
    if k == 0 then w.group == req.group && Live(w)
    else if k == 1 then w.id !in req.exclude
    else req.layout.format in w.formats
  }

  function Filter(req: Request, workers: seq<WorkerView>, k: nat): seq<WorkerView> {
    if workers == [] then []
    else (if Check(req, workers[0], k) then [workers[0]] else []) + Filter(req, workers[1..], k)
  }

  /** What is left after the first `k` filters. */
  function Left(req: Request, workers: seq<WorkerView>, k: nat): seq<WorkerView> {
    if k == 0 then workers else Filter(req, Left(req, workers, k - 1), k - 1)
  }

  function Candidates(workers: seq<WorkerView>, size: nat): seq<Candidate> {
    if workers == [] then []
    else
      var tier := FastestTier(workers[0], size);
      (if tier.Some? then [Candidate(workers[0], tier.value)] else []) + Candidates(workers[1..], size)
  }

  // ---- The choice ---------------------------------------------------------------------------

  function Choose(c: Candidate): Chosen
    requires c.view.runId.Some?
  {
    Chosen(c.view.id, c.view.runId.value, c.view.endpoint, c.view.protocol, Some(c.tier))
  }

  /** The selection loop: one replica a Worker, in order, until the target is reached. */
  function Select(candidates: seq<Candidate>, seen: set<WorkerId>, target: nat): seq<Chosen> {
    if candidates == [] || target == 0 then []
    else
      var c := candidates[0];
      if c.view.id in seen then Select(candidates[1..], seen, target)
      else if c.view.runId.None? then Select(candidates[1..], seen + {c.view.id}, target)
      else [Choose(c)] + Select(candidates[1..], seen + {c.view.id}, target - 1)
  }

  function Target(req: Request): nat { if req.targetReplicas > 1 then req.targetReplicas else 1 }

  function ChooseAmong(req: Request, eligible: seq<WorkerView>): Outcome {
    var candidates := Candidates(eligible, req.layout.blockSize);
    if !SomeTier(eligible) then Outcome([], NoWritableTier)
    else if candidates == [] then Outcome([], InsufficientCapacity)
    else
      var chosen := Select(StableSort(candidates, Preference(req)), {}, Target(req));
      Outcome(chosen, if |chosen| < Target(req) then NotEnoughReplicas else Placed)
  }

  function PlaceBlock(req: Request, workers: seq<WorkerView>): Outcome {
    if Left(req, workers, 1) == [] then Outcome([], NoLiveWorker)
    else if Left(req, workers, 2) == [] then Outcome([], NoEligibleWorker)
    else if Left(req, workers, 3) == [] then Outcome([], UnsupportedBlockFormat)
    else ChooseAmong(req, Left(req, workers, 3))
  }

  predicate SomeTier(workers: seq<WorkerView>) {
    exists k :: 0 <= k < |workers| && HasTier(workers[k])
  }

  /** The loop of `choose_write_targets` that picks a tier for every Worker. */
  method CollectCandidates(eligible: seq<WorkerView>, size: nat) returns (candidates: seq<Candidate>, tiers: nat)
    ensures candidates == Candidates(eligible, size)
    ensures tiers > 0 <==> SomeTier(eligible)
  {
    hide HasTier, FastestTier;
    candidates, tiers := [], 0;
    for k := 0 to |eligible|
      invariant Candidates(eligible, size) == candidates + Candidates(eligible[k..], size)
      invariant tiers > 0 <==> exists j :: 0 <= j < k && HasTier(eligible[j])
    {
      assert eligible[k..][1..] == eligible[k + 1..];
      var hasTier, tier := PickTier(eligible[k], size);
      if tier.Some? {
        candidates := candidates + [Candidate(eligible[k], tier.value)];
      }
      if hasTier {
        tiers := tiers + 1;
      }
    }
    assert candidates == Candidates(eligible, size);
  }

  /** `choose_write_targets`. */
  method ChooseWriteTargets(req: Request, eligible: seq<WorkerView>) returns (r: Outcome)
    ensures r == ChooseAmong(req, eligible)
  {
    hide SomeTier, Candidates, Select, Preference, StableSort;
    var candidates, tiers := CollectCandidates(eligible, req.layout.blockSize);
    if tiers == 0 {
      return Outcome([], NoWritableTier);
    }
    var sorted := StableSort(candidates, Preference(req));
    if candidates == [] {
      return Outcome([], InsufficientCapacity);
    }
    var chosen := SelectWorkers(sorted, Target(req));
    return Outcome(chosen, if |chosen| < Target(req) then NotEnoughReplicas else Placed);
  }

  method SelectWorkers(sorted: seq<Candidate>, target: nat) returns (chosen: seq<Chosen>)
    requires target > 0
    ensures chosen == Select(sorted, {}, target)
  {
    var seen: set<WorkerId> := {};
    chosen := [];
    for k := 0 to |sorted|
      invariant |chosen| < target
      invariant Select(sorted, {}, target) == chosen + Select(sorted[k..], seen, target - |chosen|)
    {
      assert sorted[k..][1..] == sorted[k + 1..];
      var c := sorted[k];
      if c.view.id !in seen {
        seen := seen + {c.view.id};
        if c.view.runId.Some? {
          chosen := chosen + [Choose(c)];
        }
        if |chosen| == target {
          break;
        }
      }
    }
  }

  /** `choose_live_targets`. */
  method ChooseLiveTargets(req: Request, workers: seq<WorkerView>) returns (r: Outcome)
    ensures r == PlaceBlock(req, workers)
  {
    hide ChooseAmong, Filter;
    assert Left(req, workers, 1) == Filter(req, Left(req, workers, 0), 0);
    assert Left(req, workers, 2) == Filter(req, Left(req, workers, 1), 1);
    assert Left(req, workers, 3) == Filter(req, Left(req, workers, 2), 2);
    var live := Filter(req, workers, 0);
    if live == [] {
      return Outcome([], NoLiveWorker);
    }
    var group := Filter(req, live, 1);
    if group == [] {
      return Outcome([], NoEligibleWorker);
    }
    var eligible := Filter(req, group, 2);
    if eligible == [] {
      return Outcome([], UnsupportedBlockFormat);
    }
    r := ChooseWriteTargets(req, eligible);
  }

  // ---- What the choice is -------------------------------------------------------------------

  /** No two Workers of the group share an id. */
  ghost predicate UniqueIds(workers: seq<WorkerView>, group: string) {
    forall i, j {:trigger workers[i], workers[j]} :: 0 <= i < j < |workers| && workers[i].group == workers[j].group == group ==>
      workers[i].id != workers[j].id
  }

  ghost predicate IdsApart(candidates: seq<Candidate>) {
    forall i, j {:trigger candidates[i], candidates[j]} :: 0 <= i < j < |candidates| ==>
      candidates[i].view.id != candidates[j].view.id
  }

  /** The Worker passes the first `k` filters. */
  predicate Passes(req: Request, w: WorkerView, k: nat) {
    k == 0 || (Passes(req, w, k - 1) && Check(req, w, k - 1))
  }

  predicate Eligible(req: Request, w: WorkerView) { Passes(req, w, 3) }

  /** Everyone who could take a replica, with the tier it would go to. */
  function Able(req: Request, workers: seq<WorkerView>): seq<Candidate> {
    Candidates(Left(req, workers, 3), req.layout.blockSize)
  }

  lemma {:induction false} FilterCounts(req: Request, workers: seq<WorkerView>, k: nat, w: WorkerView)
    ensures multiset(Filter(req, workers, k))[w] == if Check(req, w, k) then multiset(workers)[w] else 0
  {
    if workers != [] {
      FilterCounts(req, workers[1..], k, w);
      assert workers == [workers[0]] + workers[1..];
    }
  }

  lemma {:induction false} LeftCounts(req: Request, workers: seq<WorkerView>, k: nat, w: WorkerView)
    ensures multiset(Left(req, workers, k))[w] == if Passes(req, w, k) then multiset(workers)[w] else 0
  {
    hide Filter, Check;
    if k > 0 {
      LeftCounts(req, workers, k - 1, w);
      FilterCounts(req, Left(req, workers, k - 1), k - 1, w);
    }
  }

  lemma {:induction false} CandidateCounts(workers: seq<WorkerView>, size: nat, c: Candidate)
    ensures multiset(Candidates(workers, size))[c] ==
            if FastestTier(c.view, size) == Some(c.tier) then multiset(workers)[c.view] else 0
  {
    if workers != [] {
      CandidateCounts(workers[1..], size, c);
      assert workers == [workers[0]] + workers[1..];
    }
  }

  /** Exactly the eligible Workers with room are able, each on its fastest tier with room. */
  lemma AbleCounts(req: Request, workers: seq<WorkerView>, c: Candidate)
    ensures multiset(Able(req, workers))[c] ==
            if Eligible(req, c.view) && FastestTier(c.view, req.layout.blockSize) == Some(c.tier) then multiset(workers)[c.view] else 0
  {
    LeftCounts(req, workers, 3, c.view);
    CandidateCounts(Left(req, workers, 3), req.layout.blockSize, c);
  }

  lemma AbleIn(req: Request, workers: seq<WorkerView>)
    ensures forall c :: c in Able(req, workers) <==>
              c.view in workers && Eligible(req, c.view) && FastestTier(c.view, req.layout.blockSize) == Some(c.tier)
  {
    hide Eligible, FastestTier, Able;
    forall c ensures c in Able(req, workers) <==>
              c.view in workers && Eligible(req, c.view) && FastestTier(c.view, req.layout.blockSize) == Some(c.tier)
    {
      AbleCounts(req, workers, c);
      assert c in Able(req, workers) <==> c in multiset(Able(req, workers));
      assert c.view in workers <==> c.view in multiset(workers);
    }
  }

  lemma AbleApart(req: Request, workers: seq<WorkerView>)
    requires UniqueIds(workers, req.group)
    ensures IdsApart(Able(req, workers))
  {
    hide Able, Candidates, FastestTier, Left;
    var able := Able(req, workers);
    AbleIn(req, workers);
    forall i, j | 0 <= i < j < |able| ensures able[i].view.id != able[j].view.id {
      assert able[i] in able && able[j] in able;
      InGroup(req, able[i].view);
      InGroup(req, able[j].view);
      TwoPlaces(req, workers, i, j);
    }
  }

  lemma InGroup(req: Request, w: WorkerView)
    requires Eligible(req, w)
    ensures w.group == req.group && w.runId.Some?
  {
    assert Passes(req, w, 2) && Passes(req, w, 1) && Check(req, w, 0);
  }

  /** Two candidates come from two places of the Worker list. */
  lemma TwoPlaces(req: Request, workers: seq<WorkerView>, i: nat, j: nat)
    requires i < j < |Able(req, workers)|
    ensures exists p, q :: 0 <= p < |workers| && 0 <= q < |workers| && p != q
              && workers[p] == Able(req, workers)[i].view && workers[q] == Able(req, workers)[j].view
  {
    hide Able, Candidates, FastestTier, Left;
    var able := Able(req, workers);
    AbleIn(req, workers);
    var x, y := able[i].view, able[j].view;
    assert able[i] in able && able[j] in able;
    if x == y {
      assert able == able[..i] + [able[i]] + able[i + 1..j] + [able[j]] + able[j + 1..];
      AbleCounts(req, workers, able[i]);
      Occurrences(workers, x, x);
    } else {
      var p :| 0 <= p < |workers| && workers[p] == x;
      var q :| 0 <= q < |workers| && workers[q] == y;
    }
  }

  /** With one candidate a Worker the selection takes the first of them. */
  lemma {:induction false} SelectTakes(s: seq<Candidate>, seen: set<WorkerId>, target: nat)
    requires IdsApart(s) && forall k :: 0 <= k < |s| ==> s[k].view.id !in seen && s[k].view.runId.Some?
    ensures var chosen := Select(s, seen, target);
            && |chosen| == (if target < |s| then target else |s|)
            && forall k :: 0 <= k < |chosen| ==> chosen[k] == Choose(s[k])
  {
    if s != [] && target > 0 {
      var rest := s[1..];
      assert forall k :: 0 <= k < |rest| ==> rest[k] == s[k + 1];
      forall k | 0 <= k < |rest| ensures rest[k].view.id !in seen + {s[0].view.id} {
        assert s[0].view.id != s[k + 1].view.id;
      }
      SelectTakes(rest, seen + {s[0].view.id}, target - 1);
    }
  }

  /** The candidates in order of preference. */
  function Ranked(req: Request, workers: seq<WorkerView>): seq<Candidate> {
    StableSort(Able(req, workers), Preference(req))
  }

  lemma RankedIn(req: Request, workers: seq<WorkerView>)
    ensures |Ranked(req, workers)| == |Able(req, workers)| && Sorted(Ranked(req, workers), Preference(req))
    ensures forall c :: c in Ranked(req, workers) <==> c in Able(req, workers)
  {
    var able := Able(req, workers);
    SortPermutes(able, Preference(req));
    SortSorted(able, Preference(req));
    SameMembers(able, Ranked(req, workers));
  }

  lemma PreferenceApart(req: Request, candidates: seq<Candidate>)
    requires IdsApart(candidates)
    ensures KeysApart(candidates, Preference(req))
  {
    forall i, j | 0 <= i < j < |candidates| ensures Preference(req)(candidates[i]) != Preference(req)(candidates[j]) {
      assert Preference(req)(candidates[i])[3] == candidates[i].view.id;
      assert Preference(req)(candidates[j])[3] == candidates[j].view.id;
    }
  }

  lemma ApartPermutes(a: seq<Candidate>, b: seq<Candidate>)
    requires IdsApart(a) && multiset(a) == multiset(b)
    ensures IdsApart(b)
  {
    forall i, j | 0 <= i < j < |b| ensures b[i].view.id != b[j].view.id {
      PairWithin(b, i, j);
      Occurrences(a, b[i], b[j]);
    }
  }

  lemma RankedApart(req: Request, workers: seq<WorkerView>)
    requires UniqueIds(workers, req.group)
    ensures IdsApart(Ranked(req, workers))
    ensures forall k :: 0 <= k < |Ranked(req, workers)| ==> Ranked(req, workers)[k].view.runId.Some?
  {
    hide Able, IdsApart;
    AbleApart(req, workers);
    SortPermutes(Able(req, workers), Preference(req));
    ApartPermutes(Able(req, workers), Ranked(req, workers));
    RankedIn(req, workers);
    AbleIn(req, workers);
    forall k | 0 <= k < |Ranked(req, workers)| ensures Ranked(req, workers)[k].view.runId.Some? {
      assert Ranked(req, workers)[k] in Ranked(req, workers);
      InGroup(req, Ranked(req, workers)[k].view);
    }
  }

  /** When someone is able to take a replica, the outcome is the selection from the ranking. */
  lemma PlacedFrom(req: Request, workers: seq<WorkerView>)
    ensures var out := PlaceBlock(req, workers);
            if Able(req, workers) == [] then out.workers == [] && out.status != Placed && out.status != NotEnoughReplicas
            else
              && out.workers == Select(Ranked(req, workers), {}, Target(req))
              && out.status == if |out.workers| < Target(req) then NotEnoughReplicas else Placed
  {
    hide Select, StableSort, Preference, Left;
    if Able(req, workers) != [] {
      LeftShrinks(req, workers);
      AbleHasTier(Left(req, workers, 3), req.layout.blockSize);
    }
  }

  lemma LeftShrinks(req: Request, workers: seq<WorkerView>)
    requires Left(req, workers, 3) != []
    ensures Left(req, workers, 2) != [] && Left(req, workers, 1) != []
  {
    assert Left(req, workers, 3) == Filter(req, Left(req, workers, 2), 2);
    assert Left(req, workers, 2) == Filter(req, Left(req, workers, 1), 1);
  }

  lemma {:induction false} AbleHasTier(workers: seq<WorkerView>, size: nat)
    requires Candidates(workers, size) != []
    ensures workers != [] && SomeTier(workers)
  {
    if FastestTier(workers[0], size).Some? {
      assert HasTier(workers[0]);
    } else {
      AbleHasTier(workers[1..], size);
      var k :| 0 <= k < |workers[1..]| && HasTier(workers[1..][k]);
      assert workers[k + 1] == workers[1..][k];
    }
  }

  /** The replicas chosen: the best able Workers, as many as wanted or all there are. */
  ghost function Picked(req: Request, workers: seq<WorkerView>): seq<Candidate> {
    var ranked := Ranked(req, workers);
    ranked[..if Target(req) < |ranked| then Target(req) else |ranked|]
  }

  /** With unique Worker ids exactly the best min(target, able) Workers are chosen, best first,
      each on its fastest tier with room: faster tiers first, then closer Workers, then by hash
      and id. At least one replica is wanted. */
  lemma WritePlacementBest(req: Request, workers: seq<WorkerView>)
    requires UniqueIds(workers, req.group)
    ensures var picked, chosen := Picked(req, workers), PlaceBlock(req, workers).workers;
            var wanted := if req.targetReplicas == 0 then 1 else req.targetReplicas;
            && |chosen| == |picked| == (if wanted < |Able(req, workers)| then wanted else |Able(req, workers)|)
            && IdsApart(picked)
            && (forall k :: 0 <= k < |picked| ==>
                  && picked[k] in Able(req, workers)
                  && chosen[k].id == picked[k].view.id && Some(chosen[k].runId) == picked[k].view.runId
                  && chosen[k].endpoint == picked[k].view.endpoint && chosen[k].protocol == picked[k].view.protocol
                  && chosen[k].tier == Some(picked[k].tier))
            && (forall j, k {:trigger picked[j], picked[k]} :: 0 <= j < k < |picked| ==> Prefers(req, picked[j], picked[k]))
            && (forall c, k {:trigger Prefers(req, picked[k], c)} :: c in Able(req, workers) && c !in picked && 0 <= k < |picked| ==>
                  Prefers(req, picked[k], c))
            && (PlaceBlock(req, workers).status == Placed <==> |Able(req, workers)| >= wanted)
  {
    hide Able, Preference, PlaceBlock, Select, Ranked, Prefers;
    var ranked, picked := Ranked(req, workers), Picked(req, workers);
    RankedApart(req, workers);
    RankedIn(req, workers);
    PlacedFrom(req, workers);
    SelectTakes(ranked, {}, Target(req));
    forall k | 0 <= k < |picked| ensures picked[k] in Able(req, workers) {
      assert ranked[k] in ranked;
    }
    forall j, k | 0 <= j < k < |picked| ensures Prefers(req, picked[j], picked[k]) {
      assert LexLe(Preference(req)(ranked[j]), Preference(req)(ranked[k]));
      PreferenceMeans(req, picked[j], picked[k]);
    }
    forall c, k | c in Able(req, workers) && c !in picked && 0 <= k < |picked| ensures Prefers(req, picked[k], c) {
      BestFirst(ranked, |picked|, Preference(req), k, c);
      PreferenceMeans(req, picked[k], c);
    }
  }

  lemma BestFirst<T>(s: seq<T>, n: nat, key: T -> Key, k: nat, c: T)
    requires n <= |s| && Sorted(s, key) && c in s && c !in s[..n] && k < n
    ensures LexLe(key(s[k]), key(c))
  {
    var j :| 0 <= j < |s| && s[j] == c;
  }

  /** Some Worker passes the first `k` filters. */
  ghost predicate SomePasses(req: Request, workers: seq<WorkerView>, k: nat) {
    exists w :: w in workers && Passes(req, w, k)
  }

  lemma LeftIn(req: Request, workers: seq<WorkerView>, k: nat)
    ensures forall w :: w in Left(req, workers, k) <==> w in workers && Passes(req, w, k)
    ensures Left(req, workers, k) == [] <==> !SomePasses(req, workers, k)
  {
    hide Left, Passes;
    var left := Left(req, workers, k);
    forall w ensures w in left <==> w in workers && Passes(req, w, k) {
      LeftCounts(req, workers, k, w);
      assert w in left <==> w in multiset(left);
      assert w in workers <==> w in multiset(workers);
    }
    if left != [] {
      assert left[0] in left;
    }
  }

  /** The Workers considered for a write, on the fields of their reports. */
  lemma AbleExact(req: Request, workers: seq<WorkerView>)
    ensures forall c :: c in Able(req, workers) <==>
              c.view in workers && Suited(req, c.view) && Takes(c.view, c.tier, req.layout.blockSize)
  {
    hide Able, Eligible, Suited, FastestTier, Takes;
    AbleIn(req, workers);
    forall c ensures c in Able(req, workers) <==>
              c.view in workers && Suited(req, c.view) && Takes(c.view, c.tier, req.layout.blockSize)
    {
      EligibleExact(req, c.view);
      TierExact(c.view, req.layout.blockSize, c.tier);
    }
  }

  lemma SomePassesExact(req: Request, workers: seq<WorkerView>)
    ensures SomePasses(req, workers, 1) <==> exists w :: w in workers && InService(req, w)
    ensures SomePasses(req, workers, 2) <==> exists w :: w in workers && Admitted(req, w)
    ensures SomePasses(req, workers, 3) <==> exists w :: w in workers && Suited(req, w)
  {
    hide Passes, InService, Admitted, Suited;
    forall w | w in workers
      ensures (Passes(req, w, 1) <==> InService(req, w)) && (Passes(req, w, 2) <==> Admitted(req, w))
              && (Passes(req, w, 3) <==> Suited(req, w))
    {
      EligibleExact(req, w);
    }
  }

  /** What is wrong with a placement that fails: nobody is live, everybody is excluded, nobody knows
      the format, nobody has a tier that keeps blocks, or nobody has room on one. */
  lemma FailureStatusExact(req: Request, workers: seq<WorkerView>)
    ensures Able(req, workers) == [] ==>
              PlaceBlock(req, workers).status ==
                if !exists w :: w in workers && InService(req, w) then NoLiveWorker
                else if !exists w :: w in workers && Admitted(req, w) then NoEligibleWorker
                else if !exists w :: w in workers && Suited(req, w) then UnsupportedBlockFormat
                else if forall w :: w in workers && Suited(req, w) ==> Volatile(w) then NoWritableTier
                else InsufficientCapacity
    ensures Able(req, workers) == [] <==>
              forall w, tier :: w in workers && Suited(req, w) ==> !Takes(w, tier, req.layout.blockSize)
  {
    hide Left, SomePasses, Candidates, HasTier, Passes, InService, Admitted, Suited, Takes, Volatile, Able, Check;
    LeftIn(req, workers, 1);
    LeftIn(req, workers, 2);
    LeftIn(req, workers, 3);
    SomePassesExact(req, workers);
    SomeTierIn(Left(req, workers, 3));
    AbleIsCandidates(req, workers);
    AbleExact(req, workers);
    forall w | w in workers ensures (Passes(req, w, 3) <==> Suited(req, w)) && (HasTier(w) <==> !Volatile(w)) {
      EligibleExact(req, w);
      TiersExact(w);
    }
    var able := Able(req, workers);
    forall w, tier | w in workers && Suited(req, w) && Takes(w, tier, req.layout.blockSize) ensures able != [] {
      assert Candidate(w, tier) in able;
    }
    assert able != [] ==> able[0] in able;
  }

  lemma AbleIsCandidates(req: Request, workers: seq<WorkerView>)
    ensures Able(req, workers) == Candidates(Left(req, workers, 3), req.layout.blockSize)
  {
  }

  lemma SomeTierIn(workers: seq<WorkerView>)
    ensures SomeTier(workers) <==> exists w :: w in workers && HasTier(w)
  {
  }

  // ---- Order independence ----------------------------------------------------------------------

  lemma AblePermutes(req: Request, a: seq<WorkerView>, b: seq<WorkerView>)
    requires multiset(a) == multiset(b)
    ensures multiset(Able(req, a)) == multiset(Able(req, b))
  {
    hide Able, Passes, FastestTier;
    forall c ensures multiset(Able(req, a))[c] == multiset(Able(req, b))[c] {
      AbleCounts(req, a, c);
      AbleCounts(req, b, c);
    }
  }

  /** With unique Worker ids neither the replicas nor the status depend on the order in which the
      Workers are listed. */
  lemma PlacementIgnoresOrder(req: Request, a: seq<WorkerView>, b: seq<WorkerView>)
    requires multiset(a) == multiset(b) && UniqueIds(a, req.group)
    ensures PlaceBlock(req, a) == PlaceBlock(req, b)
  {
    hide Able, PlaceBlock, Select, Preference, Passes, HasTier, FastestTier, IdsApart;
    AblePermutes(req, a, b);
    SameMembers(a, b);
    PlacedFrom(req, a);
    PlacedFrom(req, b);
    FailureStatusExact(req, a);
    FailureStatusExact(req, b);
    assert |multiset(Able(req, a))| == |Able(req, a)| && |multiset(Able(req, b))| == |Able(req, b)|;
    SameRanking(req, a, b);
  }

  lemma SameRanking(req: Request, a: seq<WorkerView>, b: seq<WorkerView>)
    requires multiset(Able(req, a)) == multiset(Able(req, b)) && UniqueIds(a, req.group)
    ensures Ranked(req, a) == Ranked(req, b)
  {
    hide Able, Preference, IdsApart;
    RankedApart(req, a);
    PreferenceApart(req, Ranked(req, a));
    SortPermutes(Able(req, a), Preference(req));
    SortPermutes(Able(req, b), Preference(req));
    SortSorted(Able(req, a), Preference(req));
    SortSorted(Able(req, b), Preference(req));
    SortedUnique(Ranked(req, a), Ranked(req, b), Preference(req));
  }

  // ---- Reads ---------------------------------------------------------------------------------

  /** The report is about the requested block and the reported copy is long enough. */
  predicate Adequate(req: Request, r: Report) {
    r.group == req.group && r.blockId == req.blockId && r.durableLen >= req.visibleLen
  }

  function FirstView(workers: seq<WorkerView>, group: string, id: WorkerId): Option<WorkerView> {
    if workers == [] then None
    else if workers[0].group == group && workers[0].id == id then Some(workers[0])
    else FirstView(workers[1..], group, id)
  }

  /** The Worker a report leads to: the first one listed under its id, if it is live in the run
      that reported. */
  function Reported(req: Request, workers: seq<WorkerView>, r: Report): Option<WorkerView> {
    var view := FirstView(workers, req.group, r.worker);
    if view.Some? && Live(view.value) && view.value.runId == Some(r.runId) then view else None
  }

  /** The Workers of the reports in order, taking the first adequate report of each id. */
  function Holders(req: Request, workers: seq<WorkerView>, reports: seq<Report>, seen: set<WorkerId>): seq<WorkerView> {
    if reports == [] then []
    else
      var r := reports[0];
      if !Adequate(req, r) || r.worker in seen then Holders(req, workers, reports[1..], seen)
      else
        var view := Reported(req, workers, r);
        (if view.Some? then [view.value] else []) + Holders(req, workers, reports[1..], seen + {r.worker})
  }

  function ReadPreference(req: Request): WorkerView -> Key {
    (w: WorkerView) => [Locality(req.caller, w.place), StableOrder(req.group, req.blockId, w.id), w.id]
  }

  function ChosenForRead(w: WorkerView): Chosen
    requires w.runId.Some?
  {
    Chosen(w.id, w.runId.value, w.endpoint, w.protocol, None)
  }

  function ReadFrom(views: seq<WorkerView>): seq<Chosen> {
    if views == [] then []
    else (if views[0].runId.Some? then [ChosenForRead(views[0])] else []) + ReadFrom(views[1..])
  }

  /** `choose_read`. */
  method ChooseRead(req: Request, workers: seq<WorkerView>) returns (r: Outcome)
    ensures r.workers == ReadFrom(StableSort(Holders(req, workers, req.existing, {}), ReadPreference(req)))
    ensures r.status == if r.workers == [] then NoLiveReplica else Placed
  {
    hide Reported, StableSort, ReadPreference, ReadFrom;
    var seen: set<WorkerId> := {};
    var candidates: seq<WorkerView> := [];
    for k := 0 to |req.existing|
      invariant Holders(req, workers, req.existing, {}) == candidates + Holders(req, workers, req.existing[k..], seen)
    {
      assert req.existing[k..][1..] == req.existing[k + 1..];
      var report := req.existing[k];
      if Adequate(req, report) && report.worker !in seen {
        seen := seen + {report.worker};
        var view := Reported(req, workers, report);
        if view.Some? {
          candidates := candidates + [view.value];
        }
      }
    }
    assert candidates == Holders(req, workers, req.existing, {});
    var selected := ReadFrom(StableSort(candidates, ReadPreference(req)));
    return Outcome(selected, if selected == [] then NoLiveReplica else Placed);
  }

  function FirstReport(req: Request, reports: seq<Report>, id: WorkerId): Option<Report> {
    if reports == [] then None
    else if Adequate(req, reports[0]) && reports[0].worker == id then Some(reports[0])
    else FirstReport(req, reports[1..], id)
  }

  /** The Worker's first adequate report leads to it. */
  predicate Holds(req: Request, workers: seq<WorkerView>, reports: seq<Report>, w: WorkerView) {
    var first := FirstReport(req, reports, w.id);
    first.Some? && Reported(req, workers, first.value) == Some(w)
  }

  lemma {:induction false} FirstViewNamed(workers: seq<WorkerView>, group: string, id: WorkerId)
    ensures FirstView(workers, group, id).Some? ==>
              var w := FirstView(workers, group, id).value; w in workers && w.group == group && w.id == id
  {
    if workers != [] {
      FirstViewNamed(workers[1..], group, id);
    }
  }

  /** Exactly the Workers whose first adequate report leads to them, and none twice. */
  lemma {:induction false} HoldersExact(req: Request, workers: seq<WorkerView>, reports: seq<Report>, seen: set<WorkerId>)
    ensures var holders := Holders(req, workers, reports, seen);
            && (forall w :: w in holders <==> w.id !in seen && Holds(req, workers, reports, w))
            && (forall i, j {:trigger holders[i], holders[j]} :: 0 <= i < j < |holders| ==> holders[i].id != holders[j].id)
  {
    if reports != [] {
      var r := reports[0];
      FirstViewNamed(workers, req.group, r.worker);
      if !Adequate(req, r) || r.worker in seen {
        HoldersExact(req, workers, reports[1..], seen);
      } else {
        HoldersExact(req, workers, reports[1..], seen + {r.worker});
        HoldersApart(Reported(req, workers, r), Holders(req, workers, reports[1..], seen + {r.worker}), r.worker);
      }
    }
  }

  lemma HoldersApart(view: Option<WorkerView>, rest: seq<WorkerView>, id: WorkerId)
    requires view.Some? ==> view.value.id == id
    requires forall w :: w in rest ==> w.id != id
    requires forall i, j {:trigger rest[i], rest[j]} :: 0 <= i < j < |rest| ==> rest[i].id != rest[j].id
    ensures var all := (if view.Some? then [view.value] else []) + rest;
            forall i, j {:trigger all[i], all[j]} :: 0 <= i < j < |all| ==> all[i].id != all[j].id
  {
    if view.Some? {
      var all := [view.value] + rest;
      forall i, j | 0 <= i < j < |all| ensures all[i].id != all[j].id {
        assert all[j] == rest[j - 1] && rest[j - 1] in rest;
        assert i > 0 ==> all[i] == rest[i - 1];
      }
    }
  }

  /** A live Worker that reports an adequate copy under its current run is not offered, because an
      earlier report of it names an old run. */
  lemma OldReportHidesHolder(req: Request, w: WorkerView, stale: nat)
    requires w.group == req.group && Live(w) && w.runId != Some(stale)
    requires req.existing == [Report(req.group, req.blockId, req.visibleLen, w.id, stale),
                              Report(req.group, req.blockId, req.visibleLen, w.id, w.runId.value)]
    ensures Adequate(req, req.existing[1]) && Reported(req, [w], req.existing[1]) == Some(w)
    ensures Holders(req, [w], req.existing, {}) == []
  {
    var second := req.existing[1];
    assert req.existing[1..] == [second] && [second][1..] == [];
    assert FirstView([w], req.group, w.id) == Some(w);
    assert {} + {w.id} == {w.id} && Holders(req, [w], [second], {w.id}) == [];
    assert Reported(req, [w], req.existing[0]).None?;
  }

  /** The replicas offered for a read: the holders, closest first, each live in the group and
      with an adequate report from its current run. */
  lemma ReadReplicasExact(req: Request, workers: seq<WorkerView>)
    ensures var sorted := StableSort(Holders(req, workers, req.existing, {}), ReadPreference(req));
            && |ReadFrom(sorted)| == |sorted|
            && (forall j, k {:trigger sorted[j], sorted[k]} :: 0 <= j < k < |sorted| ==> PrefersWorker(req, sorted[j], sorted[k]))
            && (forall k :: 0 <= k < |sorted| ==>
                  && sorted[k].runId.Some?
                  && ReadFrom(sorted)[k] == Chosen(sorted[k].id, sorted[k].runId.value, sorted[k].endpoint, sorted[k].protocol, None)
                  && sorted[k] in workers && sorted[k].group == req.group && Live(sorted[k]))
            && (forall w :: w in sorted <==> Holds(req, workers, req.existing, w))
  {
    var holders := Holders(req, workers, req.existing, {});
    var sorted := StableSort(holders, ReadPreference(req));
    HoldersExact(req, workers, req.existing, {});
    SortPermutes(holders, ReadPreference(req));
    SortSorted(holders, ReadPreference(req));
    SameMembers(holders, sorted);
    forall j, k | 0 <= j < k < |sorted| ensures PrefersWorker(req, sorted[j], sorted[k]) {
      assert LexLe(ReadPreference(req)(sorted[j]), ReadPreference(req)(sorted[k]));
      ReadPreferenceMeans(req, sorted[j], sorted[k]);
    }
    forall k | 0 <= k < |sorted|
      ensures sorted[k].runId.Some? && sorted[k] in workers && sorted[k].group == req.group && Live(sorted[k])
    {
      assert sorted[k] in sorted;
      FirstViewNamed(workers, req.group, FirstReport(req, req.existing, sorted[k].id).value.worker);
    }
    ReadFromAll(sorted);
  }

  lemma {:induction false} ReadFromAll(views: seq<WorkerView>)
    requires forall k :: 0 <= k < |views| ==> views[k].runId.Some?
    ensures |ReadFrom(views)| == |views|
    ensures forall k :: 0 <= k < |views| ==> ReadFrom(views)[k] == ChosenForRead(views[k])
  {
    if views != [] {
      assert forall k :: 0 <= k < |views[1..]| ==> views[1..][k] == views[k + 1];
      ReadFromAll(views[1..]);
    }
  }
}
