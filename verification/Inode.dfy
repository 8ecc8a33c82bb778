/** Durable file state: fixed-block layout arithmetic, publication merging and the
    evidence that lets a lost CommitFile response be answered again. */
module Inode {
  import opened BerylTypes

  const MAX_FILE_BLOCKS: nat := 10_000

  datatype MetadataError =
    InvalidArgument | Again | Internal | ResourceExhausted | IsDir | LeaseFenced

  datatype PublishMode = ReplaceIfUnchanged | AppendIfUnchanged

  datatype CommittedBlock = CommittedBlock(blockId: BlockId, len: nat)

  datatype FilePublication = FilePublication(
    blocks: seq<CommittedBlock>,
    targetSize: nat,
    expectedGeneration: Generation,
    expectedFileSize: nat,
    epoch: LeaseEpoch,
    mode: PublishMode)

  datatype FileCommit = FileCommit(
    client: ClientId,
    call: nat,
    epoch: LeaseEpoch,
    expectedGeneration: Generation,
    expectedFileSize: nat,
    mode: PublishMode,
    committedSize: nat,
    generation: Generation)

  datatype FileData = FileData(
    layout: FileLayout,
    len: nat,
    generation: Generation,
    blocks: seq<BlockId>,
    nextIndex: nat,
    epoch: LeaseEpoch,
    lastCommit: Option<FileCommit>)

  datatype Inode = FileInode(id: InodeId, file: FileData) | DirInode(id: InodeId)

  // ---- Fixed-block arithmetic -------------------------------------------------

  function Ceil(len: nat, capacity: nat): nat
    requires capacity > 0
  {
    if len == 0 then 0 else (len - 1) / capacity + 1
  }

  /** `FileData::block_count`. */
  function BlockCount(len: nat, capacity: nat): Result<nat, MetadataError> {
    if capacity == 0 then Err(InvalidArgument)
    else if Ceil(len, capacity) > MAX_FILE_BLOCKS then Err(ResourceExhausted)
    else Ok(Ceil(len, capacity))
  }

  /** `visible_block_len`; the subtraction is safe exactly for the ordinals of the layout. */
  function VisibleLen(len: nat, capacity: nat, ordinal: nat): int {
    var rest := len - ordinal * capacity;
    if rest < capacity then rest else capacity
  }

  /** The ordinals of a layout are the multiples of the capacity below its length. */
  lemma CeilBounds(len: nat, capacity: nat, ordinal: nat)
    requires capacity > 0
    ensures ordinal < Ceil(len, capacity) <==> ordinal * capacity < len
  {
    if len > 0 {
      var q := (len - 1) / capacity;
      assert q * capacity <= len - 1 < q * capacity + capacity;
      if ordinal <= q {
        TimesMonotone(ordinal, q, capacity);
      } else {
        TimesMonotone(q + 1, ordinal, capacity);
        assert (q + 1) * capacity == q * capacity + capacity;
      }
    }
  }

  /** A file has a block count exactly if its bytes fit in the most blocks a file may have, and then
      the fewest blocks that hold them. */
  lemma BlockCountExact(len: nat, capacity: nat)
    requires capacity > 0
    ensures var count := BlockCount(len, capacity);
            && (count.Ok? <==> len <= MAX_FILE_BLOCKS * capacity)
            && (count.Err? ==> count.error == ResourceExhausted)
            && (count.Ok? ==> len <= count.value * capacity && (count.value > 0 ==> (count.value - 1) * capacity < len))
  {
    var n := Ceil(len, capacity);
    CeilBounds(len, capacity, MAX_FILE_BLOCKS);
    CeilBounds(len, capacity, n);
    if n > 0 {
      CeilBounds(len, capacity, n - 1);
    }
  }

  lemma TimesMonotone(a: nat, b: nat, c: nat)
    requires a <= b
    ensures a * c <= b * c
  {
    assert b * c == a * c + (b - a) * c;
  }

  function LenSum(len: nat, capacity: nat, n: nat): int {
    if n == 0 then 0 else LenSum(len, capacity, n - 1) + VisibleLen(len, capacity, n - 1)
  }

  lemma {:induction false} LenSumPrefix(len: nat, capacity: nat, n: nat)
    requires capacity > 0 && n <= Ceil(len, capacity)
    ensures LenSum(len, capacity, n) == if n * capacity <= len then n * capacity else len
  {
    if n > 0 {
      LenSumPrefix(len, capacity, n - 1);
      CeilBounds(len, capacity, n - 1);
      assert n * capacity == (n - 1) * capacity + capacity;
    }
  }

  /** Every visible block holds between one byte and its capacity, and together they hold
      exactly the visible length. */
  lemma VisibleLengthsPartition(len: nat, capacity: nat)
    requires capacity > 0
    ensures forall k: nat :: k < Ceil(len, capacity) ==> 1 <= VisibleLen(len, capacity, k) <= capacity
    ensures LenSum(len, capacity, Ceil(len, capacity)) == len
  {
    forall k: nat | k < Ceil(len, capacity)
      ensures 1 <= VisibleLen(len, capacity, k) <= capacity
    {
      CeilBounds(len, capacity, k);
    }
    LenSumPrefix(len, capacity, Ceil(len, capacity));
    CeilBounds(len, capacity, Ceil(len, capacity));
  }

  // ---- Validation -------------------------------------------------------------

  ghost predicate Distinct<T(!new)>(s: seq<T>) {
    forall i, j :: 0 <= i < j < |s| ==> s[i] != s[j]
  }

  predicate Allocated(b: BlockId, inode: InodeId, nextIndex: nat) {
    b.inode == inode && b.index < nextIndex
  }

  ghost predicate IdentitiesValid(blocks: seq<BlockId>, inode: InodeId, nextIndex: nat) {
    && Distinct(blocks)
    && forall k :: 0 <= k < |blocks| ==> Allocated(blocks[k], inode, nextIndex)
  }

  /** What `FileData::validate` accepts. */
  ghost predicate FileValid(file: FileData, inode: InodeId) {
    && LayoutValid(file.layout)
    && BlockCount(file.len, file.layout.blockSize) == Ok(|file.blocks|)
    && IdentitiesValid(file.blocks, inode, file.nextIndex)
  }

  ghost function ValidationError(file: FileData): MetadataError {
    if LayoutValid(file.layout) && BlockCount(file.len, file.layout.blockSize).Err?
    then ResourceExhausted else Internal
  }

  method Validate(file: FileData, inode: InodeId) returns (r: Result<(), MetadataError>)
    ensures r.Ok? <==> FileValid(file, inode)
    ensures r.Err? ==> r.error == ValidationError(file)
  {
    if !LayoutValid(file.layout) {
      return Err(Internal);
    }
    var count := BlockCount(file.len, file.layout.blockSize);
    if count.Err? {
      return Err(count.error);
    }
    if |file.blocks| != count.value {
      return Err(Internal);
    }
    var seen: set<BlockId> := {};
    for k := 0 to |file.blocks|
      invariant forall b :: b in seen <==> b in file.blocks[..k]
      invariant IdentitiesValid(file.blocks[..k], inode, file.nextIndex)
    {
      var b := file.blocks[k];
      assert file.blocks[..k + 1] == file.blocks[..k] + [b];
      if !Allocated(b, inode, file.nextIndex) || b in seen {
        return Err(Internal);
      }
      seen := seen + {b};
    }
    assert file.blocks[..|file.blocks|] == file.blocks;
    return Ok(());
  }

  // ---- Publication ------------------------------------------------------------

  function Ids(blocks: seq<CommittedBlock>): (r: seq<BlockId>)
    ensures |r| == |blocks|
    ensures forall k :: 0 <= k < |blocks| ==> r[k] == blocks[k].blockId
  {
    seq(|blocks|, k requires 0 <= k < |blocks| => blocks[k].blockId)
  }

  predicate LengthsMatch(p: FilePublication, capacity: nat, start: nat) {
    forall k :: 0 <= k < |p.blocks| ==> p.blocks[k].len == VisibleLen(p.targetSize, capacity, start + k)
  }

  /** `FilePublication::start_index`. */
  function StartIndex(p: FilePublication, file: FileData): Result<nat, MetadataError> {
    var capacity := file.layout.blockSize;
    match BlockCount(p.targetSize, capacity)
    case Err(e) => Err(e)
    case Ok(count) =>
      if p.mode == AppendIfUnchanged && p.targetSize < p.expectedFileSize then Err(InvalidArgument)
      else
        var start :=
          if p.mode == ReplaceIfUnchanged then 0
          else if |p.blocks| == 0 && p.targetSize == p.expectedFileSize then count
          else p.expectedFileSize / capacity;
        if start > count || |p.blocks| != count - start || !LengthsMatch(p, capacity, start)
        then Err(InvalidArgument)
        else Ok(start)
  }

  /** `FilePublication::matches_visible`. */
  function MatchesVisible(p: FilePublication, file: FileData): Result<bool, MetadataError> {
    match StartIndex(p, file)
    case Err(e) => Err(e)
    case Ok(start) =>
      Ok(file.len == p.targetSize && start <= |file.blocks| && file.blocks[start..] == Ids(p.blocks))
  }

  ghost predicate NewBlocksValid(p: FilePublication, inode: InodeId, file: FileData, kept: seq<BlockId>) {
    && Distinct(kept + Ids(p.blocks))
    && (forall k :: 0 <= k < |p.blocks| ==> Allocated(p.blocks[k].blockId, inode, file.nextIndex))
    && (p.mode == ReplaceIfUnchanged ==>
          forall k :: 0 <= k < |p.blocks| ==> p.blocks[k].blockId !in file.blocks)
  }

  /** What `FilePublication::merged_blocks` yields. */
  ghost function Merged(p: FilePublication, inode: InodeId, file: FileData): Result<seq<BlockId>, MetadataError> {
    if !FileValid(file, inode) then Err(ValidationError(file))
    else
      match StartIndex(p, file)
      case Err(e) => Err(e)
      case Ok(start) =>
        if p.mode == AppendIfUnchanged && (file.len != p.expectedFileSize || start > |file.blocks|) then Err(Again)
        else if p.mode == AppendIfUnchanged && start < |file.blocks|
                && (|p.blocks| == 0 || p.blocks[0].blockId != file.blocks[start]) then Err(InvalidArgument)
        else
          var kept := if p.mode == ReplaceIfUnchanged then [] else file.blocks[..start];
          if NewBlocksValid(p, inode, file, kept) then Ok(kept + Ids(p.blocks)) else Err(InvalidArgument)
  }

  method MergedBlocks(p: FilePublication, inode: InodeId, file: FileData)
    returns (r: Result<seq<BlockId>, MetadataError>)
    ensures r == Merged(p, inode, file)
  {
    var validation := Validate(file, inode);
    if validation.Err? {
      return Err(validation.error);
    }
    var first := StartIndex(p, file);
    if first.Err? {
      return Err(first.error);
    }
    var start := first.value;
    var blocks: seq<BlockId> := [];
    if p.mode == AppendIfUnchanged {
      if file.len != p.expectedFileSize || start > |file.blocks| {
        return Err(Again);
      }
      if start < |file.blocks| && (|p.blocks| == 0 || p.blocks[0].blockId != file.blocks[start]) {
        return Err(InvalidArgument);
      }
      blocks := file.blocks[..start];
    }
    ghost var kept := blocks;
    ghost var ids := Ids(p.blocks);
    var seen := set b | b in blocks;
    for k := 0 to |p.blocks|
      invariant blocks == kept + ids[..k]
      invariant seen == set b | b in blocks
      invariant Distinct(blocks)
      invariant forall j :: 0 <= j < k ==> Allocated(p.blocks[j].blockId, inode, file.nextIndex)
      invariant p.mode == ReplaceIfUnchanged ==> forall j :: 0 <= j < k ==> p.blocks[j].blockId !in file.blocks
    {
      var b := p.blocks[k].blockId;
      if !Allocated(b, inode, file.nextIndex) || b in seen {
        DuplicateRejects(kept, ids, k);
        return Err(InvalidArgument);
      }
      if p.mode == ReplaceIfUnchanged && b in file.blocks {
        return Err(InvalidArgument);
      }
      blocks := blocks + [b];
      seen := seen + {b};
    }
    assert ids[..|p.blocks|] == ids;
    return Ok(blocks);
  }

  lemma DuplicateRejects(kept: seq<BlockId>, ids: seq<BlockId>, k: nat)
    requires k < |ids|
    ensures ids[k] in kept + ids[..k] ==> !Distinct(kept + ids)
  {
    var all := kept + ids;
    assert all[|kept| + k] == ids[k];
    assert kept + ids[..k] == all[..|kept| + k];
  }

  /** The file that results from installing a merged layout. */
  function Installed(p: FilePublication, file: FileData, blocks: seq<BlockId>): FileData {
    file.(blocks := blocks, len := p.targetSize)
  }

  /** The block and in-block offset that hold one byte of the file. */
  function Locate(file: FileData, offset: nat): (BlockId, nat)
    requires file.layout.blockSize > 0 && offset / file.layout.blockSize < |file.blocks|
  {
    (file.blocks[offset / file.layout.blockSize], offset % file.layout.blockSize)
  }

  lemma OffsetHasBlock(len: nat, capacity: nat, offset: nat)
    requires capacity > 0 && offset < len
    ensures offset / capacity < Ceil(len, capacity)
  {
    CeilBounds(len, capacity, offset / capacity);
    assert offset / capacity * capacity <= offset;
  }

  /** The start of an append is the whole-block prefix of the base, or its block count for
      an exact no-op. */
  lemma AppendStart(len: nat, capacity: nat)
    requires capacity > 0
    ensures len % capacity == 0 ==> len / capacity == Ceil(len, capacity)
    ensures len % capacity != 0 ==> len / capacity + 1 == Ceil(len, capacity)
  {
    var q := len / capacity;
    assert len == q * capacity + len % capacity;
    CeilBounds(len, capacity, q);
    if q > 0 {
      assert (q - 1) * capacity == q * capacity - capacity;
      CeilBounds(len, capacity, q - 1);
    }
    assert (q + 1) * capacity == q * capacity + capacity;
    CeilBounds(len, capacity, q + 1);
  }

  /** An accepted append extends the block list it was based on. */
  lemma AppendExtends(p: FilePublication, inode: InodeId, file: FileData)
    requires Merged(p, inode, file).Ok? && p.mode == AppendIfUnchanged
    ensures file.blocks <= Merged(p, inode, file).value
  {
    AppendStart(file.len, file.layout.blockSize);
    var start := StartIndex(p, file).value;
    var merged := Merged(p, inode, file).value;
    assert merged == file.blocks[..start] + Ids(p.blocks);
    if start < |file.blocks| {
      assert start == |file.blocks| - 1;
      assert file.blocks == file.blocks[..start] + [file.blocks[start]];
    }
  }

  lemma PrefixKeepsBytes(file: FileData, next: FileData, x: nat)
    requires next.layout == file.layout && file.layout.blockSize > 0
    requires |file.blocks| == Ceil(file.len, file.layout.blockSize) && file.blocks <= next.blocks
    requires x < file.len
    ensures x / file.layout.blockSize < |file.blocks|
    ensures Locate(next, x) == Locate(file, x)
  {
    OffsetHasBlock(file.len, file.layout.blockSize, x);
  }

  /** Append keeps every published byte on the same block and in-block offset. */
  lemma AppendKeepsBytes(p: FilePublication, inode: InodeId, file: FileData)
    requires Merged(p, inode, file).Ok? && p.mode == AppendIfUnchanged
    ensures var next := Installed(p, file, Merged(p, inode, file).value);
            && file.len <= next.len
            && forall x: nat :: x < file.len ==>
                 && x / file.layout.blockSize < |file.blocks| <= |next.blocks|
                 && Locate(next, x) == Locate(file, x)
  {
    var next := Installed(p, file, Merged(p, inode, file).value);
    AppendExtends(p, inode, file);
    forall x: nat | x < file.len
      ensures x / file.layout.blockSize < |file.blocks| <= |next.blocks|
      ensures Locate(next, x) == Locate(file, x)
    {
      PrefixKeepsBytes(file, next, x);
    }
  }

  /** Replacement shares no block with the content it replaces. */
  lemma ReplaceUsesNewBlocks(p: FilePublication, inode: InodeId, file: FileData)
    requires Merged(p, inode, file).Ok? && p.mode == ReplaceIfUnchanged
    ensures forall b :: b in Merged(p, inode, file).value ==> b !in file.blocks
  {
    assert Merged(p, inode, file).value == Ids(p.blocks);
  }

  lemma MergedSuffix(p: FilePublication, inode: InodeId, file: FileData)
    requires Merged(p, inode, file).Ok?
    ensures var blocks := Merged(p, inode, file).value;
            var start := StartIndex(p, file).value;
            && |blocks| == start + |p.blocks|
            && BlockCount(p.targetSize, file.layout.blockSize) == Ok(|blocks|)
            && blocks[start..] == Ids(p.blocks)
            && LengthsMatch(p, file.layout.blockSize, start)
            && IdentitiesValid(blocks, inode, file.nextIndex)
  {
    var blocks := Merged(p, inode, file).value;
    var start := StartIndex(p, file).value;
    forall k | 0 <= k < |blocks| ensures Allocated(blocks[k], inode, file.nextIndex) {
      if k >= start {
        assert blocks[k] == p.blocks[k - start].blockId;
      }
    }
  }

  /** A merge of a valid file is valid again, its published suffix carries the visible
      lengths of the new layout, and those lengths add up to the new length. */
  lemma MergeKeepsFileValid(p: FilePublication, inode: InodeId, file: FileData)
    requires Merged(p, inode, file).Ok?
    ensures var blocks := Merged(p, inode, file).value;
            var next := Installed(p, file, blocks);
            var start := |blocks| - |p.blocks|;
            && FileValid(next, inode)
            && 0 <= start
            && blocks[start..] == Ids(p.blocks)
            && LengthsMatch(p, next.layout.blockSize, start)
            && (forall k: nat :: k < |blocks| ==>
                  1 <= VisibleLen(next.len, next.layout.blockSize, k) <= next.layout.blockSize)
            && LenSum(next.len, next.layout.blockSize, |blocks|) == next.len
  {
    MergedSuffix(p, inode, file);
    VisibleLengthsPartition(p.targetSize, file.layout.blockSize);
  }

  // ---- Commit evidence --------------------------------------------------------

  /** `FilePublication::resolve_commit`. */
  function ResolveCommit(p: FilePublication, inode: Inode, client: ClientId, call: nat)
    : Result<Option<Generation>, MetadataError>
  {
    if inode.DirInode? then Err(IsDir)
    else if inode.file.lastCommit.None? then Ok(None)
    else
      var file, commit := inode.file, inode.file.lastCommit.value;
      if commit.client != client || commit.call != call then Ok(None)
      else if commit.generation != file.generation || commit.committedSize != file.len
              || CheckedNext(commit.epoch).None? || file.epoch < CheckedNext(commit.epoch).value then Err(Internal)
      else if !SameHeader(p, commit) then Err(InvalidArgument)
      else
        match MatchesVisible(p, file)
        case Err(e) => Err(e)
        case Ok(matches) => if matches then Ok(Some(commit.generation)) else Err(InvalidArgument)
  }

  predicate SameHeader(p: FilePublication, commit: FileCommit) {
    && commit.epoch == p.epoch
    && commit.expectedGeneration == p.expectedGeneration
    && commit.expectedFileSize == p.expectedFileSize
    && commit.mode == p.mode
    && commit.committedSize == p.targetSize
  }

  // ---- Ordered application ----------------------------------------------------

  datatype Prepared = Prepared(file: FileData, generation: Generation, changed: bool)

  /** `prepare_file_publication`: shared by SyncWrite and CommitFile. */
  ghost function Prepare(p: FilePublication, inode: InodeId, file: FileData): Result<Prepared, MetadataError> {
    if file.epoch != p.epoch then Err(LeaseFenced)
    else
      match MatchesVisible(p, file)
      case Err(e) => Err(e)
      case Ok(matches) =>
        if CheckedNext(p.expectedGeneration) == Some(file.generation) && matches
        then Ok(Prepared(file, file.generation, false))
        else if file.generation != p.expectedGeneration || file.len != p.expectedFileSize then Err(Again)
        else if matches then Ok(Prepared(file, file.generation, false))
        else
          match Merged(p, inode, file)
          case Err(e) => Err(e)
          case Ok(blocks) =>
            match CheckedNext(file.generation)
            case None => Err(InvalidArgument)
            case Some(g) =>
              Ok(Prepared(Installed(p, file, blocks).(generation := g, lastCommit := None), g, true))
  }

  /** `apply_commit_file` on one inode. */
  ghost function ApplyCommit(p: FilePublication, inode: InodeId, file: FileData, client: ClientId, call: nat)
    : Result<(FileData, Generation), MetadataError>
  {
    if !FileValid(file, inode) then Err(ValidationError(file))
    else
      match ResolveCommit(p, FileInode(inode, file), client, call)
      case Err(e) => Err(e)
      case Ok(Some(g)) => Ok((file, g))
      case Ok(None) =>
        if file.generation != p.expectedGeneration then Err(Again)
        else if CheckedNext(p.epoch).None? then Err(InvalidArgument)
        else
          match Prepare(p, inode, file)
          case Err(e) => Err(e)
          case Ok(prepared) =>
            var commit := FileCommit(client, call, p.epoch, p.expectedGeneration, p.expectedFileSize,
                                     p.mode, p.targetSize, prepared.generation);
            Ok((prepared.file.(epoch := CheckedNext(p.epoch).value, lastCommit := Some(commit)),
                prepared.generation))
  }

  /** One ordered mutation of a file inode. `replayOwned` stands for a stored CreateFile
      record that still owns the initial session. */
  datatype FileOp =
    | AllocateBlock(epoch: LeaseEpoch)
    | AcquireLease(expected: LeaseEpoch, replayOwned: bool)
    | EndLease(epoch: LeaseEpoch)
    | PublishFile(publication: FilePublication)
    | CommitFile(publication: FilePublication, client: ClientId, call: nat)

  ghost function Apply(inode: InodeId, file: FileData, op: FileOp): FileData {
    if !FileValid(file, inode) then file
    else
      match op
      case AllocateBlock(epoch) =>
        if file.epoch != epoch || file.nextIndex > U32_MAX then file
        else file.(nextIndex := file.nextIndex + 1)
      case AcquireLease(expected, replayOwned) =>
        if replayOwned || file.epoch != expected || CheckedNext(file.epoch).None? then file
        else file.(epoch := CheckedNext(file.epoch).value)
      case EndLease(epoch) =>
        if file.epoch != epoch || CheckedNext(epoch).None? then file
        else file.(epoch := CheckedNext(epoch).value)
      case PublishFile(p) =>
        (match Prepare(p, inode, file)
         case Err(_) => file
         case Ok(prepared) => prepared.file)
      case CommitFile(p, client, call) =>
        (match ApplyCommit(p, inode, file, client, call)
         case Err(_) => file
         case Ok(result) => result.0)
  }

  ghost function ApplyAll(inode: InodeId, file: FileData, ops: seq<FileOp>): FileData {
    if ops == [] then file else Apply(inode, ApplyAll(inode, file, ops[..|ops| - 1]), ops[|ops| - 1])
  }

  /** `Inode::new_file`. */
  function NewFile(layout: FileLayout): FileData {
    FileData(layout, 0, 0, [], 0, 0, None)
  }

  /** Commit evidence never disagrees with the inode that stores it. */
  ghost predicate EvidenceAgrees(file: FileData) {
    file.lastCommit.Some? ==>
      var commit := file.lastCommit.value;
      && commit.generation == file.generation
      && commit.committedSize == file.len
      && CheckedNext(commit.epoch).Some?
      && commit.epoch < file.epoch
  }

  ghost predicate DurableInv(inode: InodeId, file: FileData) {
    FileValid(file, inode) && EvidenceAgrees(file)
  }

  lemma PrepareKeeps(p: FilePublication, inode: InodeId, file: FileData)
    requires DurableInv(inode, file) && Prepare(p, inode, file).Ok?
    ensures var next := Prepare(p, inode, file).value.file;
            && DurableInv(inode, next)
            && next.epoch == file.epoch && next.nextIndex == file.nextIndex
            && file.generation <= next.generation == Prepare(p, inode, file).value.generation
            && next.len == p.targetSize
  {
    if Prepare(p, inode, file).value.changed {
      MergeKeepsFileValid(p, inode, file);
    }
  }

  /** Every ordered mutation keeps the file valid and its evidence consistent, and never
      moves the fencing epoch, the generation or the allocation cursor backwards. */
  lemma ApplyKeeps(inode: InodeId, file: FileData, op: FileOp)
    requires DurableInv(inode, file)
    ensures var next := Apply(inode, file, op);
            && DurableInv(inode, next)
            && next.layout == file.layout
            && file.epoch <= next.epoch
            && file.generation <= next.generation
            && file.nextIndex <= next.nextIndex
  {
    match op
    case PublishFile(p) =>
      if Prepare(p, inode, file).Ok? { PrepareKeeps(p, inode, file); }
    case CommitFile(p, _, _) =>
      if Prepare(p, inode, file).Ok? { PrepareKeeps(p, inode, file); }
    case _ =>
  }

  lemma {:induction false} DurableRuns(inode: InodeId, file: FileData, ops: seq<FileOp>)
    requires DurableInv(inode, file)
    ensures var last := ApplyAll(inode, file, ops);
            && DurableInv(inode, last)
            && last.layout == file.layout
            && file.epoch <= last.epoch
            && file.generation <= last.generation
            && file.nextIndex <= last.nextIndex
  {
    if ops != [] {
      DurableRuns(inode, file, ops[..|ops| - 1]);
      ApplyKeeps(inode, ApplyAll(inode, file, ops[..|ops| - 1]), ops[|ops| - 1]);
    }
  }

  /** In every run from a new file, no CommitFile replay meets disagreeing evidence. */
  lemma EvidenceNeverDisagrees(inode: InodeId, layout: FileLayout, ops: seq<FileOp>,
                               p: FilePublication, client: ClientId, call: nat)
    requires LayoutValid(layout)
    ensures ResolveCommit(p, FileInode(inode, ApplyAll(inode, NewFile(layout), ops)), client, call) != Err(Internal)
  {
    DurableRuns(inode, NewFile(layout), ops);
  }

  /** A lease acquired later in a run carries a strictly greater epoch: what the session
      registry relies on to tell a replacement session from the one it replaced. */
  lemma AcquiredEpochsIncrease(inode: InodeId, file: FileData, ops: seq<FileOp>,
                               first: LeaseEpoch, second: LeaseEpoch)
    requires DurableInv(inode, file)
    ensures var held := Apply(inode, file, AcquireLease(first, false));
            var before := ApplyAll(inode, held, ops);
            var after := Apply(inode, before, AcquireLease(second, false));
            held.epoch != file.epoch && after.epoch != before.epoch ==> file.epoch < held.epoch < after.epoch
  {
    var held := Apply(inode, file, AcquireLease(first, false));
    ApplyKeeps(inode, file, AcquireLease(first, false));
    DurableRuns(inode, held, ops);
  }

  /** No published block is named twice. */
  ghost predicate Apart(blocks: seq<CommittedBlock>) {
    forall j, k {:trigger blocks[j], blocks[k]} :: 0 <= j < k < |blocks| ==> blocks[j].blockId != blocks[k].blockId
  }

  ghost predicate NoneOf(blocks: seq<CommittedBlock>, kept: seq<BlockId>) {
    forall k :: 0 <= k < |blocks| ==> blocks[k].blockId !in kept
  }

  /** A well-formed payload merges into a valid file exactly if its blocks are allocated blocks of the
      inode, none twice; an append continues the file it expects, the block that holds its end
      included, and brings no earlier block again; a replacement brings no old block at all. */
  lemma MergeExact(p: FilePublication, inode: InodeId, file: FileData, start: nat)
    requires FileValid(file, inode) && StartIndex(p, file) == Ok(start)
    ensures var n := |p.blocks|;
            var r := Merged(p, inode, file);
            && (r.Ok? <==>
                  && (forall k :: 0 <= k < n ==> p.blocks[k].blockId.inode == inode && p.blocks[k].blockId.index < file.nextIndex)
                  && Apart(p.blocks)
                  && match p.mode
                     case ReplaceIfUnchanged => NoneOf(p.blocks, file.blocks)
                     case AppendIfUnchanged =>
                       && file.len == p.expectedFileSize && start <= |file.blocks|
                       && (start < |file.blocks| ==> n > 0 && p.blocks[0].blockId == file.blocks[start])
                       && NoneOf(p.blocks, file.blocks[..start]))
            && (r.Ok? ==>
                  var kept := if p.mode == ReplaceIfUnchanged then 0 else start;
                  && kept <= |file.blocks| && |r.value| == kept + n && r.value[..kept] == file.blocks[..kept]
                  && forall k :: 0 <= k < n ==> r.value[kept + k] == p.blocks[k].blockId)
  {
    hide Distinct, StartIndex, Apart, BlockCount;
    var kept := if p.mode == ReplaceIfUnchanged || start > |file.blocks| then [] else file.blocks[..start];
    DistinctParts(kept, p.blocks);
    PrefixDistinct(file.blocks, |kept|);
    NoneOfNothing(p.blocks);
    assert file.blocks[..0] == [];
  }

  lemma PrefixDistinct(blocks: seq<BlockId>, n: nat)
    requires Distinct(blocks) && n <= |blocks|
    ensures Distinct(blocks[..n])
  {
  }

  lemma NoneOfNothing(blocks: seq<CommittedBlock>)
    ensures NoneOf(blocks, [])
  {
  }

  /** Kept and published blocks are all different exactly if each part is and they share none. */
  lemma DistinctParts(kept: seq<BlockId>, blocks: seq<CommittedBlock>)
    ensures Distinct(kept + Ids(blocks)) <==> Distinct(kept) && Apart(blocks) && NoneOf(blocks, kept)
  {
    hide Distinct, Apart, NoneOf;
    if Distinct(kept + Ids(blocks)) {
      DistinctSplits(kept, blocks);
    }
    if Distinct(kept) && Apart(blocks) && NoneOf(blocks, kept) {
      DistinctJoins(kept, blocks);
    }
  }

  lemma DistinctSplits(kept: seq<BlockId>, blocks: seq<CommittedBlock>)
    requires Distinct(kept + Ids(blocks))
    ensures Distinct(kept) && Apart(blocks) && NoneOf(blocks, kept)
  {
    hide Ids;
    var ids := Ids(blocks);
    var all, n := kept + ids, |kept|;
    forall i, j | 0 <= i < j < n ensures kept[i] != kept[j] {
      assert all[i] == kept[i] && all[j] == kept[j];
    }
    forall j, k | 0 <= j < k < |blocks| ensures blocks[j].blockId != blocks[k].blockId {
      assert all[n + j] == ids[j] && all[n + k] == ids[k];
    }
    forall k, j | 0 <= k < |blocks| && 0 <= j < n ensures blocks[k].blockId != kept[j] {
      assert all[n + k] == ids[k] && all[j] == kept[j];
    }
  }

  lemma DistinctJoins(kept: seq<BlockId>, blocks: seq<CommittedBlock>)
    requires Distinct(kept) && Apart(blocks) && NoneOf(blocks, kept)
    ensures Distinct(kept + Ids(blocks))
  {
    hide Ids;
    var ids := Ids(blocks);
    var all, n := kept + ids, |kept|;
    forall i, j | 0 <= i < j < |all| ensures all[i] != all[j] {
      if i >= n {
        assert all[i] == ids[i - n] && all[j] == ids[j - n];
        assert blocks[i - n].blockId != blocks[j - n].blockId;
      } else if j >= n {
        assert all[j] == ids[j - n] && all[i] == kept[i];
        assert blocks[j - n].blockId !in kept;
      } else {
        assert all[i] == kept[i] && all[j] == kept[j];
      }
    }
  }

  // ---- What an ordered mutation does ---------------------------------------------

  /** The publication expects the file as it is: its epoch, generation and length, with a payload of
      the right shape that is not visible yet, that merges, and a generation left. */
  ghost predicate Expects(p: FilePublication, inode: InodeId, file: FileData) {
    && p.epoch == file.epoch && p.expectedGeneration == file.generation && p.expectedFileSize == file.len
    && MatchesVisible(p, file) == Ok(false) && Merged(p, inode, file).Ok? && file.generation < U64_MAX
  }

  /** A SyncWrite installs its payload exactly if it expects the file as it is, as the generation
      after the expected one; otherwise it leaves the file alone. */
  lemma PublishExact(inode: InodeId, file: FileData, p: FilePublication)
    requires DurableInv(inode, file)
    ensures var next := Apply(inode, file, PublishFile(p));
            if Expects(p, inode, file) then
              && next.len == p.targetSize && next.blocks == Merged(p, inode, file).value
              && next.generation == p.expectedGeneration + 1 && next.lastCommit.None?
              && next.epoch == file.epoch && next.nextIndex == file.nextIndex && next.layout == file.layout
            else next == file
  {
    hide Merged, MatchesVisible, FileValid;
  }

  /** It is accepted exactly then, or if its payload is visible already: in the expected generation at
      the expected length, or in the generation it would have made. A publication of another
      epoch, or of a generation neither equal to the file's nor just before it, is refused. */
  lemma PublishAcceptedExact(inode: InodeId, file: FileData, p: FilePublication)
    ensures Prepare(p, inode, file).Ok? <==>
              || Expects(p, inode, file)
              || (&& p.epoch == file.epoch && MatchesVisible(p, file) == Ok(true)
                  && (p.expectedGeneration + 1 == file.generation <= U64_MAX
                      || (p.expectedGeneration == file.generation && p.expectedFileSize == file.len)))
    ensures p.epoch != file.epoch ==> Prepare(p, inode, file) == Err(LeaseFenced)
    ensures Prepare(p, inode, file).Ok? ==>
              Prepare(p, inode, file).value.generation == if Expects(p, inode, file) then p.expectedGeneration + 1 else file.generation
  {
    hide Merged, MatchesVisible;
  }

  /** A CommitFile of an identity that is not recorded is applied exactly if it expects the file as
      it is, or finds its payload visible in the expected generation and length, and has an epoch
      to move on to; then the file is fenced off, and the request recorded. Otherwise, and for a
      recorded identity, the file stays as it is. */
  lemma CommitExact(inode: InodeId, file: FileData, p: FilePublication, client: ClientId, call: nat)
    requires DurableInv(inode, file)
    ensures var next := Apply(inode, file, CommitFile(p, client, call));
            var recorded := file.lastCommit.Some? && file.lastCommit.value.client == client && file.lastCommit.value.call == call;
            var applied :=
              && !recorded && p.epoch < U64_MAX
              && (Expects(p, inode, file)
                  || (&& p.epoch == file.epoch && p.expectedGeneration == file.generation && p.expectedFileSize == file.len
                      && MatchesVisible(p, file) == Ok(true)));
            && (ApplyCommit(p, inode, file, client, call).Ok? && !recorded <==> applied)
            && if !applied then next == file
               else
                 var generation := if Expects(p, inode, file) then p.expectedGeneration + 1 else p.expectedGeneration;
                 && next.len == p.targetSize && next.generation == generation && next.epoch == p.epoch + 1
                 && next.blocks == (if Expects(p, inode, file) then Merged(p, inode, file).value else file.blocks)
                 && next.nextIndex == file.nextIndex && next.layout == file.layout
                 && next.lastCommit == Some(FileCommit(client, call, p.epoch, p.expectedGeneration, p.expectedFileSize, p.mode,
                                                       p.targetSize, generation))
  {
    hide Merged, FileValid;
  }

  /** How a CommitFile of a recorded identity is answered: with the recorded generation exactly if it
      is the recorded request and its blocks are the visible ones. A request that differs in any
      field of the record is refused as another one, whatever its blocks. */
  lemma ResolveExact(inode: InodeId, file: FileData, p: FilePublication, client: ClientId, call: nat)
    requires DurableInv(inode, file)
    ensures var r := ResolveCommit(p, FileInode(inode, file), client, call);
            if !(file.lastCommit.Some? && file.lastCommit.value.client == client && file.lastCommit.value.call == call)
            then r == Ok(None)
            else
              var c := file.lastCommit.value;
              if && p.epoch == c.epoch && p.expectedGeneration == c.expectedGeneration && p.expectedFileSize == c.expectedFileSize
                 && p.mode == c.mode && p.targetSize == c.committedSize
              then
                && (r.Ok? <==> MatchesVisible(p, file) == Ok(true))
                && (r.Ok? ==> r.value == Some(file.generation))
              else r == Err(InvalidArgument)
  {
    hide FileValid, MatchesVisible;
  }

  /** Leases and allocations are fenced by the epoch: one of another epoch changes nothing, one of the
      current epoch moves exactly its own counter by one, while there is room. */
  lemma LeaseExact(inode: InodeId, file: FileData, epoch: LeaseEpoch, replayOwned: bool)
    requires DurableInv(inode, file)
    ensures Apply(inode, file, AllocateBlock(epoch)) ==
              if epoch == file.epoch && file.nextIndex <= U32_MAX then file.(nextIndex := file.nextIndex + 1) else file
    ensures Apply(inode, file, AcquireLease(epoch, replayOwned)) ==
              if epoch == file.epoch && !replayOwned && file.epoch < U64_MAX then file.(epoch := file.epoch + 1) else file
    ensures Apply(inode, file, EndLease(epoch)) ==
              if epoch == file.epoch && file.epoch < U64_MAX then file.(epoch := file.epoch + 1) else file
  {
    hide FileValid;
  }

  /** The payload of a publication is well formed exactly if it covers the target from its first new
      byte on: from the start when it replaces, from the block that holds the expected end when it
      appends, block by block, each with the bytes that fall into it. */
  lemma PayloadExact(p: FilePublication, file: FileData, count: nat, whole: nat)
    requires LayoutValid(file.layout) && BlockCount(p.targetSize, file.layout.blockSize).Ok?
    requires var capacity := file.layout.blockSize;
             && (count == 0 || (count - 1) * capacity < p.targetSize) && p.targetSize <= count * capacity
             && whole * capacity <= p.expectedFileSize < whole * capacity + capacity
    ensures var capacity := file.layout.blockSize;
            var start := if p.mode == ReplaceIfUnchanged then 0
                         else if |p.blocks| == 0 && p.targetSize == p.expectedFileSize then count
                         else whole;
            StartIndex(p, file) == Ok(start) <==>
              && (p.mode == AppendIfUnchanged ==> p.expectedFileSize <= p.targetSize)
              && start <= count && |p.blocks| == count - start
              && forall k :: 0 <= k < |p.blocks| ==> HoldsShare(p.blocks[k].len, p.targetSize, capacity, start + k)
  {
    var capacity := file.layout.blockSize;
    CeilUnique(p.targetSize, capacity, count);
    QuotientUnique(p.expectedFileSize, capacity, whole);
    forall k: nat, len: nat ensures HoldsShare(len, p.targetSize, capacity, k) <==> len == VisibleLen(p.targetSize, capacity, k) {
      assert (k + 1) * capacity == k * capacity + capacity;
    }
  }

  /** `len` is what the block at `ordinal` holds of `size` bytes. */
  predicate HoldsShare(len: nat, size: nat, capacity: nat, ordinal: nat) {
    if (ordinal + 1) * capacity <= size then len == capacity else ordinal * capacity + len == size
  }

  lemma CeilUnique(len: nat, capacity: nat, count: nat)
    requires capacity > 0 && (count == 0 || (count - 1) * capacity < len) && len <= count * capacity
    ensures Ceil(len, capacity) == count
  {
    CeilBounds(len, capacity, count);
    if count > 0 {
      CeilBounds(len, capacity, count - 1);
    }
  }

  lemma QuotientUnique(len: nat, capacity: nat, whole: nat)
    requires capacity > 0 && whole * capacity <= len < whole * capacity + capacity
    ensures len / capacity == whole
  {
    var q := len / capacity;
    assert q * capacity <= len < q * capacity + capacity;
    if q < whole {
      TimesMonotone(q + 1, whole, capacity);
    } else if whole < q {
      TimesMonotone(whole + 1, q, capacity);
    }
  }

  /** The same content and commit evidence, whatever the lease and the allocation cursor. */
  predicate SameContent(a: FileData, b: FileData) {
    b.(epoch := a.epoch, nextIndex := a.nextIndex) == a
  }

  /** The operation installs new content or records a new commit. Allocations, lease changes,
      refused and repeated publications and replayed commits do not. */
  ghost predicate Rewrites(inode: InodeId, file: FileData, op: FileOp) {
    || (op.PublishFile? && Prepare(op.publication, inode, file).Ok? && Prepare(op.publication, inode, file).value.changed)
    || (op.CommitFile? && ApplyCommit(op.publication, inode, file, op.client, op.call).Ok?
        && ResolveCommit(op.publication, FileInode(inode, file), op.client, op.call) == Ok(None))
  }

  lemma ContentChangesExact(inode: InodeId, file: FileData, op: FileOp)
    requires DurableInv(inode, file)
    ensures SameContent(file, Apply(inode, file, op)) <==> !Rewrites(inode, file, op)
  {
    hide Merged, MatchesVisible;
  }

  /** No operation of the run rewrites the file it meets. */
  ghost predicate Quiet(inode: InodeId, file: FileData, ops: seq<FileOp>) {
    forall k :: 0 <= k < |ops| ==> !Rewrites(inode, ApplyAll(inode, file, ops[..k]), ops[k])
  }

  lemma {:induction false} QuietKeepsContent(inode: InodeId, file: FileData, ops: seq<FileOp>)
    requires DurableInv(inode, file) && Quiet(inode, file, ops)
    ensures SameContent(file, ApplyAll(inode, file, ops)) && file.epoch <= ApplyAll(inode, file, ops).epoch
  {
    hide Rewrites, Apply, DurableInv;
    DurableRuns(inode, file, ops);
    if ops != [] {
      var init, n := ops[..|ops| - 1], |ops| - 1;
      assert forall k :: 0 <= k < n ==> init[..k] == ops[..k];
      QuietKeepsContent(inode, file, init);
      DurableRuns(inode, file, init);
      ContentChangesExact(inode, ApplyAll(inode, file, init), ops[n]);
    }
  }

  /** A completed commit is visible as published. */
  lemma CommitVisible(p: FilePublication, inode: InodeId, file: FileData, client: ClientId, call: nat)
    requires DurableInv(inode, file) && ApplyCommit(p, inode, file, client, call).Ok?
    ensures MatchesVisible(p, ApplyCommit(p, inode, file, client, call).value.0) == Ok(true)
  {
    if ResolveCommit(p, FileInode(inode, file), client, call) == Ok(None) {
      var prepared := Prepare(p, inode, file).value;
      if prepared.changed {
        var start := StartIndex(p, file).value;
        var blocks := Merged(p, inode, file).value;
        assert blocks[start..] == Ids(p.blocks);
      }
    }
  }

  /** Replay safety. After a CommitFile is applied, and through any later operations that rewrite
      nothing, the same publication and identity resolve to the recorded generation. */
  lemma CommitReplayResolves(p: FilePublication, inode: InodeId, file: FileData, client: ClientId, call: nat,
                             later: seq<FileOp>)
    requires DurableInv(inode, file) && ApplyCommit(p, inode, file, client, call).Ok?
    requires Quiet(inode, ApplyCommit(p, inode, file, client, call).value.0, later)
    ensures var (next, generation) := ApplyCommit(p, inode, file, client, call).value;
            ResolveCommit(p, FileInode(inode, ApplyAll(inode, next, later)), client, call) == Ok(Some(generation))
  {
    hide DurableInv, ApplyCommit, ResolveCommit, ApplyAll, Apply, Quiet;
    var (next, generation) := ApplyCommit(p, inode, file, client, call).value;
    CommitKeeps(p, inode, file, client, call);
    CommitRecorded(p, inode, file, client, call);
    QuietKeepsContent(inode, next, later);
    ResolveUnderLaterLease(p, inode, next, ApplyAll(inode, next, later), client, call);
  }

  lemma CommitKeeps(p: FilePublication, inode: InodeId, file: FileData, client: ClientId, call: nat)
    requires DurableInv(inode, file) && ApplyCommit(p, inode, file, client, call).Ok?
    ensures DurableInv(inode, ApplyCommit(p, inode, file, client, call).value.0)
  {
    hide DurableInv, ApplyCommit;
    ApplyKeeps(inode, file, CommitFile(p, client, call));
  }

  lemma CommitRecorded(p: FilePublication, inode: InodeId, file: FileData, client: ClientId, call: nat)
    requires DurableInv(inode, file) && ApplyCommit(p, inode, file, client, call).Ok?
    ensures var (next, generation) := ApplyCommit(p, inode, file, client, call).value;
            ResolveCommit(p, FileInode(inode, next), client, call) == Ok(Some(generation))
  {
    ApplyKeeps(inode, file, CommitFile(p, client, call));
    CommitVisible(p, inode, file, client, call);
  }

  /** How a replay resolves depends on content and evidence alone. */
  lemma ResolveUnderLaterLease(p: FilePublication, inode: InodeId, file: FileData, later: FileData,
                               client: ClientId, call: nat)
    requires DurableInv(inode, file)
    requires SameContent(file, later) && file.epoch <= later.epoch
    ensures MatchesVisible(p, later) == MatchesVisible(p, file)
    ensures ResolveCommit(p, FileInode(inode, later), client, call)
            == ResolveCommit(p, FileInode(inode, file), client, call)
  {
    assert StartIndex(p, later) == StartIndex(p, file);
  }

  /** An append that publishes nothing may be written with or without its unchanged tail. */
  ghost predicate SamePayload(a: FilePublication, b: FilePublication, file: FileData) {
    || a == b
    || (&& a.(blocks := b.blocks) == b
        && a.mode == AppendIfUnchanged
        && a.targetSize == a.expectedFileSize == file.len
        && (a.blocks == [] || b.blocks == []))
  }

  lemma VisibleDeterminesBlocks(a: FilePublication, b: FilePublication, file: FileData)
    requires a.(blocks := b.blocks) == b
    requires MatchesVisible(a, file) == Ok(true) && MatchesVisible(b, file) == Ok(true)
    ensures SamePayload(a, b, file)
  {
    var sa, sb := StartIndex(a, file).value, StartIndex(b, file).value;
    if sa == sb {
      assert Ids(a.blocks) == Ids(b.blocks);
      forall k | 0 <= k < |a.blocks| ensures a.blocks[k] == b.blocks[k] {
        assert Ids(a.blocks)[k] == Ids(b.blocks)[k];
      }
      assert a.blocks == b.blocks;
    }
  }

  /** What a replay may differ in. Once a commit is recorded, and through any later operations
      that rewrite nothing, a publication is accepted for its identity exactly when it is the recorded one
      up to the unchanged tail of a no-op append, and then it prepares the same content from the
      base file. */
  lemma ReplayAcceptsOnlySamePayload(p: FilePublication, q: FilePublication, inode: InodeId, file: FileData,
                                     client: ClientId, call: nat, later: seq<FileOp>)
    requires DurableInv(inode, file) && ApplyCommit(p, inode, file, client, call).Ok?
    requires ResolveCommit(p, FileInode(inode, file), client, call) == Ok(None)
    requires Quiet(inode, ApplyCommit(p, inode, file, client, call).value.0, later)
    ensures var (next, generation) := ApplyCommit(p, inode, file, client, call).value;
            var now := ApplyAll(inode, next, later);
            var accepted := ResolveCommit(q, FileInode(inode, now), client, call) == Ok(Some(generation));
            && (accepted ==> SamePayload(p, q, now))
            && (accepted <==> q == p.(blocks := q.blocks) && MatchesVisible(q, now) == Ok(true))
            && (accepted ==> Prepare(q, inode, file) == Prepare(p, inode, file))
  {
    hide DurableInv, ApplyCommit, ResolveCommit, ApplyAll, Apply, Prepare, MatchesVisible, Quiet;
    var (next, generation) := ApplyCommit(p, inode, file, client, call).value;
    var now := ApplyAll(inode, next, later);
    CommitKeeps(p, inode, file, client, call);
    QuietKeepsContent(inode, next, later);
    AcceptedAtCommit(p, q, inode, file, client, call);
    ResolveUnderLaterLease(q, inode, next, now, client, call);
  }

  lemma AcceptedAtCommit(p: FilePublication, q: FilePublication, inode: InodeId, file: FileData, client: ClientId, call: nat)
    requires DurableInv(inode, file) && ApplyCommit(p, inode, file, client, call).Ok?
    requires ResolveCommit(p, FileInode(inode, file), client, call) == Ok(None)
    ensures var (next, generation) := ApplyCommit(p, inode, file, client, call).value;
            var accepted := ResolveCommit(q, FileInode(inode, next), client, call) == Ok(Some(generation));
            && (accepted ==> SamePayload(p, q, next))
            && (accepted <==> q == p.(blocks := q.blocks) && MatchesVisible(q, next) == Ok(true))
            && (accepted ==> Prepare(q, inode, file) == Prepare(p, inode, file))
  {
    var (next, generation) := ApplyCommit(p, inode, file, client, call).value;
    ApplyKeeps(inode, file, CommitFile(p, client, call));
    CommitVisible(p, inode, file, client, call);
    if q == p.(blocks := q.blocks) && MatchesVisible(q, next) == Ok(true) {
      VisibleDeterminesBlocks(p, q, next);
      if p != q {
        NoOpAppendUnchanged(p, q, inode, file);
      }
    }
  }

  /** Both spellings of a no-op append leave a file of the expected length unchanged. */
  lemma NoOpAppendUnchanged(p: FilePublication, q: FilePublication, inode: InodeId, file: FileData)
    requires FileValid(file, inode) && Prepare(p, inode, file).Ok? && file.generation == p.expectedGeneration
    requires p != q && SamePayload(p, q, Prepare(p, inode, file).value.file)
    requires MatchesVisible(q, Prepare(p, inode, file).value.file) == Ok(true)
    ensures Prepare(q, inode, file) == Prepare(p, inode, file)
  {
    AppendStart(file.len, file.layout.blockSize);
    var next := Prepare(p, inode, file).value.file;
    assert StartIndex(p, next) == StartIndex(p, file) && StartIndex(q, next) == StartIndex(q, file);
    if Prepare(p, inode, file).value.changed {
      AppendExtends(p, inode, file);
    }
  }
}
