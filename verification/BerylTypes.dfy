/** Value types shared by the Metadata, Worker and client models.

    Identifiers are opaque unsigned integers in the source and `nat` here. Where the
    source relies on the 64-bit width (a saturating or checked addition) the bound is
    written out with `U64_MAX`. */
module BerylTypes {

  datatype Option<+T> = None | Some(value: T)

  datatype Result<+T, +E> = Ok(value: T) | Err(error: E)

  const U64_MAX: nat := 0xFFFF_FFFF_FFFF_FFFF
  const U32_MAX: nat := 0xFFFF_FFFF

  /** `u64::saturating_add`. */
  function SaturatingAdd(a: nat, b: nat): nat {
    if a + b > U64_MAX then U64_MAX else a + b
  }

  /** `checked_add(1)`, used by every fencing epoch, generation and local identity. */
  function CheckedNext(x: nat): Option<nat> {
    if x >= U64_MAX then None else Some(x + 1)
  }

  type InodeId = nat
  type MountId = nat
  type ClientId = nat
  type WorkerId = nat
  type LeaseEpoch = nat
  type Generation = nat

  /** Allocation sequence within one inode; not a position in the file. */
  datatype BlockId = BlockId(inode: InodeId, index: nat)

  datatype FileLayout = FileLayout(blockSize: nat, format: nat)

  const MAX_BLOCK_SIZE: nat := 1024 * 1024 * 1024
  const DURABLE_PREFIX: nat := 2
  const STORAGE_CHUNK_SIZE: nat := 4 * 1024 * 1024

  datatype BlockShape = BlockShape(format: nat, blockSize: nat, chunkSize: nat, effectiveLen: nat)

  /** `BlockShape::new`: the only accepted format fixes the storage chunk size. */
  predicate ShapeValid(s: BlockShape) {
    && 0 < s.blockSize <= MAX_BLOCK_SIZE
    && s.format == DURABLE_PREFIX
    && s.chunkSize == STORAGE_CHUNK_SIZE
    && 0 < s.effectiveLen <= s.blockSize
  }

  /** `BlockShape::for_effective_len` at the full capacity of a layout. */
  function FullShape(layout: FileLayout): BlockShape {
    BlockShape(layout.format, layout.blockSize, STORAGE_CHUNK_SIZE, layout.blockSize)
  }

  /** `FileLayout::validate`. */
  predicate LayoutValid(layout: FileLayout) {
    ShapeValid(FullShape(layout))
  }

  datatype FencingToken = FencingToken(blockId: BlockId, owner: ClientId, epoch: LeaseEpoch)

  datatype Worker = Worker(id: WorkerId, endpoint: string, runId: nat)

  datatype Tier = Mem | Nvme | Ssd | Hdd

  /** A write target issued to a client: block identity, place in the file and authority. */
  datatype LocatedBlock = LocatedBlock(
    blockId: BlockId,
    fileOffset: nat,
    blockSize: nat,
    workers: seq<Worker>,
    token: FencingToken,
    writeOffset: nat,
    chunkSize: nat,
    format: nat,
    tier: Tier)

  datatype WriteMode = Overwrite | Append
}
