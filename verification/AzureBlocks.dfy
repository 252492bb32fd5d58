/** Uploading a file to Azure Blob Storage in blocks. */
module AzureBlocks {
  import opened Wrappers
  import opened Bytes
  import opened Base64
  import opened Pieces

  const MIB: nat := 1024 * 1024
  const MAX_BLOCKS: nat := 50_000
  const MIN_BLOCK_BYTES: nat := 8 * 1024 * 1024
  const MAX_BLOCK_BYTES: nat := 4_000 * 1024 * 1024

  function Max(a: nat, b: nat): nat { if a < b then b else a }

  function Min(a: nat, b: nat): nat { if a < b then a else b }

  /** `None` for sizes beyond the service's limits. */
  function BlockSize(size: nat): (b: Option<nat>)
    ensures b.Some? ==> b.value > 0
  {
    if size > MAX_BLOCK_BYTES * MAX_BLOCKS then None
    else
      var required := (size + MAX_BLOCKS - 1) / MAX_BLOCKS;
      var rounded := (Max(required, MIN_BLOCK_BYTES) + MIB - 1) / MIB * MIB;
      Some(Min(rounded, MAX_BLOCK_BYTES))
  }

  /** Whole mebibytes within the limits, and 50000 such blocks hold the file; nothing in the
      computation leaves 64 bits. */
  lemma BlockSizeFits(size: nat)
    requires size <= MAX_BLOCK_BYTES * MAX_BLOCKS
    ensures BlockSize(size).Some?
    ensures var b := BlockSize(size).value;
            MIN_BLOCK_BYTES <= b <= MAX_BLOCK_BYTES && b % 1_048_576 == 0 && size <= MAX_BLOCKS * b
    ensures size + MAX_BLOCKS - 1 < U64_LIMIT
    ensures (Max((size + MAX_BLOCKS - 1) / MAX_BLOCKS, MIN_BLOCK_BYTES) + MIB - 1) / MIB * MIB < U64_LIMIT
  {
    var required := (size + MAX_BLOCKS - 1) / MAX_BLOCKS;
    assert size <= MAX_BLOCKS * required <= size + MAX_BLOCKS - 1;
    assert MAX_BLOCK_BYTES % MIB == 0;
  }

  /** Sizes are refused exactly beyond 50000 blocks of 4000 MiB; for any other the block is the smallest
      number of whole MiB, from 8 on, of which 50000 hold the file. */
  lemma BlockSizeIsSmallest(size: nat, other: nat)
    ensures BlockSize(size).None? <==> size > 50_000 * 4_000 * 1_048_576
    ensures BlockSize(size).Some? && other % 1_048_576 == 0 && other >= 8 * 1_048_576 && 50_000 * other >= size ==>
              BlockSize(size).value <= other
  {
    if BlockSize(size).Some? && other % MIB == 0 && other >= MIN_BLOCK_BYTES && MAX_BLOCKS * other >= size {
      var required := (size + MAX_BLOCKS - 1) / MAX_BLOCKS;
      assert required <= other;
      assert Max(required, MIN_BLOCK_BYTES) <= other;
      RoundedUp(Max(required, MIN_BLOCK_BYTES), other);
    }
  }

  lemma RoundedUp(n: nat, other: nat)
    requires n <= other && other % MIB == 0
    ensures (n + MIB - 1) / MIB * MIB <= other
  {
    assert other == other / MIB * MIB;
    assert (n + MIB - 1) / MIB <= other / MIB;
  }

  /** A 64-bit number's bytes. */
  function Width(): nat { 8 }

  function BlockId(index: nat): string { Encode(ToBeBytes(index, Width())) }

  lemma BlockIdLength(index: nat)
    ensures |BlockId(index)| == 12
  {
    EncodedLength(ToBeBytes(index, Width()));
  }

  /** An id decodes to the eight bytes of its index, most significant first. */
  lemma BlockIdReadsBack(index: nat)
    requires index < U64_LIMIT
    ensures var bytes := Decode(BlockId(index));
            bytes.Some? && |bytes.value| == 8 && FromBeBytes(bytes.value) == index
  {
    DecodeOfEncode(ToBeBytes(index, Width()));
    EightBytes();
    FromOfToBeBytes(index, Width());
  }

  lemma BlockIdIsUnique(i: nat, j: nat)
    requires i < U64_LIMIT && j < U64_LIMIT && BlockId(i) == BlockId(j)
    ensures i == j
  {
    DecodeOfEncode(ToBeBytes(i, Width()));
    DecodeOfEncode(ToBeBytes(j, Width()));
    EightBytes();
    FromOfToBeBytes(i, Width());
    FromOfToBeBytes(j, Width());
  }

  // ---------- the service ----------

  /** The block of an id, if there is one. */
  function Find(staged: map<string, seq<Byte>>): string -> Option<seq<Byte>> {
    (id: string) => if id in staged then Some(staged[id]) else None
  }

  datatype Call = BlockCall(id: string, offset: nat, length: nat) | ListCall(ids: seq<string>) | EmptyCall

  /** Any request may fail, having taken effect or not. */
  class Container {
    var blob: Option<seq<Byte>>
    var staged: map<string, seq<Byte>>
    var calls: seq<Call>
    /** How many requests have failed that need not have. */
    ghost var faults: nat

    method PutEmptyBlob() returns (ok: bool)
      modifies this
      ensures calls == old(calls) + [EmptyCall]
      ensures blob == Some([]) || (!ok && blob == old(blob))
      ensures faults == old(faults) + if ok then 0 else 1
    {
      calls := calls + [EmptyCall];
      if * { blob := Some([]); }
      ok := *;
      if ok { blob := Some([]); } else { faults := faults + 1; }
    }

    /** A later block under the same id replaces an earlier one. */
    method PutBlock(id: string, source: seq<Byte>, offset: nat, length: nat) returns (ok: bool)
      requires offset + length <= |source|
      modifies this
      ensures blob == old(blob) && calls == old(calls) + [BlockCall(id, offset, length)]
      ensures ok ==> staged == old(staged)[id := source[offset..offset + length]]
      ensures faults == old(faults) + if ok then 0 else 1
    {
      calls := calls + [BlockCall(id, offset, length)];
      var arrives: bool := *;
      ok := *;
      if ok || arrives { staged := staged[id := source[offset..offset + length]]; }
      if !ok { faults := faults + 1; }
    }

    method PutBlockList(ids: seq<string>) returns (ok: bool)
      modifies this
      ensures calls == old(calls) + [ListCall(ids)]
      ensures var whole := Assemble(Find(old(staged)), ids);
              && ((whole.Some? && blob == whole) || (!ok && blob == old(blob)))
              && faults == old(faults) + if whole.Some? && !ok then 1 else 0
    {
      calls := calls + [ListCall(ids)];
      var whole := Assemble(Find(staged), ids);
      if whole.None? { return false; }
      var arrives: bool := *;
      ok := *;
      if ok || arrives { blob := whole; }
      if !ok { faults := faults + 1; }
    }
  }

  // ---------- the plan ----------

  datatype Piece = Piece(index: nat, offset: nat, length: nat)

  /** The blocks of a file from an offset on. */
  function Plan(size: nat, block: nat, offset: nat, index: nat): seq<Piece>
    requires block > 0 && offset <= size
    decreases size - offset
  {
    if offset == size then []
    else
      var length := Min(size - offset, block);
      [Piece(index, offset, length)] + Plan(size, block, offset + length, index + 1)
  }

  /** Blocks of the stretch from `offset` to `size`: they follow each other without gap or overlap,
      all but the last are full, none is empty, and they are numbered from `index` on. */
  predicate Tiles(plan: seq<Piece>, size: nat, block: nat, offset: nat, index: nat) {
    && (plan == [] ==> offset == size)
    && (forall i :: 0 <= i < |plan| ==> plan[i].index == index + i && 0 < plan[i].length <= block)
    && (plan != [] ==> plan[0].offset == offset && plan[|plan| - 1].offset + plan[|plan| - 1].length == size)
    && (forall i :: 0 <= i < |plan| - 1 ==> plan[i].length == block && plan[i + 1].offset == plan[i].offset + block)
  }

  lemma OneMoreBlock(more: seq<Piece>, size: nat, block: nat, offset: nat, length: nat, index: nat)
    requires Tiles(more, size, block, offset + length, index + 1)
    requires 0 < length <= block && (more != [] ==> length == block)
    ensures Tiles([Piece(index, offset, length)] + more, size, block, offset, index)
  {
    var plan := [Piece(index, offset, length)] + more;
    assert forall i :: 0 < i < |plan| ==> plan[i] == more[i - 1];
    assert more != [] ==> plan[|plan| - 1] == more[|more| - 1];
  }

  lemma {:induction false} PlanTiles(size: nat, block: nat, offset: nat, index: nat)
    requires block > 0 && offset <= size
    ensures Tiles(Plan(size, block, offset, index), size, block, offset, index)
    decreases size - offset
  {
    if offset < size {
      var length := Min(size - offset, block);
      PlanTiles(size, block, offset + length, index + 1);
      OneMoreBlock(Plan(size, block, offset + length, index + 1), size, block, offset, length, index);
    }
  }

  /** No more blocks than the size asks for. */
  lemma {:induction false} PlanIsShort(size: nat, block: nat, offset: nat, index: nat, limit: nat)
    requires block > 0 && offset <= size && size - offset <= limit * block
    ensures |Plan(size, block, offset, index)| <= limit
    decreases size - offset
  {
    if offset < size {
      assert limit > 0;
      assert limit * block == (limit - 1) * block + block;
      PlanIsShort(size, block, offset + Min(size - offset, block), index + 1, limit - 1);
    }
  }

  /** Every size the service takes is cut within its limits. */
  lemma PlanIsWithinLimits(size: nat)
    requires size <= MAX_BLOCK_BYTES * MAX_BLOCKS
    ensures BlockSize(size).Some?
    ensures var block := BlockSize(size).value;
            && MIN_BLOCK_BYTES <= block <= MAX_BLOCK_BYTES && block % MIB == 0
            && |Plan(size, block, 0, 0)| <= MAX_BLOCKS
            && Tiles(Plan(size, block, 0, 0), size, block, 0, 0)
  {
    BlockSizeFits(size);
    var block := BlockSize(size).value;
    PlanTiles(size, block, 0, 0);
    PlanIsShort(size, block, 0, 0, MAX_BLOCKS);
  }

  // ---------- the upload, under any naming that tells blocks apart ----------

  type Naming = nat -> string

  ghost predicate Distinct(name: Naming) {
    forall i: nat, j: nat :: i < U64_LIMIT && j < U64_LIMIT && name(i) == name(j) ==> i == j
  }

  lemma BlockIdsAreDistinct()
    ensures Distinct(BlockId)
  {
    forall i: nat, j: nat | i < U64_LIMIT && j < U64_LIMIT && BlockId(i) == BlockId(j) ensures i == j {
      BlockIdIsUnique(i, j);
    }
  }

  function Ids(name: Naming, count: nat): (ids: seq<string>)
    ensures |ids| == count && forall i :: 0 <= i < count ==> ids[i] == name(i)
  {
    seq(count, i requires 0 <= i => name(i))
  }

  function BlockCalls(name: Naming, plan: seq<Piece>): seq<Call> {
    seq(|plan|, i requires 0 <= i < |plan| => BlockCall(name(plan[i].index), plan[i].offset, plan[i].length))
  }

  /** A new id leaves the other blocks in place: ids of different numbers differ. */
  lemma OneMoreHeld(name: Naming, staged: map<string, seq<Byte>>, count: nat, pieces: seq<seq<Byte>>, piece: seq<Byte>)
    requires Distinct(name) && Holds(Find(staged), Ids(name, count), pieces) && count < U64_LIMIT
    ensures Holds(Find(staged[name(count) := piece]), Ids(name, count + 1), pieces + [piece])
  {
    assert forall i :: 0 <= i < count ==> name(i) != name(count);
  }

  lemma OneMoreCall(name: Naming, calls: seq<Call>, plan: seq<Piece>, piece: Piece)
    ensures calls + BlockCalls(name, plan + [piece])
            == calls + BlockCalls(name, plan) + [BlockCall(name(piece.index), piece.offset, piece.length)]
  {}

  lemma PlanStep(whole: seq<Piece>, done: seq<Piece>, size: nat, block: nat, offset: nat, index: nat)
    requires block > 0 && offset < size && whole == done + Plan(size, block, offset, index)
    ensures var length := Min(size - offset, block);
            && |done| < |whole|
            && whole == done + [Piece(index, offset, length)] + Plan(size, block, offset + length, index + 1)
  {}

  lemma MoreOfSource(source: seq<Byte>, offset: nat, length: nat)
    requires offset + length <= |source|
    ensures source[..offset] + source[offset..offset + length] == source[..offset + length]
  {}

  /** The first `count` blocks are in place and hold these bytes. */
  ghost predicate Staged(name: Naming, staged: map<string, seq<Byte>>, count: nat, bytes: seq<Byte>) {
    exists pieces :: Holds(Find(staged), Ids(name, count), pieces) && Joined(pieces) == bytes
  }

  lemma StageOneMore(name: Naming, staged: map<string, seq<Byte>>, count: nat, bytes: seq<Byte>, piece: seq<Byte>)
    requires Distinct(name) && Staged(name, staged, count, bytes) && count < U64_LIMIT
    ensures Staged(name, staged[name(count) := piece], count + 1, bytes + piece)
  {
    var pieces :| Holds(Find(staged), Ids(name, count), pieces) && Joined(pieces) == bytes;
    OneMoreHeld(name, staged, count, pieces, piece);
    JoinedSnoc(pieces, piece);
  }

  /** The blocks of `done`, `offset` bytes of the file, have been put. */
  ghost predicate Put(name: Naming, source: seq<Byte>, block: nat, done: seq<Piece>, ids: seq<string>,
                      staged: map<string, seq<Byte>>, offset: nat) {
    && block > 0 && offset <= |source|
    && Plan(|source|, block, 0, 0) == done + Plan(|source|, block, offset, |done|)
    && ids == Ids(name, |done|)
    && Staged(name, staged, |done|, source[..offset])
  }

  lemma PutOneMore(name: Naming, source: seq<Byte>, block: nat, done: seq<Piece>, ids: seq<string>,
                   staged: map<string, seq<Byte>>, offset: nat)
    requires Distinct(name) && Put(name, source, block, done, ids, staged, offset) && offset < |source|
             && |Plan(|source|, block, 0, 0)| < U64_LIMIT
    ensures var index, length := |done|, Min(|source| - offset, block);
            && index < |Plan(|source|, block, 0, 0)|
            && Put(name, source, block, done + [Piece(index, offset, length)], ids + [name(index)],
                   staged[name(index) := source[offset..offset + length]], offset + length)
  {
    var index, length := |done|, Min(|source| - offset, block);
    assert |done + [Piece(index, offset, length)]| == index + 1;
    PlanStep(Plan(|source|, block, 0, 0), done, |source|, block, offset, index);
    StageOneMore(name, staged, index, source[..offset], source[offset..offset + length]);
    MoreOfSource(source, offset, length);
    OneMoreId(name, index);
  }

  lemma OneMoreId(name: Naming, count: nat)
    ensures Ids(name, count) + [name(count)] == Ids(name, count + 1)
  {}

  lemma AllPut(name: Naming, source: seq<Byte>, block: nat, done: seq<Piece>, ids: seq<string>, staged: map<string,
               seq<Byte>>)
    requires Put(name, source, block, done, ids, staged, |source|)
    ensures done == Plan(|source|, block, 0, 0) && Assemble(Find(staged), ids) == Some(source)
  {
    var pieces :| Holds(Find(staged), Ids(name, |done|), pieces) && Joined(pieces) == source[..|source|];
    AssembleAll(Find(staged), ids, pieces);
    assert done + [] == done && source[..|source|] == source;
  }

  /** Put block after block until nothing of the file remains. */
  method UploadBlocks(name: Naming, source: seq<Byte>, block: nat,
                      container: Container) returns (blockIds: Option<seq<string>>)
    requires Distinct(name) && block > 0 && |Plan(|source|, block, 0, 0)| < U64_LIMIT
    modifies container
    ensures container.blob == old(container.blob)
    ensures blockIds.Some? <==> container.faults == old(container.faults)
    ensures blockIds.Some? ==>
              var plan := Plan(|source|, block, 0, 0);
              && blockIds.value == Ids(name, |plan|)
              && container.calls == old(container.calls) + BlockCalls(name, plan)
              && Assemble(Find(container.staged), blockIds.value) == Some(source)
  {
    ghost var done: seq<Piece> := [];
    var ids: seq<string>, remaining: nat, offset: nat, index: nat := [], |source|, 0, 0;
    assert Holds(Find(container.staged), Ids(name, 0), []);
    while remaining > 0
      invariant offset + remaining == |source| && index == |done|
      invariant Put(name, source, block, done, ids, container.staged, offset)
      invariant container.blob == old(container.blob)
                && container.calls == old(container.calls) + BlockCalls(name, done)
                && container.faults == old(container.faults)
    {
      var length := Min(remaining, block);
      PutOneMore(name, source, block, done, ids, container.staged, offset);
      OneMoreCall(name, old(container.calls), done, Piece(index, offset, length));
      var id := name(index);
      var put := container.PutBlock(id, source, offset, length);
      if !put { return None; }
      ids, done := ids + [id], done + [Piece(index, offset, length)];
      remaining, offset, index := remaining - length, offset + length, index + 1;
    }
    AllPut(name, source, block, done, ids, container.staged);
    blockIds := Some(ids);
  }

  /** A file is uploaded block by block and then put together from the list of ids; an empty one is
      put as it is, one beyond the limits is refused before any request. */
  method UploadSource(source: seq<Byte>, container: Container) returns (ok: bool)
    modifies container
    ensures ok <==> BlockSize(|source|).Some? && container.faults == old(container.faults)
    ensures ok ==> container.blob == Some(source)
    ensures !ok ==> container.blob == old(container.blob) || container.blob == Some(source)
    ensures BlockSize(|source|).None? ==> !ok && container.calls == old(container.calls)
    ensures ok && source == [] ==> container.calls == old(container.calls) + [EmptyCall]
    ensures ok && source != [] ==>
              var plan := Plan(|source|, BlockSize(|source|).value, 0, 0);
              container.calls == old(container.calls) + BlockCalls(BlockId, plan) + [ListCall(Ids(BlockId, |plan|))]
  {
    if source == [] {
      ok := container.PutEmptyBlob();
      return;
    }
    var block := BlockSize(|source|);
    if block.None? { return false; }
    PlanIsWithinLimits(|source|);
    BlockIdsAreDistinct();
    var ids := UploadBlocks(BlockId, source, block.value, container);
    if ids.None? { return false; }
    ok := container.PutBlockList(ids.value);
  }
}
