/** Verified, resumable block transfers (pyfog/transfer.py). */
module Transfer {
  import opened Bytes

  const MAX_BLOCK_SIZE: nat := 16 * 1024 * 1024
  const MAX_BLOCKS: nat := 4_194_304
  const MAX_SIZE: nat := 0x7FFF_FFFF_FFFF_FFFF

  datatype TransferBlock = TransferBlock(index: nat, offset: nat, size: nat, sha256: Digest) {
    function End(): nat { offset + size }
  }

  datatype TransferManifest = TransferManifest(sizeBytes: nat, blockSize: nat, blocks: seq<TransferBlock>)

  datatype LayoutError = Unsorted | IndexGap | OffsetGap | BlockTooLarge | SizeMismatch

  /** The bounds every field of a manifest is declared with. */
  predicate FieldsInRange(m: TransferManifest) {
    && 0 < m.sizeBytes <= MAX_SIZE
    && 0 < m.blockSize <= MAX_BLOCK_SIZE
    && 0 < |m.blocks| <= MAX_BLOCKS
    && forall i :: 0 <= i < |m.blocks| ==>
                     m.blocks[i].index < MAX_BLOCKS && 0 < m.blocks[i].size <= MAX_BLOCK_SIZE
  }

  /** Where block `i` has to start: the end of the previous one. */
  function Start(blocks: seq<TransferBlock>, i: nat): nat
    requires i <= |blocks|
  {
    if i == 0 then 0 else blocks[i - 1].End()
  }

  /** The blocks are numbered in order and each starts where the previous one ends. */
  predicate Chained(blocks: seq<TransferBlock>) {
    && (blocks != [] ==> blocks[0].offset == 0)
    && (forall i :: 0 <= i < |blocks| ==> blocks[i].index == i && 0 < blocks[i].size)
    && (forall i, j :: 0 <= i < |blocks| && j == i + 1 && j < |blocks| ==> blocks[j].offset == blocks[i].End())
  }

  /** A manifest tiles its artifact: contiguous numbered blocks that end exactly at its size. */
  predicate Tiles(m: TransferManifest) {
    && Chained(m.blocks)
    && (forall i :: 0 <= i < |m.blocks| ==> m.blocks[i].size <= m.blockSize)
    && 0 < |m.blocks|
    && m.blocks[|m.blocks| - 1].End() == m.sizeBytes
  }

  /** The checking loop over a running offset; it accepts exactly the tilings. */
  method ValidateLayout(m: TransferManifest) returns (error: Option<LayoutError>)
    requires FieldsInRange(m)
    ensures error.None? <==> Tiles(m)
  {
    if exists i :: 0 <= i < |m.blocks| - 1 && m.blocks[i + 1].index < m.blocks[i].index {
      return Some(Unsorted);
    }
    var expected := 0;
    for i := 0 to |m.blocks|
      invariant expected == if i == 0 then 0 else m.blocks[i - 1].End()
      invariant 0 < i ==> m.blocks[0].offset == 0
      invariant forall k :: 0 <= k < i ==> m.blocks[k].index == k && m.blocks[k].size <= m.blockSize
      invariant forall k, n :: 0 <= k < i && n == k + 1 && n < i ==> m.blocks[n].offset == m.blocks[k].End()
    {
      var block := m.blocks[i];
      if block.index != i { return Some(IndexGap); }
      if block.offset != expected { return Some(OffsetGap); }
      if block.size > m.blockSize { return Some(BlockTooLarge); }
      expected := expected + block.size;
    }
    if expected != m.sizeBytes { return Some(SizeMismatch); }
    return None;
  }

  lemma {:induction false} BlocksAscend(blocks: seq<TransferBlock>, i: nat, j: nat)
    requires Chained(blocks) && i < j < |blocks|
    ensures blocks[i].End() <= blocks[j].offset
    decreases j
  {
    if i + 1 < j { BlocksAscend(blocks, i, j - 1); }
  }

  lemma {:induction false} BlocksReach(blocks: seq<TransferBlock>, n: nat, pos: nat) returns (i: nat)
    requires Chained(blocks) && 0 < n <= |blocks| && pos < blocks[n - 1].End()
    ensures i < n && blocks[i].offset <= pos < blocks[i].End()
    decreases n
  {
    if blocks[n - 1].offset <= pos {
      i := n - 1;
    } else {
      i := BlocksReach(blocks, n - 1, pos);
    }
  }

  /** Tiling means partition: every byte of the artifact lies in exactly one block. */
  lemma TilesPartition(m: TransferManifest, pos: nat)
    requires Tiles(m)
    ensures pos < m.sizeBytes <==>
            exists i :: 0 <= i < |m.blocks| && m.blocks[i].offset <= pos < m.blocks[i].End()
    ensures forall i, j :: 0 <= i < j < |m.blocks| && m.blocks[i].offset <= pos < m.blocks[i].End()
                           ==> pos < m.blocks[j].offset
  {
    if pos < m.sizeBytes { var _ := BlocksReach(m.blocks, |m.blocks|, pos); }
    forall i, j | 0 <= i < j < |m.blocks| ensures m.blocks[i].End() <= m.blocks[j].offset {
      BlocksAscend(m.blocks, i, j);
    }
  }

  lemma BlockInside(m: TransferManifest, i: nat)
    requires Tiles(m) && i < |m.blocks|
    ensures m.blocks[i].End() <= m.sizeBytes
  {
    if i < |m.blocks| - 1 { BlocksAscend(m.blocks, i, |m.blocks| - 1); }
  }

  /** The manifest carries, block by block, the digests of this content. */
  ghost predicate Describes(h: Hash, m: TransferManifest, content: Bytes) {
    && Tiles(m)
    && |content| == m.sizeBytes
    && forall i :: 0 <= i < |m.blocks| ==>
                     m.blocks[i].End() <= |content|
                     && h(content[m.blocks[i].offset..m.blocks[i].End()]) == m.blocks[i].sha256
  }

  /** The number of blocks of `blockSize` bytes an artifact of `size` bytes is cut into. */
  function BlockCount(size: nat, blockSize: nat): nat
    requires 0 < blockSize
  {
    (size + blockSize - 1) / blockSize
  }

  lemma CountOfPrefix(i: nat, offset: nat, size: nat, blockSize: nat)
    requires 0 < blockSize && offset == i * blockSize < size
    ensures i < BlockCount(size, blockSize)
    ensures if size - offset <= blockSize then BlockCount(size, blockSize) == i + 1
            else offset + blockSize == (i + 1) * blockSize
  {
    var q, r := (size + blockSize - 1) / blockSize, (size + blockSize - 1) % blockSize;
    assert size + blockSize - 1 == q * blockSize + r;
    assert q <= i ==> q * blockSize <= i * blockSize;
    assert i + 2 <= q ==> (i + 2) * blockSize <= q * blockSize;
  }

  /** The blocks cut so far cover the first `offset` bytes and carry their digests. */
  ghost predicate CutSoFar(h: Hash, content: Bytes, blockSize: nat, blocks: seq<TransferBlock>, offset: nat) {
    && Chained(blocks)
    && offset == Start(blocks, |blocks|) <= |content|
    && forall i :: 0 <= i < |blocks| ==>
                     && blocks[i].End() <= offset
                     && (blocks[i].size == blockSize || (blocks[i].size < blockSize && blocks[i].End() == |content|))
                     && h(content[blocks[i].offset..blocks[i].End()]) == blocks[i].sha256
  }

  lemma CutOne(h: Hash, content: Bytes, blockSize: nat, blocks: seq<TransferBlock>, offset: nat, size: nat)
    requires CutSoFar(h, content, blockSize, blocks, offset) && offset < |content|
    requires 0 < blockSize && size == if blockSize < |content| - offset then blockSize else |content| - offset
    ensures CutSoFar(h, content, blockSize,
                     blocks + [TransferBlock(|blocks|, offset, size, h(content[offset..offset + size]))], offset + size)
  {
  }

  lemma CutNone(h: Hash, content: Bytes, blockSize: nat)
    ensures CutSoFar(h, content, blockSize, [], 0)
  {
  }

  /** An artifact cut to its end is described by its blocks, all of them full but the last. */
  lemma CutWhole(h: Hash, content: Bytes, blockSize: nat, blocks: seq<TransferBlock>)
    requires CutSoFar(h, content, blockSize, blocks, |content|)
    requires 0 < |content| <= MAX_SIZE && 0 < blockSize <= MAX_BLOCK_SIZE && |blocks| <= MAX_BLOCKS
    ensures var m := TransferManifest(|content|, blockSize, blocks); FieldsInRange(m) && Describes(h, m, content)
    ensures forall i :: 0 <= i < |blocks| - 1 ==> blocks[i].size == blockSize
  {
    forall i | 0 <= i < |blocks| - 1 ensures blocks[i].size == blockSize {
      BlocksAscend(blocks, i, |blocks| - 1);
    }
  }

  /** Index an artifact; it fails exactly on an empty file, a bad block size or too many blocks. */
  method BuildTransferManifest(h: Hash, content: Bytes, blockSize: nat) returns (r: Option<TransferManifest>)
    ensures r.Some? <==> && 0 < blockSize <= MAX_BLOCK_SIZE
                         && 0 < |content| <= MAX_SIZE
                         && BlockCount(|content|, blockSize) <= MAX_BLOCKS
    ensures r.Some? ==> FieldsInRange(r.value) && Describes(h, r.value, content)
    ensures r.Some? ==> |r.value.blocks| == BlockCount(|content|, blockSize)
    ensures r.Some? ==> forall i :: 0 <= i < |r.value.blocks| - 1 ==> r.value.blocks[i].size == blockSize
  {
    hide CutSoFar, FieldsInRange, Describes;
    CutNone(h, content, blockSize);
    if !(0 < blockSize <= MAX_BLOCK_SIZE) { return None; }
    var size := |content|;
    if size == 0 { return None; }
    var blocks: seq<TransferBlock> := [];
    var index, offset := 0, 0;
    while offset < size
      invariant index == |blocks| <= MAX_BLOCKS && offset <= size
      invariant CutSoFar(h, content, blockSize, blocks, offset)
      invariant offset < size ==> offset == index * blockSize
      invariant offset == size ==> index == BlockCount(size, blockSize)
      decreases size - offset
    {
      CountOfPrefix(index, offset, size, blockSize);
      if index >= MAX_BLOCKS { return None; }
      var current := if blockSize < size - offset then blockSize else size - offset;
      CutOne(h, content, blockSize, blocks, offset, current);
      blocks := blocks + [TransferBlock(index, offset, current, h(content[offset..offset + current]))];
      index := index + 1;
      offset := offset + current;
    }
    if size > MAX_SIZE { return None; }
    CutWhole(h, content, blockSize, blocks);
    return Some(TransferManifest(size, blockSize, blocks));
  }

  /** A block counts as received when its bytes are all there and hash to its digest. */
  predicate BlockVerified(h: Hash, b: TransferBlock, f: Bytes) {
    b.End() <= |f| && h(f[b.offset..b.End()]) == b.sha256
  }

  /** Verified indices of a staging file, which may be absent; an oversized file counts for nothing. */
  function Verified(h: Hash, m: TransferManifest, f: Option<Bytes>): (v: set<nat>)
    ensures forall i: nat :: i in v <==> && i < |m.blocks| && f.Some? && |f.value| <= m.sizeBytes
                                         && BlockVerified(h, m.blocks[i], f.value)
  {
    if f.None? || m.sizeBytes < |f.value| then {}
    else set i: nat | i < |m.blocks| && BlockVerified(h, m.blocks[i], f.value)
  }

  function Missing(h: Hash, m: TransferManifest, f: Option<Bytes>): (v: set<nat>)
    ensures forall i: nat :: i in v <==> i < |m.blocks| && i !in Verified(h, m, f)
  {
    set i: nat | i < |m.blocks| && i !in Verified(h, m, f)
  }

  method VerifiedBlockIndices(h: Hash, m: TransferManifest, f: Option<Bytes>) returns (v: set<nat>)
    requires Tiles(m)
    ensures v == Verified(h, m, f)
  {
    v := {};
    if f.None? { return; }
    var size := |f.value|;
    if size > m.sizeBytes { return; }
    for i := 0 to |m.blocks|
      invariant forall k: nat :: k in v <==> k < i && BlockVerified(h, m.blocks[k], f.value)
    {
      var block := m.blocks[i];
      if block.offset + block.size <= size && h(ReadAt(f.value, block.offset, block.size)) == block.sha256 {
        v := v + {block.index};
      }
    }
  }

  /** Missing blocks in transfer order, each once. */
  method MissingBlockIndices(h: Hash, m: TransferManifest, f: Option<Bytes>) returns (missing: seq<nat>)
    requires Tiles(m)
    ensures forall i: nat :: i in missing <==> i in Missing(h, m, f)
    ensures forall j, k :: 0 <= j < k < |missing| ==> missing[j] < missing[k]
  {
    var verified := VerifiedBlockIndices(h, m, f);
    missing := [];
    for i := 0 to |m.blocks|
      invariant forall k: nat :: k in missing <==> k < i && k !in verified
      invariant forall j :: 0 <= j < |missing| ==> missing[j] < i
      invariant forall j, k :: 0 <= j < k < |missing| ==> missing[j] < missing[k]
    {
      if m.blocks[i].index !in verified { missing := missing + [m.blocks[i].index]; }
    }
  }

  datatype BlockReply = Written | Replayed | Refused

  /** The payload is the block the manifest names, whole and with its digest. */
  predicate Admissible(h: Hash, m: TransferManifest, b: TransferBlock, payload: Bytes) {
    && b.index < |m.blocks| && m.blocks[b.index] == b
    && |payload| == b.size
    && h(payload) == b.sha256
  }

  function WriteBlock(h: Hash, m: TransferManifest, f: Option<Bytes>, b: TransferBlock, payload: Bytes)
    : (r: (Option<Bytes>, BlockReply))
    requires Tiles(m)
  {
    if !Admissible(h, m, b, payload) then (f, Refused)
    else if f.Some? && BlockVerified(h, b, f.value) then (f, Replayed)
    else (Some(WriteAt(if f.Some? then f.value else [], b.offset, payload)), Written)
  }

  /**
   * A payload is refused unless it is the block the manifest names, of its size and digest; a block already there is left
   * alone; otherwise its bytes are put in place, and every byte outside it that the file had stays.
   */
  lemma WriteDecides(h: Hash, m: TransferManifest, f: Option<Bytes>, b: TransferBlock, payload: Bytes)
    requires Tiles(m)
    ensures var (f', reply) := WriteBlock(h, m, f, b, payload);
            var old' := if f.Some? then f.value else [];
            && (reply == Refused <==> !(b in m.blocks && |payload| == b.size && h(payload) == b.sha256))
            && (reply == Replayed ==> f.Some? && b.End() <= |old'| && h(old'[b.offset..b.End()]) == b.sha256)
            && (reply != Written ==> f' == f)
            && (reply == Written ==>
                  && !(f.Some? && b.End() <= |old'| && h(old'[b.offset..b.End()]) == b.sha256)
                  && f'.Some? && b.End() <= |f'.value| && f'.value[b.offset..b.End()] == payload
                  && |f'.value| == (if |old'| < b.End() then b.End() else |old'|)
                  && forall i :: 0 <= i < |old'| && (i < b.offset || b.End() <= i) ==> f'.value[i] == old'[i])
  {
    if b in m.blocks {
      var k: nat :| k < |m.blocks| && m.blocks[k] == b;
      BlockInside(m, k);
    }
  }

  /** A staging file on disk: absent, or a sparse sequence of bytes. */
  class StagingFile {
    var content: Option<Bytes>

    constructor ()
      ensures content == None
    {
      content := None;
    }

    method WriteVerifiedBlock(h: Hash, m: TransferManifest, block: TransferBlock, payload: Bytes) returns (reply: BlockReply)
      requires Tiles(m)
      modifies this
      ensures (content, reply) == WriteBlock(h, m, old(content), block, payload)
    {
      var expected := if block.index < |m.blocks| then Some(m.blocks[block.index]) else None;
      if expected != Some(block) { return Refused; }
      if |payload| != block.size { return Refused; }
      if h(payload) != block.sha256 { return Refused; }
      if content.Some? {
        var current := ReadAt(content.value, block.offset, block.size);
        if |current| == block.size && h(current) == block.sha256 { return Replayed; }
        content := Some(WriteAt(content.value, block.offset, payload));
      } else {
        content := Some(WriteAt([], block.offset, payload));
      }
      return Written;
    }

    /** Raise unless the file has the manifest's size and no block is missing. */
    method VerifyCompleteTransfer(h: Hash, m: TransferManifest) returns (ok: bool)
      requires Tiles(m)
      ensures ok <==> Complete(h, m, content)
    {
      if content.None? || |content.value| != m.sizeBytes { return false; }
      var missing := MissingBlockIndices(h, m, content);
      if missing != [] {
        assert missing[0] in Missing(h, m, content);
        return false;
      }
      return true;
    }
  }

  predicate Complete(h: Hash, m: TransferManifest, f: Option<Bytes>) {
    f.Some? && |f.value| == m.sizeBytes && Missing(h, m, f) == {}
  }

  /** Staging a resumed transfer can start from: nothing, or no more bytes than the artifact. */
  predicate Fits(m: TransferManifest, f: Option<Bytes>) {
    f.None? || |f.value| <= m.sizeBytes
  }

  lemma WriteKeepsOthers(h: Hash, m: TransferManifest, f: Bytes, i: nat, j: nat, payload: Bytes)
    requires Tiles(m) && i < |m.blocks| && j < |m.blocks| && i != j
    requires |payload| == m.blocks[i].size
    requires BlockVerified(h, m.blocks[j], f)
    ensures BlockVerified(h, m.blocks[j], WriteAt(f, m.blocks[i].offset, payload))
  {
    if i < j { BlocksAscend(m.blocks, i, j); } else { BlocksAscend(m.blocks, j, i); }
    var b, g := m.blocks[j], WriteAt(f, m.blocks[i].offset, payload);
    assert g[b.offset..b.End()] == f[b.offset..b.End()];
  }

  /** One admissible write: its block is settled, no verified block is lost, the file still fits. */
  lemma WriteMakesProgress(h: Hash, m: TransferManifest, f: Option<Bytes>, b: TransferBlock, payload: Bytes)
    requires Tiles(m) && Fits(m, f) && Admissible(h, m, b, payload)
    ensures var g := WriteBlock(h, m, f, b, payload).0;
            && g.Some? && Fits(m, g)
            && Missing(h, m, g) <= Missing(h, m, f) - {b.index}
            && b.End() <= |g.value|
  {
    BlockInside(m, b.index);
    var old' := if f.Some? then f.value else [];
    var g := WriteBlock(h, m, f, b, payload).0;
    assert BlockVerified(h, b, g.value);
    if !(f.Some? && BlockVerified(h, b, f.value)) {
      forall j: nat | j < |m.blocks| && j != b.index && j in Verified(h, m, f)
        ensures BlockVerified(h, m.blocks[j], g.value)
      {
        WriteKeepsOthers(h, m, old', b.index, j, payload);
      }
    }
  }

  /** A sequence of deliveries, in any order and with repeats; a refused one changes nothing. */
  function WriteAll(h: Hash, m: TransferManifest, f: Option<Bytes>, writes: seq<(nat, Bytes)>): (g: Option<Bytes>)
    requires Tiles(m) && forall k :: 0 <= k < |writes| ==> writes[k].0 < |m.blocks|
    decreases |writes|
  {
    if writes == [] then f
    else WriteAll(h, m, WriteBlock(h, m, f, m.blocks[writes[0].0], writes[0].1).0, writes[1..])
  }

  predicate Deliverable(h: Hash, m: TransferManifest, writes: seq<(nat, Bytes)>) {
    forall k :: 0 <= k < |writes| ==>
                  writes[k].0 < |m.blocks| && Admissible(h, m, m.blocks[writes[k].0], writes[k].1)
  }

  lemma {:induction false} WritesOnlyHelp(h: Hash, m: TransferManifest, f: Option<Bytes>, writes: seq<(nat, Bytes)>)
    requires Tiles(m) && Fits(m, f) && Deliverable(h, m, writes)
    ensures var g := WriteAll(h, m, f, writes);
            && Fits(m, g)
            && Missing(h, m, g) <= Missing(h, m, f) - (set k | 0 <= k < |writes| :: writes[k].0)
    decreases |writes|
  {
    if writes != [] {
      var g := WriteBlock(h, m, f, m.blocks[writes[0].0], writes[0].1).0;
      WriteMakesProgress(h, m, f, m.blocks[writes[0].0], writes[0].1);
      WritesOnlyHelp(h, m, g, writes[1..]);
      forall k | 0 <= k < |writes| ensures writes[k].0 !in Missing(h, m, WriteAll(h, m, f, writes)) {
        if k > 0 { assert writes[k] == writes[1..][k - 1]; }
      }
    }
  }

  lemma NothingMissing(h: Hash, m: TransferManifest, f: Option<Bytes>)
    requires Tiles(m) && Fits(m, f) && Missing(h, m, f) == {}
    ensures Complete(h, m, f)
  {
    assert |m.blocks| - 1 in Verified(h, m, f);
  }

  lemma {:induction false} OversizedStays(h: Hash, m: TransferManifest, f: Option<Bytes>, writes: seq<(nat, Bytes)>)
    requires Tiles(m) && !Fits(m, f) && Deliverable(h, m, writes)
    ensures !Fits(m, WriteAll(h, m, f, writes))
    decreases |writes|
  {
    if writes != [] {
      OversizedStays(h, m, WriteBlock(h, m, f, m.blocks[writes[0].0], writes[0].1).0, writes[1..]);
    }
  }

  /**
   * Resumption from arbitrary staging (corrupt, partial, sparse, or absent): once every missing
   * block has been delivered, whatever the order and the repeats, the transfer is complete -
   * exactly when the staging it started from was not larger than the artifact.
   */
  lemma {:induction false} ResumeConverges(h: Hash, m: TransferManifest, f: Option<Bytes>, writes: seq<(nat, Bytes)>)
    requires Tiles(m) && Deliverable(h, m, writes)
    requires forall i :: i in Missing(h, m, f) ==> exists k :: 0 <= k < |writes| && writes[k].0 == i
    ensures Complete(h, m, WriteAll(h, m, f, writes)) <==> Fits(m, f)
  {
    if Fits(m, f) {
      WritesOnlyHelp(h, m, f, writes);
      var g := WriteAll(h, m, f, writes);
      assert Missing(h, m, g) == {};
      NothingMissing(h, m, g);
    } else {
      OversizedStays(h, m, f, writes);
    }
  }

  /** A complete transfer has the content the manifest was built from, up to a digest collision. */
  lemma CompleteIsSource(h: Hash, m: TransferManifest, f: Option<Bytes>, source: Bytes)
    requires Complete(h, m, f) && Describes(h, m, source)
    ensures f.value == source || Collision(h)
  {
    if f.value != source {
      var pos :| 0 <= pos < |source| && f.value[pos] != source[pos];
      var i := BlocksReach(m.blocks, |m.blocks|, pos);
      var b := m.blocks[i];
      assert i in Verified(h, m, f);
      var x, y := f.value[b.offset..b.End()], source[b.offset..b.End()];
      assert x[pos - b.offset] != y[pos - b.offset];
      assert h(x) == h(y);
    }
  }
}
