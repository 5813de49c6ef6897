/** The agent's capture and download loops and the range endpoint (scripts/run_image_task.py, pyfog/api.py). */
module CaptureDownload {
  import opened Bytes
  import opened Transfer
  import opened Storage

  /** The artifact entry a capture publishes for a stream: size, digest and one block per chunk. */
  ghost predicate Captured(h: Hash, a: Artifact, path: Path, chunks: seq<Bytes>) {
    && a.path == path
    && a.sizeBytes == |Flatten(chunks)| && a.sha256 == h(Flatten(chunks))
    && a.blocks.Some?
    && |a.blocks.value.blocks| == |chunks|
    && (forall i :: 0 <= i < |chunks| ==> a.blocks.value.blocks[i].size == |chunks[i]|)
    && Describes(h, a.blocks.value, Flatten(chunks))
  }

  /** The block entries collected after some chunks of the stream. */
  ghost predicate Indexed(h: Hash, blocks: seq<TransferBlock>, chunks: seq<Bytes>, content: Bytes) {
    && |blocks| == |chunks| && Chained(blocks) && Start(blocks, |blocks|) == |content|
    && forall i :: 0 <= i < |chunks| ==>
                     && blocks[i].size == |chunks[i]| && blocks[i].End() <= |content|
                     && h(content[blocks[i].offset..blocks[i].End()]) == blocks[i].sha256
  }

  lemma IndexOne(h: Hash, blocks: seq<TransferBlock>, chunks: seq<Bytes>, content: Bytes, c: Bytes)
    requires Indexed(h, blocks, chunks, content) && 0 < |c|
    ensures Indexed(h, blocks + [TransferBlock(|blocks|, |content|, |c|, h(c))], chunks + [c], content + c)
  {
    var more := content + c;
    assert more[|content|..|content| + |c|] == c;
    forall i | 0 <= i < |chunks|
      ensures more[blocks[i].offset..blocks[i].End()] == content[blocks[i].offset..blocks[i].End()]
    {
    }
  }

  function StreamRequest(h: Hash, chunk: Bytes, index: nat, offset: nat): Chunk {
    Chunk(index, offset, 0, chunk, h(chunk))
  }

  /** The server takes the next chunk exactly when the task's allowance still covers it. */
  lemma UploadNext(h: Hash, lim: Limits, dir: Files, path: Path, chunks: seq<Bytes>, n: nat)
    requires path !in dir && n < |chunks| && 0 < |chunks[n]| <= lim.maxChunkBytes
    ensures var c := StreamRequest(h, chunks[n], n, |Flatten(chunks[..n])|);
            var (dir', reply) := DirStep(h, lim, Filled(dir, path, chunks, n), path, c, true);
            && (reply == Rejected <==> lim.maxImageBytes < TotalSize(dir) + |Flatten(chunks[..n + 1])|)
            && (reply != Rejected ==> dir' == Filled(dir, path, chunks, n + 1))
  {
    FlattenTake(chunks, n);
    TotalSizePut(dir, path, Flatten(chunks[..n]));
    TotalSizePut(dir, path, []);
    assert dir[path := Flatten(chunks[..n])][path := Flatten(chunks[..n + 1])] == dir[path := Flatten(chunks[..n + 1])];
  }

  lemma UploadNextToStore(h: Hash, lim: Limits, s: Store, task: nat, dir: Files, path: Path, chunks: seq<Bytes>, n: nat)
    requires path !in dir && n < |chunks| && 0 < |chunks[n]| <= lim.maxChunkBytes
    requires Dir(s, task) == Filled(dir, path, chunks, n)
    ensures var c := StreamRequest(h, chunks[n], n, |Flatten(chunks[..n])|);
            var (s', reply) := ChunkStep(h, lim, s, task, path, c, true);
            && (reply == Rejected <==> lim.maxImageBytes < TotalSize(dir) + |Flatten(chunks[..n + 1])|)
            && (reply != Rejected ==> Dir(s', task) == Filled(dir, path, chunks, n + 1))
            && s'.published == s.published
  {
    UploadNext(h, lim, dir, path, chunks, n);
  }

  lemma IndexNext(h: Hash, blocks: seq<TransferBlock>, chunks: seq<Bytes>, n: nat)
    requires n < |chunks| && 0 < |chunks[n]| && Indexed(h, blocks, chunks[..n], Flatten(chunks[..n]))
    ensures Flatten(chunks[..n + 1]) == Flatten(chunks[..n]) + chunks[n]
    ensures |Flatten(chunks[..n + 1])| <= |Flatten(chunks)|
    ensures Indexed(h, blocks + [TransferBlock(n, |Flatten(chunks[..n])|, |chunks[n]|, h(chunks[n]))],
                    chunks[..n + 1], Flatten(chunks[..n + 1]))
  {
    FlattenTake(chunks, n);
    FlattenGrows(chunks, n + 1);
    assert chunks[..n + 1] == chunks[..n] + [chunks[n]];
    IndexOne(h, blocks, chunks[..n], Flatten(chunks[..n]), chunks[n]);
  }

  /** A stream indexed to its end is a captured artifact. */
  lemma IndexedIsCaptured(h: Hash, path: Path, blocks: seq<TransferBlock>, chunks: seq<Bytes>, negotiated: nat)
    requires Indexed(h, blocks, chunks, Flatten(chunks)) && ChunksOf(chunks, negotiated) && chunks != []
    ensures Captured(h, Artifact(path, |Flatten(chunks)|, h(Flatten(chunks)),
                                 Some(TransferManifest(|Flatten(chunks)|, negotiated, blocks))), path, chunks)
  {
  }

  /** One upload request of the capture loop; anything but HTTP 200 stops the agent. */
  method UploadChunk(h: Hash, store: ArtifactStore, task: nat, path: Path, ghost dir: Files, ghost chunks: seq<Bytes>,
                     chunk: Bytes, index: nat, offset: nat, chunkSize: nat) returns (ok: bool)
    requires chunkSize <= store.limits.maxChunkBytes && 0 < |chunk|
    requires path !in dir && index < |chunks| && chunk == chunks[index] && offset == |Flatten(chunks[..index])|
    requires Dir(store.Contents(), task) == Filled(dir, path, chunks, index)
    modifies store
    ensures ok <==> |chunk| <= chunkSize && TotalSize(dir) + |Flatten(chunks[..index + 1])| <= store.limits.maxImageBytes
    ensures ok ==> Dir(store.Contents(), task) == Filled(dir, path, chunks, index + 1)
    ensures store.published == old(store.published)
  {
    if chunkSize < |chunk| { return false; }
    UploadNextToStore(h, store.limits, store.Contents(), task, dir, path, chunks, index);
    var reply := store.WriteChunk(h, task, path, StreamRequest(h, chunk, index, offset), true);
    return reply != Rejected;
  }

  /** The chunks of a stream as `capture_stream` yields them: never empty, never above the negotiated size. */
  predicate ChunksOf(chunks: seq<Bytes>, negotiated: nat) {
    forall i :: 0 <= i < |chunks| ==> 0 < |chunks[i]| <= negotiated
  }

  /**
   * The capture loop over one partition stream, uploading to the server's store. It succeeds
   * exactly when the stream is indexable and fits the image allowance.
   */
  method CaptureArtifact(h: Hash, store: ArtifactStore, task: nat, path: Path, chunks: seq<Bytes>, negotiated: nat)
    returns (r: Option<Artifact>)
    requires 0 < negotiated <= store.limits.maxChunkBytes && negotiated <= MAX_BLOCK_SIZE
    requires store.limits.maxImageBytes <= MAX_SIZE
    requires ChunksOf(chunks, negotiated)
    requires path !in Dir(store.Contents(), task)
    modifies store
    ensures r.Some? <==> 0 < |chunks| <= MAX_BLOCKS
                         && TotalSize(old(Dir(store.Contents(), task))) + |Flatten(chunks)| <= store.limits.maxImageBytes
    ensures r.Some? ==> Captured(h, r.value, path, chunks)
    ensures r.Some? ==> Dir(store.Contents(), task) == old(Dir(store.Contents(), task))[path := Flatten(chunks)]
    ensures store.published == old(store.published)
  {
    ghost var dir := Dir(store.Contents(), task);
    var blocks: seq<TransferBlock> := [];
    var processed, digested := 0, [];
    for i := 0 to |chunks|
      invariant i <= MAX_BLOCKS
      invariant digested == Flatten(chunks[..i]) && processed == |digested|
      invariant Indexed(h, blocks, chunks[..i], digested)
      invariant Dir(store.Contents(), task) == Filled(dir, path, chunks, i)
      invariant i == 0 || TotalSize(dir) + processed <= store.limits.maxImageBytes
      invariant store.published == old(store.published)
    {
      var chunk := chunks[i];
      IndexNext(h, blocks, chunks, i);
      digested := digested + chunk;
      if i >= MAX_BLOCKS { return None; }
      blocks := blocks + [TransferBlock(i, processed, |chunk|, h(chunk))];
      var ok := UploadChunk(h, store, task, path, dir, chunks, chunk, i, processed, negotiated);
      if !ok { return None; }
      processed := processed + |chunk|;
    }
    assert chunks[..|chunks|] == chunks;
    if |chunks| == 0 { return None; }
    IndexedIsCaptured(h, path, blocks, chunks, negotiated);
    return Some(Artifact(path, processed, h(digested), Some(TransferManifest(processed, negotiated, blocks))));
  }

  /** The range endpoint: the bytes asked for, or an error (416 outside the artifact, 409 truncated). */
  function ServeRange(lim: Limits, a: Artifact, content: Bytes, offset: int, length: int): (r: Option<Bytes>) {
    if offset < 0 || length <= 0 || lim.maxChunkBytes < length || a.sizeBytes < offset + length then None
    else
      var payload := ReadAt(content, offset, length);
      if |payload| != length then None else Some(payload)
  }

  /** Every block of a verified artifact whose blocks fit a request is served, and is the block asked for. */
  lemma BlocksServable(h: Hash, lim: Limits, a: Artifact, content: Bytes, i: nat)
    requires ArtifactVerified(h, a, content) && a.blocks.Some? && Tiles(a.blocks.value)
    requires a.blocks.value.sizeBytes == a.sizeBytes && i < |a.blocks.value.blocks|
    ensures var b := a.blocks.value.blocks[i];
            && (ServeRange(lim, a, content, b.offset, b.size).Some? <==> b.size <= lim.maxChunkBytes)
            && (b.size <= lim.maxChunkBytes ==>
                  && ServeRange(lim, a, content, b.offset, b.size) == Some(content[b.offset..b.End()])
                  && Admissible(h, a.blocks.value, b, content[b.offset..b.End()]))
  {
    BlockInside(a.blocks.value, i);
    assert i in Verified(h, a.blocks.value, Some(content));
  }

  predicate AllServable(lim: Limits, m: TransferManifest) {
    forall i :: 0 <= i < |m.blocks| ==> m.blocks[i].size <= lim.maxChunkBytes
  }

  /**
   * Block-wise download into a staging file. It never accepts anything but a complete transfer;
   * from a verified publication it always succeeds, whatever the staging held before.
   */
  method DownloadArtifact(h: Hash, lim: Limits, a: Artifact, served: Bytes, destination: StagingFile) returns (ok: bool)
    requires 0 < a.sizeBytes && a.blocks.Some? && Tiles(a.blocks.value) && a.blocks.value.sizeBytes == a.sizeBytes
    modifies destination
    ensures ok ==> Complete(h, a.blocks.value, destination.content)
    ensures ArtifactVerified(h, a, served) && AllServable(lim, a.blocks.value) ==> ok
  {
    hide ServeRange, ArtifactVerified, Complete;
    var m := a.blocks.value;
    if destination.content.Some? && m.sizeBytes < |destination.content.value| {
      destination.content := None;
    }
    var missing := MissingBlockIndices(h, m, destination.content);
    for k := 0 to |missing|
      invariant Fits(m, destination.content)
      invariant forall i: nat :: i in Missing(h, m, destination.content) ==> i in missing[k..]
    {
      var index := missing[k];
      assert index in Missing(h, m, old(destination.content)) || index in Missing(h, m, None) by { assert index in missing; }
      var block := m.blocks[index];
      var payload := ServeRange(lim, a, served, block.offset, block.size);
      if ArtifactVerified(h, a, served) { BlocksServable(h, lim, a, served, index); }
      if payload.None? { return false; }
      if Admissible(h, m, block, payload.value) {
        WriteMakesProgress(h, m, destination.content, block, payload.value);
      }
      var reply := destination.WriteVerifiedBlock(h, m, block, payload.value);
      if reply == Refused { return false; }
      assert missing[k..] == [index] + missing[k + 1..];
    }
    ok := destination.VerifyCompleteTransfer(h, m);
    if Missing(h, m, destination.content) == {} { NothingMissing(h, m, destination.content); }
  }

  /**
   * Capture, upload, publish, download is the identity on bytes, up to a digest collision. The
   * captured entry passes publication; what was staged is what is published; every block is
   * servable; and any complete block-wise download of the publication is the captured stream.
   */
  lemma CaptureToDownloadIsIdentity(h: Hash, lim: Limits, s: Store, task: nat, m: ImageManifest, k: nat,
                                    chunks: seq<Bytes>, negotiated: nat, downloaded: Option<Bytes>)
    requires ChunksOf(chunks, negotiated) && negotiated <= lim.maxChunkBytes
    requires k < |m.artifacts| && Captured(h, m.artifacts[k], m.artifacts[k].path, chunks)
    requires task in s.staging && m.artifacts[k].path in s.staging[task]
    requires s.staging[task][m.artifacts[k].path] == Flatten(chunks)
    ensures var a := m.artifacts[k];
            && ArtifactVerified(h, a, Flatten(chunks))
            && AllServable(lim, a.blocks.value)
            && Publish(s, task, m.imageId).published[m.imageId][a.path] == Flatten(chunks)
            && (forall i :: 0 <= i < |chunks| ==>
                  ServeRange(lim, a, Flatten(chunks), a.blocks.value.blocks[i].offset, |chunks[i]|) == Some(chunks[i]))
            && (Complete(h, a.blocks.value, downloaded) ==> downloaded == Some(Flatten(chunks)) || Collision(h))
  {
    var a := m.artifacts[k];
    var t := a.blocks.value;
    DescribedIsComplete(h, t, Flatten(chunks));
    if Complete(h, t, downloaded) { CompleteIsSource(h, t, downloaded, Flatten(chunks)); }
    forall i | 0 <= i < |chunks|
      ensures ServeRange(lim, a, Flatten(chunks), t.blocks[i].offset, |chunks[i]|) == Some(chunks[i])
    {
      BlocksServable(h, lim, a, Flatten(chunks), i);
      BlockIsChunk(t.blocks, chunks, i);
    }
  }

  lemma DescribedIsComplete(h: Hash, m: TransferManifest, content: Bytes)
    requires Describes(h, m, content)
    ensures Complete(h, m, Some(content))
  {
  }

  /** Where a chained index with one block per chunk puts each chunk. */
  lemma {:induction false} BlockStarts(blocks: seq<TransferBlock>, chunks: seq<Bytes>, i: nat)
    requires Chained(blocks) && |blocks| == |chunks| && i < |chunks|
    requires forall j :: 0 <= j < |chunks| ==> blocks[j].size == |chunks[j]|
    ensures blocks[i].offset == |Flatten(chunks[..i])|
  {
    if i > 0 {
      BlockStarts(blocks, chunks, i - 1);
      FlattenTake(chunks, i - 1);
    }
  }

  lemma {:induction false} FlattenPrefix(chunks: seq<Bytes>, n: nat)
    requires n <= |chunks|
    ensures Flatten(chunks[..n]) <= Flatten(chunks)
    decreases |chunks| - n
  {
    if n == |chunks| {
      assert chunks[..n] == chunks;
    } else {
      FlattenTake(chunks, n);
      FlattenPrefix(chunks, n + 1);
    }
  }

  lemma BlockIsChunk(blocks: seq<TransferBlock>, chunks: seq<Bytes>, i: nat)
    requires Chained(blocks) && |blocks| == |chunks| && i < |chunks|
    requires forall j :: 0 <= j < |chunks| ==> blocks[j].size == |chunks[j]|
    ensures blocks[i].End() <= |Flatten(chunks)| && Flatten(chunks)[blocks[i].offset..blocks[i].End()] == chunks[i]
  {
    BlockStarts(blocks, chunks, i);
    FlattenTake(chunks, i);
    FlattenPrefix(chunks, i + 1);
    var part := Flatten(chunks[..i + 1]);
    assert part[blocks[i].offset..] == chunks[i];
  }
}
