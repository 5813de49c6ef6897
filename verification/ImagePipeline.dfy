/** A whole image: every partition stream captured, published together, downloaded again (scripts/run_image_task.py). */
module ImagePipeline {
  import opened Bytes
  import opened Transfer
  import opened Storage
  import opened CaptureDownload

  predicate DistinctPaths(paths: seq<Path>) { forall i, j :: 0 <= i < j < |paths| ==> paths[i] != paths[j] }

  /** The bytes of the first `n` streams. */
  function StreamBytes(streams: seq<seq<Bytes>>, n: nat): nat
    requires n <= |streams|
  {
    if n == 0 then 0 else StreamBytes(streams, n - 1) + |Flatten(streams[n - 1])|
  }

  /** The files the first `n` streams make. */
  function FilesOf(paths: seq<Path>, streams: seq<seq<Bytes>>, n: nat): Files
    requires n <= |streams| == |paths|
  {
    if n == 0 then map[] else FilesOf(paths, streams, n - 1)[paths[n - 1] := Flatten(streams[n - 1])]
  }

  /** Every stream can be indexed, and together they fit the image allowance. */
  predicate Capturable(lim: Limits, streams: seq<seq<Bytes>>) {
    && (forall i :: 0 <= i < |streams| ==> 0 < |streams[i]| <= MAX_BLOCKS)
    && StreamBytes(streams, |streams|) <= lim.maxImageBytes
  }

  lemma {:induction false} StreamBytesGrow(streams: seq<seq<Bytes>>, m: nat, n: nat)
    requires m <= n <= |streams|
    ensures StreamBytes(streams, m) <= StreamBytes(streams, n)
    decreases n
  {
    if m < n { StreamBytesGrow(streams, m, n - 1); }
  }

  lemma {:induction false} FilesHold(paths: seq<Path>, streams: seq<seq<Bytes>>, n: nat)
    requires n <= |streams| == |paths| && DistinctPaths(paths)
    ensures forall i :: 0 <= i < n ==> paths[i] in FilesOf(paths, streams, n) && FilesOf(paths, streams, n)[paths[i]] == Flatten(streams[i])
    ensures forall p :: p in FilesOf(paths, streams, n) <==> p in paths[..n]
  {
    if n > 0 {
      FilesHold(paths, streams, n - 1);
      assert paths[..n] == paths[..n - 1] + [paths[n - 1]];
    }
  }

  lemma NothingStored()
    ensures TotalSize(map[]) == 0
  {
  }

  lemma {:induction false} FilesSize(paths: seq<Path>, streams: seq<seq<Bytes>>, n: nat)
    requires n <= |streams| == |paths| && DistinctPaths(paths)
    ensures TotalSize(FilesOf(paths, streams, n)) == StreamBytes(streams, n)
  {
    hide TotalSize;
    if n == 0 {
      NothingStored();
    } else {
      FilesSize(paths, streams, n - 1);
      FilesHold(paths, streams, n - 1);
      TotalSizePut(FilesOf(paths, streams, n - 1), paths[n - 1], Flatten(streams[n - 1]));
    }
  }

  /** What a capture hands to the manifest: one entry per stream, in order. */
  ghost predicate AllCaptured(h: Hash, artifacts: seq<Artifact>, paths: seq<Path>, streams: seq<seq<Bytes>>) {
    && |artifacts| == |streams| == |paths|
    && forall i :: 0 <= i < |streams| ==> Captured(h, artifacts[i], paths[i], streams[i])
  }

  /** The capture loop over all partitions, into a fresh staging directory. */
  method CaptureImage(h: Hash, store: ArtifactStore, task: nat, paths: seq<Path>, streams: seq<seq<Bytes>>, negotiated: nat)
    returns (r: Option<seq<Artifact>>)
    requires 0 < negotiated <= store.limits.maxChunkBytes && negotiated <= MAX_BLOCK_SIZE
    requires store.limits.maxImageBytes <= MAX_SIZE
    requires |paths| == |streams| && DistinctPaths(paths) && forall i :: 0 <= i < |streams| ==> ChunksOf(streams[i], negotiated)
    requires task !in store.staging
    modifies store
    ensures r.Some? <==> Capturable(store.limits, streams)
    ensures r.Some? ==> AllCaptured(h, r.value, paths, streams)
    ensures r.Some? ==> Dir(store.Contents(), task) == FilesOf(paths, streams, |streams|)
    ensures streams == [] ==> store.staging == old(store.staging)
    ensures store.published == old(store.published)
  {
    hide Captured, TotalSize, StreamBytes, FilesOf;
    var artifacts: seq<Artifact> := [];
    NoFiles(paths, streams);
    for i := 0 to |streams|
      invariant |artifacts| == i && forall k :: 0 <= k < i ==> Captured(h, artifacts[k], paths[k], streams[k])
      invariant forall k :: 0 <= k < i ==> 0 < |streams[k]| <= MAX_BLOCKS
      invariant Dir(store.Contents(), task) == FilesOf(paths, streams, i)
      invariant i == 0 || StreamBytes(streams, i) <= store.limits.maxImageBytes
      invariant i == 0 ==> store.staging == old(store.staging)
      invariant store.published == old(store.published)
    {
      FilesSize(paths, streams, i);
      FilesHold(paths, streams, i);
      NextFile(paths, streams, i);
      StreamBytesGrow(streams, i + 1, |streams|);
      NotYet(paths, i);
      var artifact := CaptureArtifact(h, store, task, paths[i], streams[i], negotiated);
      if artifact.None? { return None; }
      artifacts := artifacts + [artifact.value];
    }
    return Some(artifacts);
  }

  lemma NoFiles(paths: seq<Path>, streams: seq<seq<Bytes>>)
    requires |paths| == |streams|
    ensures FilesOf(paths, streams, 0) == map[] && StreamBytes(streams, 0) == 0
  {
  }

  lemma NextFile(paths: seq<Path>, streams: seq<seq<Bytes>>, i: nat)
    requires i < |streams| == |paths|
    ensures FilesOf(paths, streams, i + 1) == FilesOf(paths, streams, i)[paths[i] := Flatten(streams[i])]
    ensures StreamBytes(streams, i + 1) == StreamBytes(streams, i) + |Flatten(streams[i])|
  {
  }

  lemma NotYet(paths: seq<Path>, i: nat)
    requires DistinctPaths(paths) && i < |paths|
    ensures paths[i] !in paths[..i]
  {
  }

  /** Entries of captured streams make a manifest the store accepts, of exactly the bytes captured. */
  lemma {:induction false} CapturedSize(h: Hash, artifacts: seq<Artifact>, paths: seq<Path>, streams: seq<seq<Bytes>>, n: nat)
    requires AllCaptured(h, artifacts, paths, streams) && n <= |streams|
    ensures DeclaredSize(artifacts[..n]) == StreamBytes(streams, n)
  {
    if n > 0 {
      CapturedSize(h, artifacts, paths, streams, n - 1);
      assert artifacts[..n][..n - 1] == artifacts[..n - 1];
      assert Captured(h, artifacts[n - 1], paths[n - 1], streams[n - 1]);
    }
  }

  lemma CapturedIsWellFormed(h: Hash, a: Artifact, path: Path, chunks: seq<Bytes>, negotiated: nat)
    requires Captured(h, a, path, chunks) && ChunksOf(chunks, negotiated) && chunks != []
    ensures a.path == path && 0 < a.sizeBytes && a.blocks.Some? && Tiles(a.blocks.value) && a.blocks.value.sizeBytes == a.sizeBytes
    ensures ArtifactVerified(h, a, Flatten(chunks))
  {
    DescribedIsComplete(h, a.blocks.value, Flatten(chunks));
  }

  lemma CapturedIsServable(h: Hash, lim: Limits, a: Artifact, path: Path, chunks: seq<Bytes>, negotiated: nat)
    requires Captured(h, a, path, chunks) && ChunksOf(chunks, negotiated) && negotiated <= lim.maxChunkBytes
    ensures AllServable(lim, a.blocks.value)
  {
  }

  /** A manifest entry for `path`, and the file it declares. */
  predicate Held(h: Hash, a: Artifact, path: Path, files: Files) {
    && a.path == path && 0 < a.sizeBytes && a.blocks.Some? && Tiles(a.blocks.value) && a.blocks.value.sizeBytes == a.sizeBytes
    && path in files && ArtifactVerified(h, a, files[path])
  }

  lemma HeldMatches(h: Hash, m: ImageManifest, paths: seq<Path>, files: Files)
    requires |m.artifacts| == |paths| && DistinctPaths(paths)
    requires forall i :: 0 <= i < |paths| ==> Held(h, m.artifacts[i], paths[i], files)
    requires forall p :: p in files ==> p in paths
    ensures WellFormedManifest(m) && Matches(h, m, files)
    ensures forall i :: 0 <= i < |m.artifacts| ==> m.artifacts[i].blocks.Some?
  {
    hide Tiles, ArtifactVerified;
    forall p | p in files ensures Declares(m, p) {
      var i :| 0 <= i < |paths| && paths[i] == p;
      assert m.artifacts[i].path == p;
    }
  }

  /** The captured manifest matches exactly the captured files. */
  lemma {:induction false} CapturedMatches(h: Hash, m: ImageManifest, paths: seq<Path>, streams: seq<seq<Bytes>>, negotiated: nat)
    requires AllCaptured(h, m.artifacts, paths, streams) && DistinctPaths(paths)
    requires forall i :: 0 <= i < |streams| ==> ChunksOf(streams[i], negotiated) && streams[i] != []
    ensures WellFormedManifest(m) && Matches(h, m, FilesOf(paths, streams, |streams|))
    ensures forall i :: 0 <= i < |m.artifacts| ==> m.artifacts[i].blocks.Some?
  {
    hide Captured, ChunksOf, Tiles, ArtifactVerified, FilesOf, WellFormedManifest, Matches;
    var files := FilesOf(paths, streams, |streams|);
    FilesHold(paths, streams, |streams|);
    forall i | 0 <= i < |streams| ensures Held(h, m.artifacts[i], paths[i], files) {
      CapturedIsWellFormed(h, m.artifacts[i], paths[i], streams[i], negotiated);
    }
    assert paths[..|streams|] == paths;
    HeldMatches(h, m, paths, files);
  }

  predicate DistinctFiles(destinations: seq<StagingFile>) {
    forall i, j :: 0 <= i < j < |destinations| ==> destinations[i] != destinations[j]
  }

  /** The restore agent's loop: every artifact into its own staging file. */
  method RestoreImage(h: Hash, lim: Limits, m: ImageManifest, files: Files, destinations: seq<StagingFile>) returns (ok: bool)
    requires WellFormedManifest(m) && forall i :: 0 <= i < |m.artifacts| ==> m.artifacts[i].blocks.Some?
    requires |destinations| == |m.artifacts| && DistinctFiles(destinations)
    modifies destinations
    ensures ok ==> forall i :: 0 <= i < |m.artifacts| ==> Complete(h, m.artifacts[i].blocks.value, destinations[i].content)
    ensures Verifies(h, m, files) && (forall i :: 0 <= i < |m.artifacts| ==> AllServable(lim, m.artifacts[i].blocks.value)) ==> ok
  {
    hide Complete, ArtifactVerified, AllServable, Tiles;
    for i := 0 to |m.artifacts|
      invariant forall k :: 0 <= k < i ==> Complete(h, m.artifacts[k].blocks.value, destinations[k].content)
    {
      var a := m.artifacts[i];
      if a.path !in files { return false; }
      var downloaded := DownloadArtifact(h, lim, a, files[a.path], destinations[i]);
      if !downloaded { return false; }
    }
    return true;
  }

  /**
   * Capture, publish, restore. The image is published exactly when its streams are capturable and manifest, space and
   * destination allow it; then exactly the captured files are published, every artifact can be downloaded whatever the
   * staging files held before, and each arrives as the stream that was captured, or two byte strings share a digest.
   */
  method CaptureThenRestore(h: Hash, store: ArtifactStore, task: nat, image: nat, form: ImageManifest, paths: seq<Path>,
                            streams: seq<seq<Bytes>>, negotiated: nat, room: bool, destinations: seq<StagingFile>)
    returns (published: bool, restored: bool)
    requires 0 < negotiated <= store.limits.maxChunkBytes && negotiated <= MAX_BLOCK_SIZE
    requires store.limits.maxImageBytes <= MAX_SIZE
    requires |paths| == |streams| == |destinations| && DistinctPaths(paths) && DistinctFiles(destinations)
    requires forall i :: 0 <= i < |streams| ==> ChunksOf(streams[i], negotiated)
    requires task !in store.staging
    modifies store, destinations
    ensures published <==> && Capturable(store.limits, streams) && streams != []
                           && form.imageId == image && form.publishable && form.supported && room && image !in old(store.published)
    ensures published ==> store.published == old(store.published)[image := FilesOf(paths, streams, |streams|)]
    ensures published ==> restored
    ensures restored ==> forall i :: 0 <= i < |streams| ==> destinations[i].content == Some(Flatten(streams[i])) || Collision(h)
  {
    hide Captured, TotalSize, StreamBytes, FilesOf, Complete, ArtifactVerified, WellFormedManifest, Matches, AllServable, ChunksOf;
    var artifacts := CaptureImage(h, store, task, paths, streams, negotiated);
    if artifacts.None? { return false, false; }
    var m := form.(artifacts := artifacts.value);
    CapturedMatches(h, m, paths, streams, negotiated);
    CapturedSize(h, m.artifacts, paths, streams, |streams|);
    assert m.artifacts[..|streams|] == m.artifacts;
    StagedIfAny(store.Contents(), task, paths, streams);
    published := store.VerifyAndPublish(h, task, image, m, room);
    if !published { return false, false; }
    MatchesVerifies(h, m, store.published[image]);
    forall i | 0 <= i < |streams| ensures AllServable(store.limits, m.artifacts[i].blocks.value) {
      CapturedIsServable(h, store.limits, m.artifacts[i], paths[i], streams[i], negotiated);
    }
    restored := RestoreImage(h, store.limits, m, store.published[image], destinations);
    forall i | 0 <= i < |streams| ensures destinations[i].content == Some(Flatten(streams[i])) || Collision(h) {
      DownloadIsStream(h, m.artifacts[i], paths[i], streams[i], destinations[i].content);
    }
  }

  lemma StagedIfAny(s: Store, task: nat, paths: seq<Path>, streams: seq<seq<Bytes>>)
    requires |paths| == |streams| && DistinctPaths(paths) && Dir(s, task) == FilesOf(paths, streams, |streams|)
    ensures streams != [] ==> task in s.staging && s.staging[task] == FilesOf(paths, streams, |streams|)
    ensures streams == [] ==> Dir(s, task) == map[]
  {
    FilesHold(paths, streams, |streams|);
    if streams != [] { assert paths[0] in Dir(s, task); }
  }

  lemma MatchesVerifies(h: Hash, m: ImageManifest, files: Files)
    requires Matches(h, m, files)
    ensures Verifies(h, m, files)
  {
  }

  lemma DownloadIsStream(h: Hash, a: Artifact, path: Path, chunks: seq<Bytes>, content: Option<Bytes>)
    requires Captured(h, a, path, chunks) && Complete(h, a.blocks.value, content)
    ensures content == Some(Flatten(chunks)) || Collision(h)
  {
    CompleteIsSource(h, a.blocks.value, content, Flatten(chunks));
  }
}
