/** Task-scoped staging and the atomic publish boundary (pyfog/storage.py, pyfog/image_manifest.py). */
module Storage {
  import opened Bytes
  import opened Transfer

  type Path = string
  type Files = map<Path, Bytes>

  datatype Artifact = Artifact(path: Path, sizeBytes: nat, sha256: Digest, blocks: Option<TransferManifest>)

  /** The part of an image manifest the store and the catalogue act on; `text` is its canonical JSON, all fields included. */
  datatype ImageManifest = ImageManifest(imageId: nat, hostId: nat, reportId: nat,
                                         publishable: bool, supported: bool, artifacts: seq<Artifact>, text: Bytes)

  datatype Limits = Limits(maxImageBytes: nat, maxChunkBytes: nat)

  datatype Store = Store(staging: map<nat, Files>, published: map<nat, Files>)

  /** One upload request: headers as the client sent them, and the body. */
  datatype Chunk = Chunk(index: int, offset: int, totalSize: int, payload: Bytes, sha256: Digest)

  datatype ChunkReply = Appended | Replay | Rejected

  /* ----- sizes ----- */

  ghost function TotalSize(files: Files): nat
    decreases |files|
  {
    if files == map[] then 0
    else
      var p :| p in files;
      |files[p]| + TotalSize(files - {p})
  }

  lemma {:induction false} TotalSizeAt(files: Files, p: Path)
    requires p in files
    ensures TotalSize(files) == |files[p]| + TotalSize(files - {p})
    decreases |files|
  {
    var q :| q in files && TotalSize(files) == |files[q]| + TotalSize(files - {q});
    if q != p {
      TotalSizeAt(files - {q}, p);
      TotalSizeAt(files - {p}, q);
      assert files - {q} - {p} == files - {p} - {q};
    }
  }

  lemma TotalSizePut(files: Files, p: Path, content: Bytes)
    ensures TotalSize(files[p := content]) + (if p in files then |files[p]| else 0) == TotalSize(files) + |content|
  {
    TotalSizeAt(files[p := content], p);
    assert files[p := content] - {p} == files - {p};
    if p in files { TotalSizeAt(files, p); } else { assert files - {p} == files; }
  }

  /* ----- append-only upload ----- */

  function Dir(s: Store, task: nat): Files {
    if task in s.staging then s.staging[task] else map[]
  }

  predicate WellFormedChunk(h: Hash, lim: Limits, c: Chunk) {
    && 0 <= c.index && 0 <= c.offset
    && 0 < |c.payload| <= lim.maxChunkBytes
    && 0 <= c.totalSize <= lim.maxImageBytes
    && (c.totalSize != 0 ==> c.offset + |c.payload| <= c.totalSize)
    && h(c.payload) == c.sha256
  }

  /** What one well-formed chunk does to a task's directory. */
  ghost function DirStep(h: Hash, lim: Limits, dir: Files, path: Path, c: Chunk, room: bool): (r: (Files, ChunkReply))
    requires 0 <= c.offset
  {
    if path !in dir && c.offset != 0 then (dir, Rejected)
    else
      var opened' := if path in dir then dir else dir[path := []];
      var file := opened'[path];
      if |file| == c.offset + |c.payload| then
        (opened', if h(ReadAt(file, c.offset, |c.payload|)) == c.sha256 then Replay else Rejected)
      else if |file| != c.offset || lim.maxImageBytes < TotalSize(opened') + |c.payload| || !room then
        (opened', Rejected)
      else
        (opened'[path := file + c.payload], Appended)
  }

  ghost function ChunkStep(h: Hash, lim: Limits, s: Store, task: nat, path: Path, c: Chunk, room: bool)
    : (r: (Store, ChunkReply))
  {
    if !WellFormedChunk(h, lim, c) then (s, Rejected)
    else
      var (dir, reply) := DirStep(h, lim, Dir(s, task), path, c, room);
      (s.(staging := s.staging[task := dir]), reply)
  }

  ghost predicate StagedWithinLimit(lim: Limits, s: Store) {
    forall t :: t in s.staging ==> TotalSize(s.staging[t]) <= lim.maxImageBytes
  }

  /** `new'` keeps every byte of `old'` and differs from it only by growing `path`. */
  predicate Extends(old': Files, new': Files, path: Path) {
    && (forall p :: p in old' ==> p in new' && old'[p] <= new'[p])
    && (forall p :: p in new' && p != path ==> p in old' && new'[p] == old'[p])
  }

  lemma DirOnlyAppends(h: Hash, lim: Limits, dir: Files, path: Path, c: Chunk, room: bool)
    requires 0 <= c.offset && TotalSize(dir) <= lim.maxImageBytes
    ensures var (dir', reply) := DirStep(h, lim, dir, path, c, room);
            && Extends(dir, dir', path)
            && TotalSize(dir') <= lim.maxImageBytes
            && (reply != Appended ==> dir' == dir || (path !in dir && dir' == dir[path := []]))
  {
    hide TotalSize;
    if path !in dir { TotalSizePut(dir, path, []); }
    var opened' := if path in dir then dir else dir[path := []];
    TotalSizePut(opened', path, opened'[path] + c.payload);
  }

  /** No upload alters a byte: old content stays a prefix, other files and publications are untouched. */
  lemma UploadOnlyAppends(h: Hash, lim: Limits, s: Store, task: nat, path: Path, c: Chunk, room: bool)
    requires StagedWithinLimit(lim, s)
    ensures var (s', reply) := ChunkStep(h, lim, s, task, path, c, room);
            && StagedWithinLimit(lim, s')
            && s'.published == s.published
            && (forall t :: t != task ==> Dir(s', t) == Dir(s, t))
            && Extends(Dir(s, task), Dir(s', task), path)
            && (reply != Appended ==> path in Dir(s, task) ==> Dir(s', task) == Dir(s, task))
  {
    assert TotalSize(map[]) == 0;
    if WellFormedChunk(h, lim, c) { DirOnlyAppends(h, lim, Dir(s, task), path, c, room); }
  }

  /** The checks on a chunk itself. */
  lemma ChunkChecks(h: Hash, lim: Limits, c: Chunk)
    ensures WellFormedChunk(h, lim, c) <==>
              && c.index >= 0 && c.offset >= 0 && 0 <= c.totalSize <= lim.maxImageBytes
              && c.payload != [] && |c.payload| <= lim.maxChunkBytes && h(c.payload) == c.sha256
              && (c.totalSize > 0 ==> c.offset + |c.payload| <= c.totalSize)
  {
  }

  /**
   * A sound chunk is appended if and only if it begins where the file ends and the task's allowance and the disk have room
   * for it; it is taken for a repeat if and only if it ends where the file ends, with a tail of its digest.
   */
  lemma ChunkDecides(h: Hash, lim: Limits, s: Store, task: nat, path: Path, c: Chunk, room: bool)
    ensures var (s', reply) := ChunkStep(h, lim, s, task, path, c, room);
            var dir := Dir(s, task);
            var file := if path in dir then dir[path] else [];
            && (reply == Appended <==> && WellFormedChunk(h, lim, c) && |file| == c.offset && room
                                       && TotalSize(dir) + |c.payload| <= lim.maxImageBytes)
            && (reply == Appended ==> Dir(s', task) == dir[path := file + c.payload])
            && (reply == Replay <==> && WellFormedChunk(h, lim, c) && |file| == c.offset + |c.payload|
                                     && h(file[c.offset..]) == c.sha256)
            && (reply == Replay ==> Dir(s', task) == dir && (file[c.offset..] == c.payload || Collision(h)))
  {
    hide TotalSize;
    var dir := Dir(s, task);
    var file := if path in dir then dir[path] else [];
    if path !in dir { TotalSizePut(dir, path, []); }
    if WellFormedChunk(h, lim, c) && |file| == c.offset + |c.payload| {
      assert ReadAt(file, c.offset, |c.payload|) == file[c.offset..];
    }
    assert [] + c.payload == c.payload;
  }

  /** A chunk that neither continues the file nor repeats its tail is refused and changes nothing. */
  lemma OutOfPlaceChunk(h: Hash, lim: Limits, s: Store, task: nat, path: Path, c: Chunk, room: bool)
    requires path in Dir(s, task)
    requires |Dir(s, task)[path]| != c.offset
    requires |Dir(s, task)[path]| != c.offset + |c.payload|
             || (0 <= c.offset && h(ReadAt(Dir(s, task)[path], c.offset, |c.payload|)) != c.sha256)
    ensures ChunkStep(h, lim, s, task, path, c, room) == (s, Rejected)
  {
    assert s.staging[task := Dir(s, task)] == s.staging;
  }

  /** The n-th chunk of a stream as the capture agent sends it. */
  ghost function StreamChunk(h: Hash, chunks: seq<Bytes>, i: nat): Chunk
    requires i < |chunks|
  {
    Chunk(i, |Flatten(chunks[..i])|, 0, chunks[i], h(chunks[i]))
  }

  /** The same request delivered `times` times. */
  ghost function Redeliver(h: Hash, lim: Limits, s: Store, task: nat, path: Path, c: Chunk, times: nat): Store {
    if times == 0 then s
    else ChunkStep(h, lim, Redeliver(h, lim, s, task, path, c, times - 1), task, path, c, true).0
  }

  /** At-least-once delivery of the first `n` chunks: each is sent, then repeated before the next. */
  ghost function DeliverStream(h: Hash, lim: Limits, s: Store, task: nat, path: Path,
                               chunks: seq<Bytes>, repeats: seq<nat>, n: nat): Store
    requires n <= |chunks| == |repeats|
  {
    if n == 0 then s
    else
      var before := DeliverStream(h, lim, s, task, path, chunks, repeats, n - 1);
      Redeliver(h, lim, before, task, path, StreamChunk(h, chunks, n - 1), 1 + repeats[n - 1])
  }

  /** A fresh file, chunks of an allowed size, and enough of the task's allowance left. */
  ghost predicate StreamAllowed(lim: Limits, dir: Files, path: Path, chunks: seq<Bytes>) {
    && path !in dir
    && (forall i :: 0 <= i < |chunks| ==> 0 < |chunks[i]| <= lim.maxChunkBytes)
    && TotalSize(dir) + |Flatten(chunks)| <= lim.maxImageBytes
  }

  lemma {:induction false} FlattenGrows(chunks: seq<Bytes>, n: nat)
    requires n <= |chunks|
    ensures |Flatten(chunks[..n])| <= |Flatten(chunks)|
    decreases |chunks| - n
  {
    if n == |chunks| {
      assert chunks[..n] == chunks;
    } else {
      FlattenTake(chunks, n);
      FlattenGrows(chunks, n + 1);
    }
  }

  lemma FlattenTake(chunks: seq<Bytes>, n: nat)
    requires n < |chunks|
    ensures Flatten(chunks[..n + 1]) == Flatten(chunks[..n]) + chunks[n]
  {
    assert chunks[..n + 1] == chunks[..n] + [chunks[n]];
    FlattenSnoc(chunks[..n], chunks[n]);
  }

  /** The directory once the first `n` chunks are in. */
  ghost function Filled(dir: Files, path: Path, chunks: seq<Bytes>, n: nat): Files
    requires n <= |chunks|
  {
    if n == 0 then dir else dir[path := Flatten(chunks[..n])]
  }

  /** Sending the next chunk of a stream appends it. */
  lemma SendNext(h: Hash, lim: Limits, dir: Files, path: Path, chunks: seq<Bytes>, n: nat)
    requires StreamAllowed(lim, dir, path, chunks) && n < |chunks|
    ensures DirStep(h, lim, Filled(dir, path, chunks, n), path, StreamChunk(h, chunks, n), true)
         == (Filled(dir, path, chunks, n + 1), Appended)
  {
    FlattenTake(chunks, n);
    FlattenGrows(chunks, n + 1);
    TotalSizePut(dir, path, Flatten(chunks[..n]));
    assert dir[path := Flatten(chunks[..n])][path := Flatten(chunks[..n + 1])] == dir[path := Flatten(chunks[..n + 1])];
  }

  /** Repeating the chunk just appended is a replay and changes nothing. */
  lemma SendAgain(h: Hash, lim: Limits, dir: Files, path: Path, chunks: seq<Bytes>, n: nat)
    requires n < |chunks|
    ensures DirStep(h, lim, Filled(dir, path, chunks, n + 1), path, StreamChunk(h, chunks, n), true)
         == (Filled(dir, path, chunks, n + 1), Replay)
  {
    FlattenTake(chunks, n);
    var c := StreamChunk(h, chunks, n);
    assert ReadAt(Flatten(chunks[..n + 1]), c.offset, |c.payload|) == chunks[n];
  }

  /** A chunk that settles at once stays settled, however often it is delivered again. */
  lemma {:induction false} RedeliverSettles(h: Hash, lim: Limits, s: Store, task: nat, path: Path, c: Chunk, dir: Files, times: nat)
    requires WellFormedChunk(h, lim, c) && 0 < times
    requires DirStep(h, lim, Dir(s, task), path, c, true).0 == dir
    requires DirStep(h, lim, dir, path, c, true).0 == dir
    ensures var s' := Redeliver(h, lim, s, task, path, c, times);
            Dir(s', task) == dir && s'.published == s.published && forall t :: t != task ==> Dir(s', t) == Dir(s, t)
  {
    if times == 1 {
      assert Redeliver(h, lim, s, task, path, c, 0) == s;
    } else {
      RedeliverSettles(h, lim, s, task, path, c, dir, times - 1);
    }
  }

  /** Exactly once: however often each chunk is repeated, the staged file is the concatenation. */
  lemma {:induction false} UploadExactlyOnce(h: Hash, lim: Limits, s: Store, task: nat, path: Path,
                                             chunks: seq<Bytes>, repeats: seq<nat>, n: nat)
    requires StreamAllowed(lim, Dir(s, task), path, chunks) && n <= |chunks| == |repeats|
    ensures var s' := DeliverStream(h, lim, s, task, path, chunks, repeats, n);
            && Dir(s', task) == Filled(Dir(s, task), path, chunks, n)
            && s'.published == s.published
            && forall t :: t != task ==> Dir(s', t) == Dir(s, t)
  {
    if n > 0 {
      UploadExactlyOnce(h, lim, s, task, path, chunks, repeats, n - 1);
      var before := DeliverStream(h, lim, s, task, path, chunks, repeats, n - 1);
      var c := StreamChunk(h, chunks, n - 1);
      SendNext(h, lim, Dir(s, task), path, chunks, n - 1);
      SendAgain(h, lim, Dir(s, task), path, chunks, n - 1);
      RedeliverSettles(h, lim, before, task, path, c, Filled(Dir(s, task), path, chunks, n), 1 + repeats[n - 1]);
    }
  }

  /* ----- verification and publication ----- */

  /** Size, digest and every block of one artifact. */
  predicate ArtifactVerified(h: Hash, a: Artifact, content: Bytes) {
    && |content| == a.sizeBytes
    && h(content) == a.sha256
    && (a.blocks.Some? ==> Complete(h, a.blocks.value, Some(content)))
  }

  predicate Verifies(h: Hash, m: ImageManifest, files: Files) {
    forall i :: 0 <= i < |m.artifacts| ==>
                  m.artifacts[i].path in files && ArtifactVerified(h, m.artifacts[i], files[m.artifacts[i].path])
  }

  predicate Declares(m: ImageManifest, path: Path) {
    exists i :: 0 <= i < |m.artifacts| && m.artifacts[i].path == path
  }

  /** The files are exactly the declared artifacts, each verified. */
  predicate Matches(h: Hash, m: ImageManifest, files: Files) {
    && Verifies(h, m, files)
    && forall p :: p in files ==> Declares(m, p)
  }

  /** What parsing a manifest guarantees about its artifacts. */
  predicate WellFormedManifest(m: ImageManifest) {
    && (forall i, j :: 0 <= i < j < |m.artifacts| ==> m.artifacts[i].path != m.artifacts[j].path)
    && forall i :: 0 <= i < |m.artifacts| ==>
                     && 0 < m.artifacts[i].sizeBytes
                     && (m.artifacts[i].blocks.Some? ==>
                           && Tiles(m.artifacts[i].blocks.value)
                           && m.artifacts[i].blocks.value.sizeBytes == m.artifacts[i].sizeBytes)
  }

  function DeclaredSize(artifacts: seq<Artifact>): nat {
    if artifacts == [] then 0 else DeclaredSize(artifacts[..|artifacts| - 1]) + artifacts[|artifacts| - 1].sizeBytes
  }

  predicate CanPublish(h: Hash, lim: Limits, s: Store, task: nat, image: nat, m: ImageManifest, room: bool) {
    && m.imageId == image && m.publishable && m.supported
    && DeclaredSize(m.artifacts) <= lim.maxImageBytes
    && room
    && task in s.staging
    && Matches(h, m, s.staging[task])
    && image !in s.published
  }

  /** The staged directory becomes the publication in one rename. */
  function Publish(s: Store, task: nat, image: nat): Store
    requires task in s.staging
  {
    Store(s.staging - {task}, s.published[image := s.staging[task]])
  }

  /**
   * What a publication is worth: a new directory with exactly the declared files, each of the declared length, digest and
   * blocks, within the image limit; no other directory changes.
   */
  lemma PublicationIsSound(h: Hash, lim: Limits, s: Store, task: nat, image: nat, m: ImageManifest, room: bool)
    requires WellFormedManifest(m) && CanPublish(h, lim, s, task, image, m, room)
    ensures room && m.imageId == image && m.publishable && m.supported && DeclaredSize(m.artifacts) <= lim.maxImageBytes
    ensures var s' := Publish(s, task, image);
            && image !in s.published && s'.published.Keys == s.published.Keys + {image}
            && (forall i :: i in s.published ==> s'.published[i] == s.published[i])
            && s'.staging.Keys == s.staging.Keys - {task} && (forall t :: t in s'.staging ==> s'.staging[t] == s.staging[t])
            && var files := s'.published[image];
               && (forall p :: p in files <==> Declares(m, p))
               && forall i :: 0 <= i < |m.artifacts| ==>
                    var a := m.artifacts[i];
                    && a.path in files && |files[a.path]| == a.sizeBytes && h(files[a.path]) == a.sha256
                    && (a.blocks.Some? ==> forall k :: 0 <= k < |a.blocks.value.blocks| ==>
                          var b := a.blocks.value.blocks[k];
                          b.End() <= a.sizeBytes && h(files[a.path][b.offset..b.End()]) == b.sha256)
  {
    forall i | 0 <= i < |m.artifacts| && m.artifacts[i].blocks.Some? ensures
        var a := m.artifacts[i];
        && a.path in s.staging[task]
        && forall k :: 0 <= k < |a.blocks.value.blocks| ==>
             var b := a.blocks.value.blocks[k];
             b.End() <= |s.staging[task][a.path]| && h(s.staging[task][a.path][b.offset..b.End()]) == b.sha256
    {
      AllVerified(h, m.artifacts[i].blocks.value, s.staging[task][m.artifacts[i].path]);
    }
  }

  lemma AllVerified(h: Hash, m: TransferManifest, f: Bytes)
    requires Complete(h, m, Some(f))
    ensures forall k :: 0 <= k < |m.blocks| ==>
              m.blocks[k].End() <= |f| && h(f[m.blocks[k].offset..m.blocks[k].End()]) == m.blocks[k].sha256
  {
    forall k: nat | k < |m.blocks| ensures BlockVerified(h, m.blocks[k], f) {
      assert k !in Missing(h, m, Some(f));
    }
  }

  class ArtifactStore {
    const limits: Limits
    var staging: map<nat, Files>
    var published: map<nat, Files>

    constructor (limits: Limits)
      ensures this.limits == limits && Contents() == Store(map[], map[])
    {
      this.limits := limits;
      staging, published := map[], map[];
    }

    function Contents(): Store reads this {
      Store(staging, published)
    }

    /** Bytes of every file staged for one task. */
    method StoredSize(task: nat) returns (total: nat)
      requires task in staging
      ensures total == TotalSize(staging[task])
    {
      var files := staging[task];
      var keys := files.Keys;
      total := 0;
      var rest := files;
      while keys != {}
        invariant keys == rest.Keys && forall p :: p in rest ==> p in files && rest[p] == files[p]
        invariant total + TotalSize(rest) == TotalSize(files)
        decreases keys
      {
        var p :| p in keys;
        TotalSizeAt(rest, p);
        total := total + |files[p]|;
        keys, rest := keys - {p}, rest - {p};
      }
      assert rest == map[];
    }

    method WriteChunk(h: Hash, task: nat, path: Path, c: Chunk, room: bool) returns (reply: ChunkReply)
      modifies this
      ensures (Contents(), reply) == ChunkStep(h, limits, old(Contents()), task, path, c, room)
    {
      if c.index < 0 || c.offset < 0 { return Rejected; }
      if |c.payload| == 0 || limits.maxChunkBytes < |c.payload| { return Rejected; }
      if c.totalSize < 0 || limits.maxImageBytes < c.totalSize { return Rejected; }
      if c.totalSize != 0 && c.totalSize < c.offset + |c.payload| { return Rejected; }
      if h(c.payload) != c.sha256 { return Rejected; }
      ghost var dir := Dir(Contents(), task);
      if task !in staging { staging := staging[task := map[]]; }
      assert staging == old(staging)[task := dir];
      if path !in staging[task] {
        if c.offset != 0 { return Rejected; }
        staging := staging[task := staging[task][path := []]];
      }
      assert staging == old(staging)[task := if path in dir then dir else dir[path := []]];
      var file := staging[task][path];
      if |file| == c.offset + |c.payload| {
        if h(ReadAt(file, c.offset, |c.payload|)) == c.sha256 { return Replay; }
        return Rejected;
      }
      if |file| != c.offset { return Rejected; }
      var stored := StoredSize(task);
      if limits.maxImageBytes < stored + |c.payload| { return Rejected; }
      if !room { return Rejected; }
      var written := WriteAt(file, c.offset, c.payload);
      assert written == file + c.payload;
      staging := staging[task := staging[task][path := written]];
      assert staging == old(staging)[task := (if path in dir then dir else dir[path := []])[path := written]];
      return Appended;
    }

    static method VerifyArtifacts(h: Hash, m: ImageManifest, files: Files) returns (ok: bool)
      requires WellFormedManifest(m)
      ensures ok <==> Verifies(h, m, files)
    {
      for i := 0 to |m.artifacts|
        invariant forall k :: 0 <= k < i ==>
                                m.artifacts[k].path in files && ArtifactVerified(h, m.artifacts[k], files[m.artifacts[k].path])
      {
        var a := m.artifacts[i];
        if a.path !in files { return false; }
        var content := files[a.path];
        if |content| != a.sizeBytes || h(content) != a.sha256 { return false; }
        if a.blocks.Some? {
          var missing := MissingBlockIndices(h, a.blocks.value, Some(content));
          if missing != [] {
            assert missing[0] in Missing(h, a.blocks.value, Some(content));
            return false;
          }
        }
      }
      return true;
    }

    method VerifyAndPublish(h: Hash, task: nat, image: nat, m: ImageManifest, room: bool) returns (ok: bool)
      requires WellFormedManifest(m)
      modifies this
      ensures ok <==> CanPublish(h, limits, old(Contents()), task, image, m, room)
      ensures Contents() == if ok then Publish(old(Contents()), task, image) else old(Contents())
    {
      if m.imageId != image || !m.publishable || !m.supported { return false; }
      var total := 0;
      for i := 0 to |m.artifacts|
        invariant total == DeclaredSize(m.artifacts[..i])
      {
        assert m.artifacts[..i + 1][..i] == m.artifacts[..i];
        total := total + m.artifacts[i].sizeBytes;
      }
      assert m.artifacts[..|m.artifacts|] == m.artifacts;
      if limits.maxImageBytes < total || !room { return false; }
      if task !in staging { return false; }
      var directory := staging[task];
      if exists p :: p in directory && !Declares(m, p) { return false; }
      var verified := VerifyArtifacts(h, m, directory);
      if !verified { return false; }
      if image in published { return false; }
      published := published[image := directory];
      staging := staging - {task};
      return true;
    }

    method DeletePublishedImage(image: nat) returns (deleted: bool)
      modifies this
      ensures Contents() == old(Contents()).(published := old(published) - {image})
      ensures deleted <==> image in old(published)
    {
      deleted := image in published;
      published := published - {image};
    }

    method RemoveTaskStaging(task: nat) returns (removed: bool)
      modifies this
      ensures Contents() == old(Contents()).(staging := old(staging) - {task})
      ensures removed <==> task in old(staging)
    {
      removed := task in staging;
      staging := staging - {task};
    }
  }
}
