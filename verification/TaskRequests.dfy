/** Agent requests: what each of them keeps, and exactly when one breaks the catalogue (pyfog/api.py). */
module TaskRequests {
  import opened Bytes
  import opened Storage
  import opened TaskModel
  import opened TaskSteps
  import opened TaskInvariants
  import opened TaskPreservation

  predicate Authorised(s: State, now: nat, t: nat, a: nat)
    requires Linked(s)
  {
    Owns(s, t, a) && Honoured(s.tasks[t], s.attempts[a], now)
  }

  /* ----- agent requests ----- */

  lemma FailServes(h: Hash, s: State, now: nat, t: nat, a: nat, sequence: nat, reason: string)
    requires Inv(s) && Owns(s, t, a) && s.tasks[t].cancelRequestedAt.None?
    ensures Serves(h, s, FailTask(s, now, t, a, sequence, reason).0, now, true)
  {
    hide Inv, Serves, FailRows, Commit;
    InvIsLinked(s);
    RowsAreOk(s, t, a);
    NothingServes(h, s, now);
    FailIsSound(now, t, a, RowsOf(s, t, a), sequence, reason);
    var r' := FailRows(now, t, a, RowsOf(s, t, a), sequence, reason);
    if r'.Some? { CommitServes(h, s, now, t, a, r'.value); }
  }

  lemma TouchServes(cfg: Config, s: State, now: nat, t: nat, a: nat, phase: Phase, bytes: nat, total: Option<nat>)
    requires Inv(s) && Authorised(s, now, t, a)
    ensures var r' := TouchRows(cfg, now, RowsOf(s, t, a), phase, bytes, total);
            r'.Some? ==> Serves(cfg.hash, s, Commit(s, t, a, r'.value), now, true)
  {
    hide Inv, Serves, TouchRows, Commit;
    InvIsLinked(s);
    RowsAreOk(s, t, a);
    TouchIsSound(cfg, now, t, a, RowsOf(s, t, a), phase, bytes, total);
    var r' := TouchRows(cfg, now, RowsOf(s, t, a), phase, bytes, total);
    if r'.Some? { CommitServes(cfg.hash, s, now, t, a, r'.value); }
  }

  lemma HeartbeatServes(cfg: Config, s: State, now: nat, t: nat, a: nat, phase: Option<Phase>, bytes: nat, total: Option<nat>)
    requires Inv(s) && Authorised(s, now, t, a)
    ensures Serves(cfg.hash, s, Heartbeat(cfg, s, now, t, a, phase, bytes, total).0, now, true)
  {
    hide Inv, Serves, TouchRows, Commit;
    InvIsLinked(s);
    var old' := s.attempts[a];
    TouchServes(cfg, s, now, t, a, if phase.Some? then phase.value else old'.phase,
                Max(old'.bytesProcessed, bytes), if total.Some? then total else old'.totalBytes);
    NothingServes(cfg.hash, s, now);
  }

  lemma RecordedServes(cfg: Config, s: State, now: nat, t: nat, a: nat, sequence: nat, phase: Phase, bytes: nat,
                       total: Option<nat>, message: string)
    requires Inv(s) && Authorised(s, now, t, a)
    ensures var r := RecordProgress(cfg, s, now, t, a, sequence, phase, bytes, total, message);
            r.Recorded? ==>
              && SoundChange(now, a, RowsOf(s, t, a), r.rows) && ImageFollows(RowsOf(s, t, a), r.rows)
              && Serves(cfg.hash, s, Commit(s, t, a, r.rows), now, true)
              && r.rows.attempt.phase == phase
              && r.rows.task.cancelRequestedAt == s.tasks[t].cancelRequestedAt
              && s.attempts[a].lastSequence < sequence == r.rows.attempt.lastSequence
  {
    hide Inv, Serves, ProgressRows, Commit;
    InvIsLinked(s);
    RowsAreOk(s, t, a);
    var r := RecordProgress(cfg, s, now, t, a, sequence, phase, bytes, total, message);
    if r.Recorded? {
      ProgressIsSound(cfg, now, t, a, RowsOf(s, t, a), sequence, phase, bytes, total, message);
      CommitServes(cfg.hash, s, now, t, a, r.rows);
    }
  }

  lemma ProgressServes(cfg: Config, s: State, now: nat, t: nat, a: nat,
                       sequence: nat, phase: Phase, bytes: nat, total: Option<nat>, message: string)
    requires Inv(s) && Authorised(s, now, t, a)
    ensures Serves(cfg.hash, s, Progress(cfg, s, now, t, a, sequence, phase, bytes, total, message).0, now, true)
  {
    hide Inv, Serves, RecordProgress, Commit;
    InvIsLinked(s);
    NothingServes(cfg.hash, s, now);
    RecordedServes(cfg, s, now, t, a, sequence, phase, bytes, total, message);
  }

  lemma CatalogueIgnoresStore(s: State, store: Store)
    requires Linked(s) && TasksMatchImages(s)
    ensures TasksMatchImages(s.(store := store))
  {
    var u := s.(store := store);
    forall i: nat | i < |u.images| && u.images[i].status != ImageStatus.Draft ensures exists t :: CaptureOf(u, t, i) {
      assert CaptureOf(u, CapturerOf(s, i), i);
    }
  }

  /** Staging is no part of the invariant or of the catalogue. */
  lemma StagingIsFree(h: Hash, s: State, store: Store, now: nat)
    requires Inv(s) && store.published == s.store.published
    ensures Inv(s.(store := store)) && Serves(h, s, s.(store := store), now, true)
  {
    hide Inv, LiveOwnsSlot, Advances, Evolves, Quiet, TasksMatchImages, StoreMatchesImages;
    StoreIsNoRow(s, store, now);
    InvIsLinked(s);
    InvIsLinked(s.(store := store));
    if Catalogue(h, s) {
      CatalogueIgnoresStore(s, store);
      SameImagesSameStore(h, s, s.(store := store));
    }
    KeepsIntro(h, s, s.(store := store), now);
  }

  lemma StoreIsNoRow(s: State, store: Store, now: nat)
    requires Inv(s)
    ensures var u := s.(store := store);
            Inv(u) && Linked(u) && Linked(s) && Advances(s, u) && Quiet(s, u) && (LiveOwnsSlot(s, now) <==> LiveOwnsSlot(u, now))
  {
    hide Inv, LiveOwnsSlot, Advances, Evolves, Quiet, Linked;
    InvIsLinked(s);
    SameRowsKeepInv(s, s.(store := store));
    SameRowsSameOwners(s, s.(store := store), now);
  }

  lemma TakenChunk(h: Hash, lim: Limits, s: Store, task: nat, path: Path, c: Chunk, room: bool)
    ensures ChunkStep(h, lim, s, task, path, c, room).1 != ChunkReply.Rejected ==> WellFormedChunk(h, lim, c)
    ensures ChunkStep(h, lim, s, task, path, c, room).0.published == s.published
  {
  }

  lemma UploadServes(cfg: Config, s: State, now: nat, t: nat, a: nat, path: Path, c: Chunk, room: bool)
    requires Inv(s) && Authorised(s, now, t, a)
    ensures Serves(cfg.hash, s, Upload(cfg, s, now, t, a, path, c, room).0, now, true)
  {
    hide Inv, Serves, TouchRows, ChunkStep, Commit;
    InvIsLinked(s);
    TakenChunk(cfg.hash, cfg.limits, s.store, t, path, c, room);
    var (store, reply) := ChunkStep(cfg.hash, cfg.limits, s.store, t, path, c, room);
    var s1 := s.(store := store);
    StagingIsFree(cfg.hash, s, store, now);
    if reply != ChunkReply.Rejected {
      var bytes := Max(s.attempts[a].bytesProcessed, c.offset + |c.payload|);
      TouchServes(cfg, s1, now, t, a, Phase.Uploading, bytes, s.attempts[a].totalBytes);
      var r' := TouchRows(cfg, now, RowsOf(s1, t, a), Phase.Uploading, bytes, s.attempts[a].totalBytes);
      if r'.Some? { ServesTransitive(cfg.hash, s, s1, Commit(s1, t, a, r'.value), now, true); }
    }
  }

  lemma ServesIsInv(h: Hash, s: State, s': State, now: nat, calm: bool)
    requires Serves(h, s, s', now, calm)
    ensures Inv(s')
  {
  }

  lemma AcknowledgeServes(h: Hash, s: State, now: nat, t: nat, a: nat, reason: string)
    requires Inv(s) && Authorised(s, now, t, a)
    ensures Serves(h, s, Acknowledge(s, now, t, a, reason).0, now, true)
  {
    hide Inv, Serves, AcknowledgeRows;
    InvIsLinked(s);
    RowsAreOk(s, t, a);
    NothingServes(h, s, now);
    AcknowledgeIsSound(now, t, a, RowsOf(s, t, a), reason);
    var r' := AcknowledgeRows(now, t, a, RowsOf(s, t, a), reason);
    if r'.Some? {
      var s1, s2 := Commit(s, t, a, r'.value), Acknowledge(s, now, t, a, reason).0;
      CommitServes(h, s, now, t, a, r'.value);
      ServesIsInv(h, s, s1, now, true);
      StagingIsFree(h, s1, s2.store, now);
      ServesTransitive(h, s, s1, s2, now, true);
    }
  }

  lemma FinishRestoreServes(cfg: Config, s: State, now: nat, t: nat, a: nat, sequence: nat, manifest: bool)
    requires Inv(s) && Authorised(s, now, t, a) && s.tasks[t].cancelRequestedAt.None? && s.tasks[t].operation != Capture
    ensures Serves(cfg.hash, s, FinishRestore(cfg, s, now, t, a, sequence, manifest).0, now, true)
  {
    hide Inv, Serves, RecordProgress, CompleteRows, Commit;
    InvIsLinked(s);
    RowsAreOk(s, t, a);
    NothingServes(cfg.hash, s, now);
    var x := s.attempts[a];
    if !manifest && x.lastSequence < sequence {
      NeverReplayed(cfg, s, now, t, a, sequence, Phase.Verifying, x.bytesProcessed, x.totalBytes, "");
      RecordedServes(cfg, s, now, t, a, sequence, Phase.Verifying, x.bytesProcessed, x.totalBytes, "");
      var p := RecordProgress(cfg, s, now, t, a, sequence, Phase.Verifying, x.bytesProcessed, x.totalBytes, "");
      if p.Recorded? {
        CompleteIsSound(now, t, a, RowsOf(s, t, a), p.rows);
        var r' := CompleteRows(now, t, a, p.rows);
        if r'.Some? { CommitServes(cfg.hash, s, now, t, a, r'.value); }
      }
    }
  }

  /** A sequence above the attempt's high-water mark is never taken for a repeat. */
  lemma NeverReplayed(cfg: Config, s: State, now: nat, t: nat, a: nat, sequence: nat, phase: Phase, bytes: nat,
                      total: Option<nat>, message: string)
    requires Inv(s) && Owns(s, t, a) && s.attempts[a].lastSequence < sequence
    ensures RecordProgress(cfg, s, now, t, a, sequence, phase, bytes, total, message) != Replayed
  {
    hide Inv, ProgressRows;
    FreshSequence(s, a, sequence);
    InvIsLinked(s);
  }

  /** What the commit that publishes a capture does to the rows it locks. */
  predicate Publishes(h: Hash, s: State, now: nat, t: nat, a: nat, m: ImageManifest, r': Rows)
    requires Linked(s) && Owns(s, t, a)
  {
    && s.tasks[t].operation == Capture && Pending(s.tasks[t]) && ManifestAccepted(s.tasks[t], m)
    && SameTask(s.tasks[t], r'.task) && r'.task.status == Succeeded && r'.attempt.task == t
    && r'.image == PublishedImage(h, m, now, s.images[s.tasks[t].image])
  }

  lemma PublicationKeepsTasks(h: Hash, s: State, now: nat, t: nat, a: nat, m: ImageManifest, r': Rows)
    requires Linked(s) && Owns(s, t, a) && TasksMatchImages(s) && Publishes(h, s, now, t, a, m, r')
    ensures TasksMatchImages(Commit(s, t, a, r'))
  {
    var s' := Commit(s, t, a, r');
    forall j: nat | j < |s'.images| && s'.images[j].status != ImageStatus.Draft ensures exists u :: CaptureOf(s', u, j) {
      var u := if j == s.tasks[t].image then t else CapturerOf(s, j);
      assert CaptureOf(s', u, j);
    }
  }

  lemma PublicationKeepsStore(h: Hash, lim: Limits, s: State, now: nat, t: nat, a: nat, m: ImageManifest, room: bool, r': Rows)
    requires Linked(s) && Owns(s, t, a) && StoreMatchesImages(h, s) && Publishes(h, s, now, t, a, m, r')
    requires s.images[s.tasks[t].image].deletedAt.None?
    requires CanPublish(h, lim, s.store, t, s.tasks[t].image, m, room)
    ensures StoreMatchesImages(h, Commit(s.(store := Publish(s.store, t, s.tasks[t].image)), t, a, r'))
  {
    hide Matches, WellFormedManifest;
    var i := s.tasks[t].image;
    var s' := Commit(s.(store := Publish(s.store, t, i)), t, a, r');
    forall j: nat | j < |s'.images| ensures ReadyOk(h, s', j) { assert ReadyOk(h, s, j); }
  }

  lemma PublicationKeepsCatalogue(h: Hash, lim: Limits, s: State, now: nat, t: nat, a: nat, m: ImageManifest, room: bool, r': Rows)
    requires Linked(s) && Owns(s, t, a) && Catalogue(h, s) && Publishes(h, s, now, t, a, m, r')
    requires CanPublish(h, lim, s.store, t, s.tasks[t].image, m, room)
    ensures Catalogue(h, Commit(s.(store := Publish(s.store, t, s.tasks[t].image)), t, a, r'))
  {
    hide StoreMatchesImages, CanPublish;
    CanPublishIsStaged(h, lim, s.store, t, s.tasks[t].image, m, room);
    PublicationKeepsStore(h, lim, s, now, t, a, m, room, r');
    CatalogueIgnoresStore(s, Publish(s.store, t, s.tasks[t].image));
    PublicationKeepsTasks(h, s.(store := Publish(s.store, t, s.tasks[t].image)), now, t, a, m, r');
  }

  /** The completing commit, whatever it writes to the image; it only fails on a task that is not verifying. */
  lemma CompletionKeepsInv(s: State, now: nat, t: nat, a: nat, image: Image)
    requires Inv(s) && Owns(s, t, a) && s.tasks[t].cancelRequestedAt.None? && s.attempts[a].phase == Phase.Verifying
    ensures var r' := CompleteRows(now, t, a, RowsOf(s, t, a).(image := image));
            && (r'.None? <==> s.tasks[t].status != Status.Verifying && s.tasks[t].status != Succeeded)
            && (r'.Some? ==>
                  && Inv(Commit(s, t, a, r'.value)) && Advances(s, Commit(s, t, a, r'.value))
                  && (LiveOwnsSlot(s, now) ==> LiveOwnsSlot(Commit(s, t, a, r'.value), now))
                  && Quiet(s, Commit(s, t, a, r'.value))
                  && SameTask(s.tasks[t], r'.value.task) && r'.value.task.status == Succeeded && r'.value.attempt.task == t
                  && r'.value.image == image)
  {
    hide Inv, Advances, LiveOwnsSlot, OneSlot;
    InvIsLinked(s);
    RowsAreOk(s, t, a);
    var r := RowsOf(s, t, a);
    CompleteIsSound(now, t, a, r, r.(image := image));
    var r' := CompleteRows(now, t, a, r.(image := image));
    if r'.Some? {
      CommitKeepsInv(s, now, t, a, r'.value);
      CommitAdvances(s, now, t, a, r'.value);
    }
  }

  lemma LiveIsInFlight(s: State, now: nat, t: nat, a: nat)
    requires Linked(s) && LiveOwnsSlot(s, now) && Authorised(s, now, t, a)
    ensures InFlight(s.tasks[t].status)
  {
  }

  /** Nothing was published, or it was for a task in flight. `Orphaning` says which requests are not calm. */
  predicate Calm(s: State, s': State, t: nat) {
    s'.store.published == s.store.published || (t < |s.tasks| && InFlight(s.tasks[t].status))
  }

  /** After the progress commit of a capture's result: published and succeeded, or failed. */
  lemma PublishServes(cfg: Config, s: State, now: nat, t: nat, a: nat, sequence: nat, m: ImageManifest, room: bool)
    requires Inv(s) && Authorised(s, now, t, a) && s.tasks[t].cancelRequestedAt.None? && s.tasks[t].operation == Capture
    requires s.attempts[a].phase == Phase.Verifying && ManifestAccepted(s.tasks[t], m)
    requires InFlight(s.tasks[t].status) ==> s.tasks[t].status == Status.Verifying
    ensures var s' := PublishCapture(cfg, s, now, t, a, sequence, m, room).0;
            Serves(cfg.hash, s, s', now, Calm(s, s', t)) && (Catalogue(cfg.hash, s) && !Calm(s, s', t) ==> !Catalogue(cfg.hash, s'))
  {
    hide Inv, Advances, LiveOwnsSlot, Catalogue, Quiet, CanPublish, Publish, CompleteRows, FailTask, ManifestAccepted;
    InvIsLinked(s);
    var s' := PublishCapture(cfg, s, now, t, a, sequence, m, room).0;
    if CanPublish(cfg.hash, cfg.limits, s.store, t, s.tasks[t].image, m, room) {
      CanPublishIsStaged(cfg.hash, cfg.limits, s.store, t, s.tasks[t].image, m, room);
      var s1 := s.(store := Publish(s.store, t, s.tasks[t].image));
      StoreIsNoRow(s, s1.store, now);
      var image := PublishedImage(cfg.hash, m, now, s.images[s.tasks[t].image]);
      CompletionKeepsInv(s1, now, t, a, image);
      var r' := CompleteRows(now, t, a, RowsOf(s1, t, a).(image := image));
      if r'.Some? {
        var s2 := Commit(s1, t, a, r'.value);
        if Catalogue(cfg.hash, s) {
          PublicationKeepsCatalogue(cfg.hash, cfg.limits, s, now, t, a, m, room, r'.value);
        }
        AdvancesTransitive(s, s1, s2);
      } else {
        if Catalogue(cfg.hash, s) { PublicationOrphaned(cfg.hash, s, t); }
        PublishIsNew(cfg.hash, cfg.limits, s.store, t, s.tasks[t].image, m, room);
      }
    } else {
      FailServes(cfg.hash, s, now, t, a, sequence + 1, "storage");
      FailPublishesNothing(s, now, t, a, sequence + 1, "storage");
      ServesAnyway(cfg.hash, s, s', now, Calm(s, s', t));
    }
  }

  /** Publishing for a capture still in the queue leaves a publication without a ready image. */
  lemma PublicationOrphaned(h: Hash, s: State, t: nat)
    requires Linked(s) && Catalogue(h, s) && t < |s.tasks| && t in s.store.staging && s.tasks[t].operation == Capture
    requires Inv(s) && s.tasks[t].cancelRequestedAt.None? && !Closed(s.tasks[t].status)
    ensures !Catalogue(h, s.(store := Publish(s.store, t, s.tasks[t].image)))
  {
    hide Matches, WellFormedManifest, Numbered, EventsOk, OneSlot, OneTaskPerHost, NewestUnfinished;
    var i := s.tasks[t].image;
    assert Pending(s.tasks[t]) && s.images[i].status == ImageStatus.Capturing;
    assert i in s.(store := Publish(s.store, t, i)).store.published;
  }

  lemma PublishIsNew(h: Hash, lim: Limits, s: Store, task: nat, image: nat, m: ImageManifest, room: bool)
    requires CanPublish(h, lim, s, task, image, m, room)
    ensures Publish(s, task, image).published != s.published
  {
    assert image in Publish(s, task, image).published;
  }

  lemma FailPublishesNothing(s: State, now: nat, t: nat, a: nat, sequence: nat, reason: string)
    requires Linked(s) && Owns(s, t, a)
    ensures FailTask(s, now, t, a, sequence, reason).0.store == s.store
  {
  }

  lemma CanPublishIsStaged(h: Hash, lim: Limits, s: Store, task: nat, image: nat, m: ImageManifest, room: bool)
    requires CanPublish(h, lim, s, task, image, m, room)
    ensures task in s.staging
  {
  }

  lemma AdvancesTransitive(s: State, s1: State, s2: State)
    requires Linked(s) && Linked(s1) && Advances(s, s1) && Quiet(s, s1) && Advances(s1, s2) && Quiet(s1, s2)
    ensures Advances(s, s2) && Quiet(s, s2)
  {
    AdvancesCompose(s, s1, s2);
    QuietCompose(s, s1, s2);
    hide Evolves, Quiet;
  }

  lemma FinishCaptureServes(cfg: Config, s: State, now: nat, t: nat, a: nat, sequence: nat, manifest: Option<ImageManifest>, room: bool)
    requires Inv(s) && Authorised(s, now, t, a) && s.tasks[t].cancelRequestedAt.None? && s.tasks[t].operation == Capture
    ensures var s' := FinishCapture(cfg, s, now, t, a, sequence, manifest, room).0;
            Serves(cfg.hash, s, s', now, Calm(s, s', t)) && (Catalogue(cfg.hash, s) && !Calm(s, s', t) ==> !Catalogue(cfg.hash, s'))
  {
    hide Inv, Serves, PublishCapture, ManifestAccepted, FailTask, RecordProgress, Commit, Catalogue;
    InvIsLinked(s);
    var x := s.attempts[a];
    var s' := FinishCapture(cfg, s, now, t, a, sequence, manifest, room).0;
    NothingServes(cfg.hash, s, now);
    FailServes(cfg.hash, s, now, t, a, sequence, "manifest");
    FailServes(cfg.hash, s, now, t, a, sequence + 1, "progress");
    FailPublishesNothing(s, now, t, a, sequence, "manifest");
    FailPublishesNothing(s, now, t, a, sequence + 1, "progress");
    var p := RecordProgress(cfg, s, now, t, a, sequence, Phase.Verifying, x.bytesProcessed, x.totalBytes, "");
    if manifest.Some? && x.lastSequence < sequence && ManifestAccepted(s.tasks[t], manifest.value) && p.Recorded? {
      RecordedServes(cfg, s, now, t, a, sequence, Phase.Verifying, x.bytesProcessed, x.totalBytes, "");
      RecordedIsReady(cfg, s, now, t, a, sequence, p.rows, manifest.value);
      var s1 := Commit(s, t, a, p.rows);
      InvIsLinked(s1);
      PublishServes(cfg, s1, now, t, a, sequence, manifest.value, room);
      ServesAnyway(cfg.hash, s, s1, now, Calm(s, s', t));
      ServesCatalogue(cfg.hash, s, s1, now);
      ServesTransitive(cfg.hash, s, s1, s', now, Calm(s, s', t));
    } else {
      ServesAnyway(cfg.hash, s, s', now, Calm(s, s', t));
    }
  }

  lemma ServesCatalogue(h: Hash, s: State, s': State, now: nat)
    requires Serves(h, s, s', now, true) && Linked(s)
    ensures Linked(s') && (Catalogue(h, s) ==> Catalogue(h, s'))
  {
  }

  /** The progress commit leaves the attempt verifying, still authorised, and the task verifying if in flight. */
  lemma RecordedIsReady(cfg: Config, s: State, now: nat, t: nat, a: nat, sequence: nat, rows: Rows, m: ImageManifest)
    requires Inv(s) && Authorised(s, now, t, a) && s.tasks[t].cancelRequestedAt.None?
    requires RecordProgress(cfg, s, now, t, a, sequence, Phase.Verifying, s.attempts[a].bytesProcessed, s.attempts[a].totalBytes, "")
          == Recorded(rows)
    requires ManifestAccepted(s.tasks[t], m) && s.tasks[t].operation == Capture
    ensures var s1 := Commit(s, t, a, rows);
            && Inv(s1) && Authorised(s1, now, t, a) && s1.tasks[t].cancelRequestedAt.None?
            && s1.tasks[t].operation == Capture
            && s1.attempts[a].phase == Phase.Verifying && ManifestAccepted(s1.tasks[t], m)
            && (InFlight(s1.tasks[t].status) ==> s1.tasks[t].status == Status.Verifying)
            && (InFlight(s1.tasks[t].status) <==> InFlight(s.tasks[t].status)) && s1.store == s.store
  {
    hide Inv, WellFormedManifest;
    InvIsLinked(s);
    RecordedServes(cfg, s, now, t, a, sequence, Phase.Verifying, s.attempts[a].bytesProcessed, s.attempts[a].totalBytes, "");
    ServesIsInv(cfg.hash, s, Commit(s, t, a, rows), now, true);
  }

  /* ----- when a result publishes ----- */

  /** The verifying report a result implies is one the attempt may still make. */
  predicate MayVerify(x: Attempt) {
    PhaseRank(x.phase) <= PhaseRank(Phase.Verifying) && (x.totalBytes.Some? ==> x.bytesProcessed <= x.totalBytes.value)
  }

  /** The guard of publication, over the request and the state it finds. */
  predicate Publishing(cfg: Config, s: State, t: nat, a: nat, p: Result)
    requires Linked(s) && Owns(s, t, a)
  {
    && !p.cancelled && s.tasks[t].cancelRequestedAt.None? && p.success && s.tasks[t].operation == Capture
    && p.manifest.Some? && s.attempts[a].lastSequence < p.sequence
    && ManifestAccepted(s.tasks[t], p.manifest.value)
    && MayVerify(s.attempts[a])
    && CanPublish(cfg.hash, cfg.limits, s.store, t, s.tasks[t].image, p.manifest.value, p.room)
  }

  lemma VerifyingIsRecorded(cfg: Config, s: State, now: nat, t: nat, a: nat, sequence: nat)
    requires Inv(s) && Owns(s, t, a) && s.attempts[a].lastSequence < sequence
    ensures Linked(s)
    ensures var x := s.attempts[a];
            var r := RecordProgress(cfg, s, now, t, a, sequence, Phase.Verifying, x.bytesProcessed, x.totalBytes, "");
            && r == (if MayVerify(x) then Recorded(r.rows) else ProgressOutcome.Rejected)
            && (r.Recorded? ==> Commit(s, t, a, r.rows).store == s.store && Linked(Commit(s, t, a, r.rows))
                                && Owns(Commit(s, t, a, r.rows), t, a)
                                && SameTask(s.tasks[t], Commit(s, t, a, r.rows).tasks[t]))
  {
    hide Inv, FindEvent;
    InvIsLinked(s);
    FreshSequence(s, a, sequence);
  }

  lemma PublishCapturePublishes(cfg: Config, s: State, now: nat, t: nat, a: nat, sequence: nat, m: ImageManifest, room: bool)
    requires Linked(s) && Owns(s, t, a)
    ensures PublishCapture(cfg, s, now, t, a, sequence, m, room).0.store.published != s.store.published
            <==> CanPublish(cfg.hash, cfg.limits, s.store, t, s.tasks[t].image, m, room)
  {
    hide CanPublish, FailTask, CompleteRows;
    FailPublishesNothing(s, now, t, a, sequence + 1, "storage");
    if CanPublish(cfg.hash, cfg.limits, s.store, t, s.tasks[t].image, m, room) {
      CanPublishIsStaged(cfg.hash, cfg.limits, s.store, t, s.tasks[t].image, m, room);
      PublishIsNew(cfg.hash, cfg.limits, s.store, t, s.tasks[t].image, m, room);
    }
  }

  /** A result publishes something if and only if the guard holds. */
  lemma FinishPublishes(cfg: Config, s: State, now: nat, t: nat, a: nat, p: Result)
    requires Inv(s) && Owns(s, t, a)
    ensures Linked(s)
    ensures Finish(cfg, s, now, t, a, p).0.store.published != s.store.published <==> Publishing(cfg, s, t, a, p)
  {
    hide Inv, Acknowledge, FailTask, FinishRestore, RecordProgress, PublishCapture, ManifestAccepted, CanPublish, MayVerify, Commit, Linked;
    InvIsLinked(s);
    AcknowledgePublishesNothing(s, now, t, a, p.error);
    FailPublishesNothing(s, now, t, a, p.sequence, p.error);
    FailPublishesNothing(s, now, t, a, p.sequence, "manifest");
    FailPublishesNothing(s, now, t, a, p.sequence + 1, "progress");
    RestorePublishesNothing(cfg, s, now, t, a, p.sequence, p.manifest.Some?);
    if s.attempts[a].lastSequence < p.sequence && p.manifest.Some? {
      VerifyingIsRecorded(cfg, s, now, t, a, p.sequence);
      var x := s.attempts[a];
      var r := RecordProgress(cfg, s, now, t, a, p.sequence, Phase.Verifying, x.bytesProcessed, x.totalBytes, "");
      if r.Recorded? {
        PublishCapturePublishes(cfg, Commit(s, t, a, r.rows), now, t, a, p.sequence, p.manifest.value, p.room);
      }
    }
  }

  /**
   * A result keeps the invariant and only moves forward; it breaks the catalogue if and only if the guard of
   * publication holds for a task that is not in flight.
   */
  lemma FinishServes(cfg: Config, s: State, now: nat, t: nat, a: nat, p: Result)
    requires Inv(s) && Authorised(s, now, t, a)
    ensures var s', orphans := Finish(cfg, s, now, t, a, p).0, Publishing(cfg, s, t, a, p) && !InFlight(s.tasks[t].status);
            Serves(cfg.hash, s, s', now, !orphans) && (Catalogue(cfg.hash, s) && orphans ==> !Catalogue(cfg.hash, s'))
  {
    hide Inv, Serves, Acknowledge, FailTask, FinishRestore, FinishCapture, Catalogue, Publishing;
    InvIsLinked(s);
    var s' := Finish(cfg, s, now, t, a, p).0;
    FinishPublishes(cfg, s, now, t, a, p);
    if p.cancelled || s.tasks[t].cancelRequestedAt.Some? {
      AcknowledgeServes(cfg.hash, s, now, t, a, p.error);
      AcknowledgePublishesNothing(s, now, t, a, p.error);
    } else if !p.success {
      FailServes(cfg.hash, s, now, t, a, p.sequence, p.error);
      FailPublishesNothing(s, now, t, a, p.sequence, p.error);
    } else if s.tasks[t].operation != Capture {
      FinishRestoreServes(cfg, s, now, t, a, p.sequence, p.manifest.Some?);
      RestorePublishesNothing(cfg, s, now, t, a, p.sequence, p.manifest.Some?);
    } else {
      FinishCaptureServes(cfg, s, now, t, a, p.sequence, p.manifest, p.room);
    }
  }

  lemma AcknowledgePublishesNothing(s: State, now: nat, t: nat, a: nat, reason: string)
    requires Linked(s) && Owns(s, t, a)
    ensures Acknowledge(s, now, t, a, reason).0.store.published == s.store.published
  {
  }

  lemma RestorePublishesNothing(cfg: Config, s: State, now: nat, t: nat, a: nat, sequence: nat, manifest: bool)
    requires Linked(s) && Owns(s, t, a)
    ensures FinishRestore(cfg, s, now, t, a, sequence, manifest).0.store == s.store
  {
    hide RecordProgress, CompleteRows;
  }

  lemma OthersPublishNothing(cfg: Config, s: State, now: nat, op: Op)
    requires Linked(s) && IsAgentOp(op) && Owns(s, op.task, op.token) && !op.OpFinish?
    ensures Serve(cfg, s, now, op).0.store.published == s.store.published
  {
    hide RecordProgress, TouchRows, ChunkStep;
    if op.OpUpload? { TakenChunk(cfg.hash, cfg.limits, s.store, op.task, op.path, op.chunk, op.room); }
  }

  /** The requests that publish: a result with an accepted capability that meets the guard. */
  predicate OpPublishes(cfg: Config, s: State, now: nat, op: Op)
    requires Linked(s)
  {
    && op.OpFinish?
    && Authorise(s, now, op.task, op.token, op.credential) == Granted
    && Publishing(cfg, s, op.task, op.token, op.result)
  }

  /** The requests that publish for a task back in the queue. */
  predicate Orphaning(cfg: Config, s: State, now: nat, op: Op)
    requires Linked(s)
  {
    OpPublishes(cfg, s, now, op) && !InFlight(s.tasks[op.task].status)
  }

  /** A request with an accepted capability. */
  lemma RequestServes(cfg: Config, s: State, now: nat, op: Op)
    requires Inv(s) && IsAgentOp(op) && Authorised(s, now, op.task, op.token)
    ensures var s', guard := Serve(cfg, s, now, op).0, op.OpFinish? && Publishing(cfg, s, op.task, op.token, op.result);
            && Serves(cfg.hash, s, s', now, !(guard && !InFlight(s.tasks[op.task].status)))
            && (Catalogue(cfg.hash, s) && guard && !InFlight(s.tasks[op.task].status) ==> !Catalogue(cfg.hash, s'))
            && (s'.store.published != s.store.published <==> guard)
  {
    hide Inv, Serves, Heartbeat, Progress, Upload, Finish, Catalogue, Publishing;
    InvIsLinked(s);
    if !op.OpFinish? { OthersPublishNothing(cfg, s, now, op); }
    match op
    case OpHeartbeat(t, a, _, phase, bytes, total) => HeartbeatServes(cfg, s, now, t, a, phase, bytes, total);
    case OpProgress(t, a, _, sequence, phase, bytes, total, message) =>
      ProgressServes(cfg, s, now, t, a, sequence, phase, bytes, total, message);
    case OpUpload(t, a, _, path, chunk, room) => UploadServes(cfg, s, now, t, a, path, chunk, room);
    case OpFinish(t, a, _, result) =>
      FinishServes(cfg, s, now, t, a, result);
      FinishPublishes(cfg, s, now, t, a, result);
  }

  lemma ExpirePublishesNothing(cfg: Config, s: State, now: nat)
    requires Inv(s)
    ensures Expire(cfg, s, now).store == s.store
  {
    ExpireKeeps(cfg.hash, cfg, s, now);
    hide Keeps, Stale;
  }

  lemma GrantedIsAuthorised(s: State, now: nat, t: nat, a: nat, credential: bool)
    requires Linked(s) && Authorise(s, now, t, a, credential) == Granted
    ensures Authorised(s, now, t, a)
  {
  }

  /**
   * Any agent request, whatever it presents; one whose lease has elapsed runs the expiry instead. Publications change
   * exactly under the guard, and the catalogue breaks exactly when that is for a task back in the queue.
   */
  lemma AgentKeeps(cfg: Config, s: State, now: nat, op: Op)
    requires Inv(s) && IsAgentOp(op)
    ensures Linked(s)
    ensures var s' := Step(cfg, s, now, op).0;
            && Keeps(cfg.hash, s, s', now, !Orphaning(cfg, s, now, op))
            && (Catalogue(cfg.hash, s) && Orphaning(cfg, s, now, op) ==> !Catalogue(cfg.hash, s'))
            && (s'.store.published != s.store.published <==> OpPublishes(cfg, s, now, op))
            && (s' == Expire(cfg, s, now) || Quiet(s, s'))
  {
    hide Inv, Keeps, Quiet, Expire, Serve, Catalogue, Publishing;
    InvIsLinked(s);
    NothingServes(cfg.hash, s, now);
    ExpireKeeps(cfg.hash, cfg, s, now);
    ExpirePublishesNothing(cfg, s, now);
    match Authorise(s, now, op.task, op.token, op.credential)
    case Denied(_) =>
    case Lapsed =>
    case Granted =>
      GrantedIsAuthorised(s, now, op.task, op.token, op.credential);
      RequestServes(cfg, s, now, op);
  }
}
