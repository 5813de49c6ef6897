/** What becomes of a task when its agent reports a result (pyfog/api.py). */
module TaskResults {
  import opened Bytes
  import opened Storage
  import opened TaskModel
  import opened TaskSteps
  import opened TaskInvariants
  import opened TaskPreservation
  import opened TaskRequests

  /* ----- the three ends, told by the request and the state it finds ----- */

  /** The manifest names the image, host and inventory report the task was made for, and can be deployed. */
  predicate ManifestFits(task: Task, m: ImageManifest) {
    && m.imageId == task.image && m.hostId == task.host && m.reportId == task.report
    && m.supported && WellFormedManifest(m)
  }

  /** A capture can be published: its manifest fits, the attempt can still verify, and the store takes the files. */
  predicate Publishable(cfg: Config, s: State, t: nat, a: nat, m: ImageManifest, room: bool)
    requires Linked(s) && Owns(s, t, a)
  {
    ManifestFits(s.tasks[t], m) && MayVerify(s.attempts[a]) && CanPublish(cfg.hash, cfg.limits, s.store, t, s.tasks[t].image, m, room)
  }

  /** A success is believed: in flight, not cancelled, a fresh sequence, and what the operation needs. */
  predicate Succeeds(cfg: Config, s: State, t: nat, a: nat, p: Result)
    requires Linked(s) && Owns(s, t, a)
  {
    && InFlight(s.tasks[t].status) && s.tasks[t].cancelRequestedAt.None? && !p.cancelled && p.success
    && s.attempts[a].lastSequence < p.sequence
    && match s.tasks[t].operation
       case Capture => p.manifest.Some? && Publishable(cfg, s, t, a, p.manifest.value, p.room)
       case _ => p.manifest.None? && MayVerify(s.attempts[a])
  }

  /** A failure: reported, or a capture whose reported success does not hold. */
  predicate Fails(cfg: Config, s: State, t: nat, a: nat, p: Result)
    requires Linked(s) && Owns(s, t, a)
  {
    && InFlight(s.tasks[t].status) && s.tasks[t].cancelRequestedAt.None? && !p.cancelled
    && (p.success ==>
          && s.tasks[t].operation == Capture && p.manifest.Some? && s.attempts[a].lastSequence < p.sequence
          && !Publishable(cfg, s, t, a, p.manifest.value, p.room))
  }

  /* ----- what an end leaves behind ----- */

  /** Host and slot are free, and the attempt is finished now. */
  predicate Ended(s': State, now: nat, t: nat, a: nat, phase: Phase)
    requires t < |s'.tasks| && a < |s'.attempts|
  {
    && s'.tasks[t].reservationKey == None && !s'.tasks[t].holdsSlot && s'.tasks[t].phase == phase
    && s'.attempts[a].finishedAt == Some(now) && s'.attempts[a].phase == phase
  }

  /** Nothing moves but the rows of one task, one attempt and one image. */
  predicate OnlyTask(s: State, t: nat, a: nat, s': State)
    requires Linked(s) && Owns(s, t, a)
  {
    && |s'.tasks| == |s.tasks| && |s'.attempts| == |s.attempts| && |s'.images| == |s.images| && s.events <= s'.events
    && SameTask(s.tasks[t], s'.tasks[t]) && s'.attempts[a].task == t
    && (forall u :: 0 <= u < |s.tasks| && u != t ==> s'.tasks[u] == s.tasks[u])
    && (forall b :: 0 <= b < |s.attempts| && b != a ==> s'.attempts[b] == s.attempts[b])
    && (forall i :: 0 <= i < |s.images| && i != s.tasks[t].image ==> s'.images[i] == s.images[i])
  }

  /** The last event of the log is the attempt's. */
  predicate LastEvent(s': State, t: nat, a: nat, kind: EventKind) {
    && s'.events != [] && Owns(s', t, a)
    && var e := s'.events[|s'.events| - 1];
       e.kind == kind && e.task == t && e.attempt == Some(a) && e.sequence == Some(s'.attempts[a].lastSequence)
  }

  predicate EndsFailed(s: State, now: nat, t: nat, a: nat, s': State)
    requires Linked(s) && Owns(s, t, a)
  {
    && OnlyTask(s, t, a, s') && s'.store == s.store
    && s'.tasks[t].status == Status.Failed && Ended(s', now, t, a, Phase.Failed) && s'.attempts[a].failureReason.Reported?
    && s'.images[s.tasks[t].image] == (var image := s.images[s.tasks[t].image];
                                       if image.status == ImageStatus.Capturing then image.(status := ImageStatus.Failed) else image)
    && (s.attempts[a].lastSequence < s'.attempts[a].lastSequence ==> LastEvent(s', t, a, ErrorEvent))
  }

  predicate EndsSucceeded(s: State, now: nat, t: nat, a: nat, s': State)
    requires Linked(s) && Owns(s, t, a)
  {
    && OnlyTask(s, t, a, s')
    && s'.tasks[t].status == Succeeded && Ended(s', now, t, a, Completed) && LastEvent(s', t, a, CompletedEvent)
  }

  predicate EndsCancelled(s: State, now: nat, t: nat, a: nat, reason: string, s': State)
    requires Linked(s) && Owns(s, t, a)
  {
    && OnlyTask(s, t, a, s')
    && s'.tasks[t].status == Cancelled && Ended(s', now, t, a, Phase.Failed) && s'.tasks[t].cancelAcknowledgedAt == Some(now)
    && s'.attempts[a].failureReason == Reported(reason) && LastEvent(s', t, a, CancelledEvent)
    && s'.store == (if s.tasks[t].operation == Capture then s.store.(staging := s.store.staging - {t}) else s.store)
    && (s.tasks[t].operation == Capture ==> s'.images[s.tasks[t].image].status != ImageStatus.Capturing)
    && (s.tasks[t].operation != Capture ==> s'.images == s.images)
  }

  /** Still open, with nothing published. */
  predicate StaysOpen(s: State, t: nat, a: nat, s': State)
    requires Linked(s) && Owns(s, t, a)
  {
    OnlyTask(s, t, a, s') && s'.tasks[t].status == s.tasks[t].status
  }

  /* ----- the branches ----- */

  lemma FailEnds(s: State, now: nat, t: nat, a: nat, sequence: nat, reason: string)
    requires Linked(s) && Owns(s, t, a) && TaskOk(s.tasks[t]) && !Closed(s.tasks[t].status)
    ensures var (s', reply) := FailTask(s, now, t, a, sequence, reason);
            if InFlight(s.tasks[t].status)
            then && reply == Accepted && EndsFailed(s, now, t, a, s') && s'.attempts[a].failureReason == Reported(reason)
                 && s'.attempts[a].lastSequence == Max(s.attempts[a].lastSequence, sequence)
            else reply == ServerError && s' == s
  {
  }

  lemma AcknowledgeEnds(s: State, now: nat, t: nat, a: nat, reason: string)
    requires Linked(s) && Owns(s, t, a) && TaskOk(s.tasks[t]) && !Closed(s.tasks[t].status)
    ensures var (s', reply) := Acknowledge(s, now, t, a, reason);
            if s.tasks[t].cancelRequestedAt.Some? then reply == Accepted && EndsCancelled(s, now, t, a, reason, s')
            else reply == Conflict && s' == s
  {
  }

  /** The progress row before an end: the attempt verifies, and so does a task in flight. */
  predicate NowVerifying(s: State, t: nat, a: nat, sequence: nat, s1: State)
    requires Linked(s) && Owns(s, t, a)
  {
    && Linked(s1) && OnlyTask(s, t, a, s1) && s1.images == s.images && s1.store == s.store
    && TaskOk(s1.tasks[t]) && s1.tasks[t].cancelRequestedAt == None
    && s1.tasks[t].status == (if InFlight(s.tasks[t].status) then Status.Verifying else s.tasks[t].status)
    && s1.attempts[a].lastSequence == sequence
  }

  lemma VerifyingRow(cfg: Config, s: State, now: nat, t: nat, a: nat, sequence: nat)
    requires Inv(s) && Owns(s, t, a) && s.attempts[a].lastSequence < sequence && s.tasks[t].cancelRequestedAt.None?
    ensures Linked(s)
    ensures var x := s.attempts[a];
            var r := RecordProgress(cfg, s, now, t, a, sequence, Phase.Verifying, x.bytesProcessed, x.totalBytes, "");
            if MayVerify(x)
            then && r.Recorded? && Linked(Commit(s, t, a, r.rows)) && NowVerifying(s, t, a, sequence, Commit(s, t, a, r.rows))
                 && r.rows.image == s.images[s.tasks[t].image] && SameTask(s.tasks[t], r.rows.task) && r.rows.attempt.task == t
                 && TaskOk(r.rows.task) && !Closed(r.rows.task.status) == !Closed(s.tasks[t].status)
                 && (r.rows.task.status == Status.Verifying <==> InFlight(s.tasks[t].status))
            else r == ProgressOutcome.Rejected
  {
    hide FindEvent, NewestUnfinished, Numbered, EventsOk, OneSlot, OneTaskPerHost;
    VerifyingIsRecorded(cfg, s, now, t, a, sequence);
    assert TaskOk(s.tasks[t]);
    assert s.images[s.tasks[t].image := s.images[s.tasks[t].image]] == s.images;
  }

  lemma CompleteEnds(s: State, now: nat, t: nat, a: nat, image: Image)
    requires Linked(s) && Owns(s, t, a) && TaskOk(s.tasks[t]) && !Closed(s.tasks[t].status)
    ensures var r := CompleteRows(now, t, a, RowsOf(s, t, a).(image := image));
            if s.tasks[t].status == Status.Verifying
            then && r.Some? && EndsSucceeded(s, now, t, a, Commit(s, t, a, r.value))
                 && Commit(s, t, a, r.value).images == s.images[s.tasks[t].image := image] && Commit(s, t, a, r.value).store == s.store
            else r.None?
  {
  }

  /** A commit after a progress commit is one change. */
  lemma OnlyTaskTwice(s: State, t: nat, a: nat, s1: State, s': State)
    requires Linked(s) && Owns(s, t, a) && OnlyTask(s, t, a, s1)
    requires Linked(s1) && OnlyTask(s1, t, a, s')
    ensures OnlyTask(s, t, a, s')
  {
  }

  /** A restore or clone reports success. */
  lemma RestoreEnds(cfg: Config, s: State, now: nat, t: nat, a: nat, sequence: nat, manifest: bool)
    requires Inv(s) && Owns(s, t, a) && s.tasks[t].cancelRequestedAt.None? && !Closed(s.tasks[t].status)
    ensures Linked(s)
    ensures var (s', reply) := FinishRestore(cfg, s, now, t, a, sequence, manifest);
            if InFlight(s.tasks[t].status) && !manifest && s.attempts[a].lastSequence < sequence && MayVerify(s.attempts[a])
            then reply == Accepted && EndsSucceeded(s, now, t, a, s') && s'.images == s.images && s'.store == s.store
            else reply != Accepted && s' == s
  {
    hide Inv, RecordProgress, MayVerify, CompleteRows, NowVerifying, EndsSucceeded, Commit;
    InvIsLinked(s);
    if s.attempts[a].lastSequence < sequence {
      VerifyingRow(cfg, s, now, t, a, sequence);
      var x := s.attempts[a];
      var r := RecordProgress(cfg, s, now, t, a, sequence, Phase.Verifying, x.bytesProcessed, x.totalBytes, "");
      if r.Recorded? { CompleteRowsEnd(s, now, t, a, r.rows); }
    }
  }

  /** Verification and completion in one commit. */
  lemma CompleteRowsEnd(s: State, now: nat, t: nat, a: nat, r: Rows)
    requires Linked(s) && Owns(s, t, a) && r.image == s.images[s.tasks[t].image] && SameTask(s.tasks[t], r.task) && r.attempt.task == t
    requires TaskOk(r.task) && !Closed(r.task.status)
    ensures var r' := CompleteRows(now, t, a, r);
            if r.task.status == Status.Verifying
            then && r'.Some? && EndsSucceeded(s, now, t, a, Commit(s, t, a, r'.value))
                 && Commit(s, t, a, r'.value).images == s.images && Commit(s, t, a, r'.value).store == s.store
            else r'.None?
  {
    assert s.images[s.tasks[t].image := r.image] == s.images;
  }

  /** A capture reports success. */
  lemma CaptureEnds(cfg: Config, s: State, now: nat, t: nat, a: nat, sequence: nat, manifest: Option<ImageManifest>, room: bool)
    requires Inv(s) && Authorised(s, now, t, a) && s.tasks[t].cancelRequestedAt.None? && s.tasks[t].operation == Capture
    ensures Linked(s)
    ensures var (s', reply) := FinishCapture(cfg, s, now, t, a, sequence, manifest, room);
            if manifest.None? || sequence <= s.attempts[a].lastSequence then reply != Accepted && s' == s
            else if !InFlight(s.tasks[t].status) then reply != Accepted && StaysOpen(s, t, a, s')
            else if !Publishable(cfg, s, t, a, manifest.value, room) then reply == Accepted && EndsFailed(s, now, t, a, s')
            else
              && reply == Accepted && EndsSucceeded(s, now, t, a, s') && s'.store == Publish(s.store, t, s.tasks[t].image)
              && s'.images[s.tasks[t].image] == PublishedImage(cfg.hash, manifest.value, now, s.images[s.tasks[t].image])
  {
    hide Inv, RecordProgress, WellFormedManifest, CanPublish, Publish, Commit, CompleteRows, FailTask, MayVerify,
         EndsFailed, EndsSucceeded, NowVerifying;
    InvIsLinked(s);
    RowIsOk(s, t);
    FailEnds(s, now, t, a, sequence, "manifest");
    FailEnds(s, now, t, a, sequence + 1, "progress");
    if manifest.Some? && s.attempts[a].lastSequence < sequence && ManifestFits(s.tasks[t], manifest.value) && MayVerify(s.attempts[a]) {
      VerifyingRow(cfg, s, now, t, a, sequence);
      var x := s.attempts[a];
      var r := RecordProgress(cfg, s, now, t, a, sequence, Phase.Verifying, x.bytesProcessed, x.totalBytes, "");
      PublishEnds(cfg, s, now, t, a, sequence, Commit(s, t, a, r.rows), manifest.value, room);
    } else if manifest.Some? && s.attempts[a].lastSequence < sequence {
      VerifyingRow(cfg, s, now, t, a, sequence);
    }
  }

  lemma RowIsOk(s: State, t: nat)
    requires Inv(s) && t < |s.tasks|
    ensures TaskOk(s.tasks[t])
  {
  }

  lemma PublishEnds(cfg: Config, s: State, now: nat, t: nat, a: nat, sequence: nat, s1: State, m: ImageManifest, room: bool)
    requires Linked(s) && Owns(s, t, a) && Linked(s1) && NowVerifying(s, t, a, sequence, s1) && !Closed(s.tasks[t].status)
    requires s.attempts[a].lastSequence < sequence
    ensures var (s', reply) := PublishCapture(cfg, s1, now, t, a, sequence, m, room);
            if !InFlight(s.tasks[t].status) then reply != Accepted && StaysOpen(s, t, a, s')
            else if !CanPublish(cfg.hash, cfg.limits, s.store, t, s.tasks[t].image, m, room)
            then reply == Accepted && EndsFailed(s, now, t, a, s')
            else
              && reply == Accepted && EndsSucceeded(s, now, t, a, s') && s'.store == Publish(s.store, t, s.tasks[t].image)
              && s'.images[s.tasks[t].image] == PublishedImage(cfg.hash, m, now, s.images[s.tasks[t].image])
  {
    hide CanPublish, Publish, CompleteRows, FailTask, Commit, LastEvent;
    var s' := PublishCapture(cfg, s1, now, t, a, sequence, m, room).0;
    if CanPublish(cfg.hash, cfg.limits, s1.store, t, s1.tasks[t].image, m, room) {
      CanPublishIsStaged(cfg.hash, cfg.limits, s1.store, t, s1.tasks[t].image, m, room);
      var s2 := s1.(store := Publish(s1.store, t, s1.tasks[t].image));
      CompleteEnds(s2, now, t, a, PublishedImage(cfg.hash, m, now, s1.images[s1.tasks[t].image]));
    } else {
      FailEnds(s1, now, t, a, sequence + 1, "storage");
    }
    if OnlyTask(s1, t, a, s') { OnlyTaskTwice(s, t, a, s1, s'); }
  }

  /* ----- results ----- */

  /**
   * What becomes of a task whose authorised agent reports a result. It succeeds if and only if a success is believed,
   * fails if and only if a failure is reported or a capture's success does not hold, is cancelled if and only if that was
   * asked for, and stays open otherwise. The reply is an acceptance exactly when the task ended.
   */
  lemma {:induction false} ResultDecides(cfg: Config, s: State, now: nat, t: nat, a: nat, p: Result)
    requires Inv(s) && Linked(s) && Authorised(s, now, t, a)
    ensures var (s', reply) := Finish(cfg, s, now, t, a, p);
            && t < |s'.tasks|
            && (s'.tasks[t].status == Succeeded <==> Succeeds(cfg, s, t, a, p))
            && (s'.tasks[t].status == Status.Failed <==> Fails(cfg, s, t, a, p))
            && (s'.tasks[t].status == Cancelled <==> s.tasks[t].cancelRequestedAt.Some?)
            && (Terminal(s'.tasks[t].status) <==> reply == Accepted)
            && (reply != Accepted ==> s'.tasks[t].status == s.tasks[t].status)
  {
    hide Inv, Acknowledge, FailTask, FinishRestore, FinishCapture, Publishable, MayVerify;
    RowIsOk(s, t);
    if p.cancelled || s.tasks[t].cancelRequestedAt.Some? {
      AcknowledgeEnds(s, now, t, a, p.error);
    } else if !p.success {
      FailEnds(s, now, t, a, p.sequence, p.error);
    } else if s.tasks[t].operation != Capture {
      RestoreEnds(cfg, s, now, t, a, p.sequence, p.manifest.Some?);
    } else {
      CaptureEnds(cfg, s, now, t, a, p.sequence, p.manifest, p.room);
    }
  }

  /** And what each end leaves behind: rows, image, store and the last event, with everything else untouched. */
  lemma {:induction false} ResultEnds(cfg: Config, s: State, now: nat, t: nat, a: nat, p: Result)
    requires Inv(s) && Linked(s) && Authorised(s, now, t, a)
    ensures var (s', reply) := Finish(cfg, s, now, t, a, p);
            var i := s.tasks[t].image;
            && OnlyTask(s, t, a, s')
            && (s.tasks[t].cancelRequestedAt.Some? ==> EndsCancelled(s, now, t, a, p.error, s'))
            && (Fails(cfg, s, t, a, p) ==> EndsFailed(s, now, t, a, s'))
            && (Fails(cfg, s, t, a, p) && !p.success ==>
                  && s'.attempts[a].failureReason == Reported(p.error)
                  && s'.attempts[a].lastSequence == Max(s.attempts[a].lastSequence, p.sequence))
            && (Succeeds(cfg, s, t, a, p) ==> EndsSucceeded(s, now, t, a, s'))
            && (Succeeds(cfg, s, t, a, p) && s.tasks[t].operation != Capture ==> s'.images == s.images && s'.store == s.store)
            && (Succeeds(cfg, s, t, a, p) && s.tasks[t].operation == Capture ==>
                  && s'.store == Publish(s.store, t, i)
                  && s'.images[i].status == ImageStatus.Ready && s'.images[i].manifest == p.manifest
                  && s'.images[i].manifestSha256 == Some(cfg.hash(p.manifest.value.text)) && s'.images[i].verifiedAt == Some(now)
                  && s'.images[i].deletedAt == s.images[i].deletedAt)
  {
    hide Inv, Acknowledge, FailTask, FinishRestore, FinishCapture, Publishable, MayVerify, Publish;
    RowIsOk(s, t);
    if p.cancelled || s.tasks[t].cancelRequestedAt.Some? {
      AcknowledgeEnds(s, now, t, a, p.error);
    } else if !p.success {
      FailEnds(s, now, t, a, p.sequence, p.error);
    } else if s.tasks[t].operation != Capture {
      RestoreEnds(cfg, s, now, t, a, p.sequence, p.manifest.Some?);
    } else {
      CaptureEnds(cfg, s, now, t, a, p.sequence, p.manifest, p.room);
    }
  }
}
