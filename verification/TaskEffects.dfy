/**
 * What the remaining requests do, told by request and state: who is let in, what expiry and reconciliation leave behind,
 * who gets which task, and what a new task is (pyfog/tasking.py, pyfog/web.py).
 */
module TaskEffects {
  import opened Bytes
  import opened Storage
  import opened TaskModel
  import opened TaskSteps
  import opened TaskInvariants
  import opened TaskPreservation
  import opened TaskRequests
  import opened TaskOperations

  /* ----- who is let in ----- */

  /**
   * An agent request is served if and only if its task exists, the token is of an attempt of that task, the credential
   * it was issued under is usable, the task is open and the lease runs. An elapsed lease sets off the expiry instead;
   * anything else changes nothing.
   */
  lemma {:induction false} CapabilityDecides(cfg: Config, s: State, now: nat, op: Op)
    requires Linked(s) && IsAgentOp(op)
    ensures var known := op.task < |s.tasks| && op.token < |s.attempts| && s.attempts[op.token].task == op.task && op.credential;
            var (s', reply) := Step(cfg, s, now, op);
            && (!known ==> s' == s && reply == (if op.task < |s.tasks| then Unauthorized else NotFound))
            && (known ==>
                  if Closed(s.tasks[op.task].status) then s' == s && reply == Conflict
                  else if now >= s.attempts[op.token].leaseExpiresAt then s' == Expire(cfg, s, now) && reply == Gone
                  else (s', reply) == Serve(cfg, s, now, op))
  {
    hide Expire, Serve;
  }

  /* ----- what expiry leaves behind ----- */

  /** An attempt whose lease has run out: finished, failed, and one event further. */
  predicate Expired(now: nat, x: Attempt, x': Attempt) {
    && x'.finishedAt == Some(now) && x'.failureReason == LeaseExpired && x'.phase == Phase.Failed
    && x'.lastSequence == x.lastSequence + 1 && x'.leaseExpiresAt == x.leaseExpiresAt
    && x'.bytesProcessed == x.bytesProcessed && x'.totalBytes == x.totalBytes
    && x'.task == x.task && x'.number == x.number && x'.session == x.session
  }

  /** A task handed to the operator: the host stays reserved, the slot does not. */
  predicate HandedOver(task: Task, task': Task) {
    && InFlight(task.status) && task'.status == InterventionRequired && task'.phase == Phase.Failed && !task'.holdsSlot
    && task'.reservationKey == task.reservationKey && SameTask(task, task')
    && task'.cancelRequestedAt == task.cancelRequestedAt && task'.bytesProcessed == task.bytesProcessed
  }

  predicate Logged(events: seq<Event>, from: nat, a: nat, sequence: nat) {
    exists k :: from <= k < |events| && events[k].attempt == Some(a) && events[k].sequence == Some(sequence)
  }

  ghost predicate ExpiredSoFar(cfg: Config, s: State, now: nat, n: nat, s': State)
    requires Linked(s)
  {
    && |s'.tasks| == |s.tasks| && |s'.attempts| == |s.attempts| && s.events <= s'.events
    && (forall a :: 0 <= a < |s.attempts| ==>
          if a < n && Stale(cfg, s, now, a) then Expired(now, s.attempts[a], s'.attempts[a]) else s'.attempts[a] == s.attempts[a])
    && (forall t :: 0 <= t < |s.tasks| ==> s'.tasks[t] == s.tasks[t] || HandedOver(s.tasks[t], s'.tasks[t]))
    && (forall k :: |s.events| <= k < |s'.events| ==> s'.events[k].kind == LeaseExpiredEvent)
    && (forall a :: 0 <= a < |s.attempts| && a < n && Stale(cfg, s, now, a) ==>
          Logged(s'.events, |s.events|, a, s.attempts[a].lastSequence + 1))
  }

  lemma ExpireOneEnds(cfg: Config, s: State, before: State, now: nat, a: nat)
    requires Linked(s) && Linked(before) && a < |s.attempts| && Stale(cfg, s, now, a)
    requires ExpiredSoFar(cfg, s, now, a, before) && Expiring(cfg, s, before, now, a)
    ensures var t := s.attempts[a].task;
            ExpiredSoFar(cfg, s, now, a + 1, Commit(before, t, a, ExpireRows(now, t, a, RowsOf(before, t, a))))
  {
    hide IsNewest, Logged;
    var t := s.attempts[a].task;
    var rows := ExpireRows(now, t, a, RowsOf(before, t, a));
    var event := AttemptEvent(t, a, before.attempts[a], before.attempts[a].lastSequence + 1, LeaseExpiredEvent, Phase.Failed);
    assert rows.events == [event];
    LogGrows(before.events, event, |s.events|, a, s.attempts[a].lastSequence + 1);
  }

  lemma LogGrows(events: seq<Event>, e: Event, from: nat, a: nat, sequence: nat)
    requires from <= |events| && e.attempt == Some(a) && e.sequence == Some(sequence)
    ensures Logged(events + [e], from, a, sequence)
    ensures forall b: nat, n: nat :: Logged(events, from, b, n) ==> Logged(events + [e], from, b, n)
  {
    assert (events + [e])[|events|] == e;
    forall b: nat, n: nat | Logged(events, from, b, n) ensures Logged(events + [e], from, b, n) {
      var k :| from <= k < |events| && events[k].attempt == Some(b) && events[k].sequence == Some(n);
      assert (events + [e])[k] == events[k];
    }
  }

  lemma {:induction false} ExpireFirstEnds(cfg: Config, s: State, now: nat, n: nat)
    requires Inv(s) && n <= |s.attempts|
    ensures Linked(s) && ExpiredSoFar(cfg, s, now, n, ExpireFirst(cfg, s, now, n))
  {
    hide Inv, ExpireFirst, Stale, Keeps, ExpireRows, Commit;
    InvIsLinked(s);
    if n == 0 {
      ExpireFirstZero(cfg, s, now);
    } else {
      var before := ExpireFirst(cfg, s, now, n - 1);
      ExpireFirstEnds(cfg, s, now, n - 1);
      ExpireFirstUnfolds(cfg, s, now, n);
      ExpireFirstKeeps(cfg.hash, cfg, s, now, n - 1);
      if Stale(cfg, s, now, n - 1) { ExpireOneEnds(cfg, s, before, now, n - 1); }
    }
  }

  /**
   * Expiry, attempt by attempt: one of a task in flight whose lease has run out is finished as expired, any other is as
   * it was; a task is handed to the operator or as it was; and only expiries are logged.
   */
  lemma {:induction false} ExpiryEnds(cfg: Config, s: State, now: nat, a: nat)
    requires Inv(s) && a < |s.attempts|
    ensures Linked(s)
    ensures var s' := Expire(cfg, s, now);
            var t := s.attempts[a].task;
            && (if InFlight(s.tasks[t].status) && s.attempts[a].leaseExpiresAt <= now && (cfg.newestOnly ==> IsNewest(s.attempts, a))
                then && Expired(now, s.attempts[a], s'.attempts[a]) && HandedOver(s.tasks[t], s'.tasks[t])
                     && Logged(s'.events, |s.events|, a, s.attempts[a].lastSequence + 1)
                else s'.attempts[a] == s.attempts[a])
            && forall k :: |s.events| <= k < |s'.events| ==> s'.events[k].kind == LeaseExpiredEvent
  {
    hide Inv, Keeps, IsNewest, ExpireFirst;
    InvIsLinked(s);
    ExpireFirstEnds(cfg, s, now, |s.attempts|);
    ExpireKeeps(cfg.hash, cfg, s, now);
  }

  /* ----- who gets which task ----- */

  /**
   * A claim is answered with a task if and only if its session is new, nobody holds the slot, and its host has an
   * approved task it is capable of; otherwise nothing changes.
   */
  lemma ClaimDecides(cfg: Config, s: State, now: nat, host: nat, session: nat, capable: bool)
    ensures var (s', reply) := Claim(cfg, s, now, host, session, capable);
            && (reply == Accepted <==>
                  && (forall a :: 0 <= a < |s.attempts| ==> s.attempts[a].session != session)
                  && (forall t :: 0 <= t < |s.tasks| ==> !s.tasks[t].holdsSlot)
                  && (exists t :: 0 <= t < |s.tasks| && s.tasks[t].host == host && s.tasks[t].status == Approved)
                  && capable)
            && (reply != Accepted ==> s' == s)
  {
    var r := OldestApproved(s, host, |s.tasks|);
    if r.Some? { assert Claimable(s, host, r.value); }
    assert forall t: nat :: t < |s.tasks| && s.tasks[t].host == host && s.tasks[t].status == Approved ==> Claimable(s, host, t);
  }

  /**
   * The task assigned is the oldest approved one of the host. Its new attempt is the next one, under the session that
   * claimed it, and its capability is honoured exactly until `now + leaseSeconds`.
   */
  lemma {:induction false} ClaimAssigns(cfg: Config, s: State, now: nat, host: nat, session: nat, capable: bool) returns (t: nat)
    requires Inv(s) && Claim(cfg, s, now, host, session, capable).1 == Accepted
    ensures t < |s.tasks| && s.tasks[t].host == host && s.tasks[t].status == Approved
    ensures forall u: nat :: u < |s.tasks| && s.tasks[u].host == host && s.tasks[u].status == Approved ==>
                               s.tasks[t].createdAt <= s.tasks[u].createdAt
    ensures var s', a := Claim(cfg, s, now, host, session, capable).0, |s.attempts|;
            && Linked(s') && |s'.tasks| == |s.tasks| && |s'.attempts| == a + 1 && s'.attempts[..a] == s.attempts
            && s'.images == s.images && s'.store == s.store
            && (forall u :: 0 <= u < |s.tasks| && u != t ==> s'.tasks[u] == s.tasks[u])
            && SameTask(s.tasks[t], s'.tasks[t]) && s'.tasks[t].status == Status.Assigned && s'.tasks[t].holdsSlot
            && s'.tasks[t].phase == Phase.Assigned
            && s'.attempts[a].task == t && s'.attempts[a].session == session && s'.attempts[a].number == CountOf(s.attempts, t, a) + 1
            && s'.attempts[a].phase == Phase.Assigned && s'.attempts[a].bytesProcessed == 0
            && s'.attempts[a].totalBytes == s.tasks[t].totalBytes && s'.attempts[a].finishedAt.None?
            && (forall time: nat :: Authorised(s', time, t, a) <==> time < now + cfg.leaseSeconds)
            && s'.events == s.events + [Event(t, Some(a), Some(0), AssignedEvent, Phase.Assigned, 0, s.tasks[t].totalBytes, "")]
  {
    t := OldestApproved(s, host, |s.tasks|).value;
    AssignLinked(cfg, s, now, t, session);
    LastNumberIsCount(s.attempts, t, |s.attempts|);
    hide Inv, NewestUnfinished;
    assert forall u: nat :: u < |s.tasks| && s.tasks[u].host == host && s.tasks[u].status == Approved ==> Claimable(s, host, u);
  }

  /* ----- what a new task is ----- */

  /** A task fresh in the queue, as it was asked for, with its host reserved. */
  predicate Fresh(task: Task, op: Operation, user: nat, host: nat, image: nat, report: nat, key: nat, total: nat, now: nat) {
    && task.operation == op && task.status == Approved && task.phase == Queued
    && task.requestedBy == user && task.host == host && task.image == image && task.report == report && task.key == key
    && task.reservationKey == Some(host) && !task.holdsSlot && task.createdAt == now
    && task.bytesProcessed == 0 && task.totalBytes == Some(total)
    && task.cancelRequestedAt.None? && task.cancelAcknowledgedAt.None?
  }

  /** Nobody used the key or reserved the host. */
  predicate Free(s: State, key: nat, host: nat) {
    forall t :: 0 <= t < |s.tasks| ==> s.tasks[t].key != key && s.tasks[t].reservationKey != Some(host)
  }

  /** The same user used the key. */
  predicate AskedBefore(s: State, key: nat, user: nat) {
    exists t :: 0 <= t < |s.tasks| && s.tasks[t].key == key && s.tasks[t].requestedBy == user
  }

  /** The log tells of the creation and of the reservation. */
  predicate CreationLogged(s: State, s': State) {
    && |s'.events| == |s.events| + 2 && s.events <= s'.events
    && forall k :: |s.events| <= k < |s'.events| ==>
         && s'.events[k].task == |s.tasks| && s'.events[k].attempt.None?
         && s'.events[k].kind == (if k == |s.events| then CreatedEvent else ReservedEvent)
  }

  /**
   * A capture is created if and only if the form is valid, key and host are free, and the draft it names, if any, is one.
   * The image it works on is that draft, or a new row, and becomes the only one that changes.
   */
  lemma CaptureDecides(s: State, now: nat, user: nat, host: nat, draft: Option<nat>, report: nat, key: nat, total: nat, valid: bool)
    ensures var (s', reply) := CreateCapture(s, now, user, host, draft, report, key, total, valid);
            var i := if draft.Some? then draft.value else |s.images|;
            && (reply == Accepted <==>
                  && valid && Free(s, key, host)
                  && (draft.Some? ==> i < |s.images| && s.images[i].status == ImageStatus.Draft && s.images[i].deletedAt.None?))
            && (reply == Unchanged <==> AskedBefore(s, key, user))
            && (reply != Accepted ==> s' == s)
            && (reply == Accepted ==>
                  && |s'.tasks| == |s.tasks| + 1 && s'.tasks[..|s.tasks|] == s.tasks && s'.attempts == s.attempts && s'.store == s.store
                  && Fresh(s'.tasks[|s.tasks|], Capture, user, host, i, report, key, total, now)
                  && |s'.images| == (if draft.Some? then |s.images| else |s.images| + 1)
                  && s'.images[i].status == ImageStatus.Capturing && s'.images[i].deletedAt.None?
                  && (forall j :: 0 <= j < |s.images| && j != i ==> s'.images[j] == s.images[j])
                  && CreationLogged(s, s'))
  {
  }

  /** An image that can be deployed, with its files in the store. */
  predicate Deployable(s: State, i: nat) {
    && i < |s.images| && s.images[i].status == ImageStatus.Ready && s.images[i].deletedAt.None?
    && s.images[i].verifiedAt.Some? && s.images[i].manifest.Some?
    && s.images[i].manifest.value.imageId == i && s.images[i].manifest.value.supported
    && i in s.store.published
    && forall a :: a in s.images[i].manifest.value.artifacts ==> a.path in s.store.published[i]
  }

  /** A restore or clone is created if and only if the form is valid, key and host are free, and the image can be deployed. */
  lemma DeploymentDecides(s: State, now: nat, user: nat, host: nat, clone: bool, i: nat, report: nat, key: nat, valid: bool)
    ensures var (s', reply) := CreateDeployment(s, now, user, host, clone, i, report, key, valid);
            && (reply == Accepted <==> valid && Free(s, key, host) && Deployable(s, i))
            && (reply == Unchanged <==> AskedBefore(s, key, user))
            && (reply != Accepted ==> s' == s)
            && (reply == Accepted ==>
                  && |s'.tasks| == |s.tasks| + 1 && s'.tasks[..|s.tasks|] == s.tasks && s'.attempts == s.attempts
                  && s'.images == s.images && s'.store == s.store
                  && Fresh(s'.tasks[|s.tasks|], if clone then Clone else Restore, user, host, i, report, key,
                           DeclaredSize(s.images[i].manifest.value.artifacts), now)
                  && CreationLogged(s, s'))
  {
  }

  /* ----- what the operator's requests do ----- */

  /** Reopening needs a task that requires intervention; it goes back to the queue as if new, its staged bytes gone. */
  lemma ReconcileDecides(s: State, t: nat)
    requires Inv(s)
    ensures Linked(s)
    ensures var (s', reply) := Reconcile(s, t);
            && (reply == Accepted <==> t < |s.tasks| && s.tasks[t].status == InterventionRequired)
            && (reply != Accepted ==> s' == s)
            && (reply == Accepted ==>
                  var task, task' := s.tasks[t], s'.tasks[t];
                  && |s'.tasks| == |s.tasks| && |s'.images| == |s.images|
                  && SameTask(task, task') && task'.status == Approved && task'.phase == Queued && !task'.holdsSlot
                  && task'.reservationKey == Some(task.host) && task'.bytesProcessed == 0 && task'.totalBytes == task.totalBytes
                  && task'.cancelRequestedAt.None? && task'.cancelAcknowledgedAt.None?
                  && (forall u :: 0 <= u < |s.tasks| && u != t ==> s'.tasks[u] == s.tasks[u])
                  && s'.attempts == s.attempts && t !in s'.store.staging
                  && (forall u :: u != t ==> Dir(s'.store, u) == Dir(s.store, u)) && s'.store.published == s.store.published
                  && (task.operation == Capture ==> s'.images[task.image].status == ImageStatus.Capturing)
                  && (forall i :: 0 <= i < |s.images| && (i != task.image || task.operation != Capture) ==> s'.images[i] == s.images[i])
                  && |s'.events| == |s.events| + 1 && s'.events[|s.events|].kind == ReconciledEvent && s'.events[|s.events|].task == t)
  {
    hide NewestUnfinished, Numbered, EventsOk, OneSlot, OneTaskPerHost;
    if t < |s.tasks| { assert TaskOk(s.tasks[t]); }
  }

  /** An image is deleted if and only if it is there and no active task works on it. */
  lemma DeleteDecides(s: State, now: nat, i: nat)
    ensures var (s', reply) := DeleteImage(s, now, i);
            && (reply == Accepted <==>
                  && i < |s.images| && s.images[i].deletedAt.None?
                  && forall t :: 0 <= t < |s.tasks| && s.tasks[t].image == i ==> !Active(s.tasks[t].status))
            && (reply != Accepted ==> s' == s)
            && (reply == Accepted ==>
                  && s'.images[i].deletedAt == Some(now) && s'.images[i].verifiedAt.None? && s'.images[i].status == s.images[i].status
                  && i !in s'.store.published && (forall j :: j != i && j in s.store.published ==>
                                                     j in s'.store.published && s'.store.published[j] == s.store.published[j])
                  && s'.tasks == s.tasks && s'.attempts == s.attempts && s'.events == s.events && s'.store.staging == s.store.staging)
  {
  }

  /**
   * An authorised upload stages what the store takes, whether or not the heartbeat that follows is accepted, and no other
   * task's bytes; refused by the store, it moves no row.
   */
  lemma UploadStages(cfg: Config, s: State, now: nat, t: nat, a: nat, path: Path, c: Chunk, room: bool)
    requires Linked(s) && Owns(s, t, a)
    ensures var (s', reply) := Upload(cfg, s, now, t, a, path, c, room);
            var (store, taken) := ChunkStep(cfg.hash, cfg.limits, s.store, t, path, c, room);
            && s'.store == store && (taken == ChunkReply.Rejected ==> reply == Conflict && s' == s.(store := store))
            && (taken == Appended ==>
                  Dir(s'.store, t) == Dir(s.store, t)[path := (if path in Dir(s.store, t) then Dir(s.store, t)[path] else []) + c.payload])
            && s'.store.published == s.store.published && forall u :: u != t ==> Dir(s'.store, u) == Dir(s.store, u)
  {
    ChunkDecides(cfg.hash, cfg.limits, s.store, t, path, c, room);
    hide TouchRows, DirStep;
  }
}
