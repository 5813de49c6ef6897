/**
 * The coordinator in the source's own form: one object whose rows the handlers change in place. Every method is
 * proved to do exactly what its counterpart in TaskSteps says, so the theorems about steps and runs apply to it.
 */
module Coordinator {
  import opened Bytes
  import opened Messages
  import opened Storage
  import opened TaskModel
  import opened TaskSteps
  import opened TaskInvariants
  import opened TaskPreservation
  import opened TaskRequests
  import opened TaskRuns

  /** The attempts the expiry query selects among the first `n`, in row order. */
  function StaleAmong(cfg: Config, s: State, now: nat, n: nat): seq<nat>
    requires Linked(s) && n <= |s.attempts|
  {
    if n == 0 then []
    else StaleAmong(cfg, s, now, n - 1) + if Stale(cfg, s, now, n - 1) then [n - 1] else []
  }

  /** Expire a list of attempts one after the other. */
  function ExpireEach(s: State, now: nat, stale: seq<nat>): (s': State)
    requires Linked(s) && forall k :: 0 <= k < |stale| ==> stale[k] < |s.attempts|
    ensures Linked(s') && SameShape(s, s')
  {
    if stale == [] then s
    else
      var a := stale[|stale| - 1];
      var before := ExpireEach(s, now, stale[..|stale| - 1]);
      var t := before.attempts[a].task;
      Commit(before, t, a, ExpireRows(now, t, a, RowsOf(before, t, a)))
  }

  lemma {:induction false} StaleInRange(cfg: Config, s: State, now: nat, n: nat)
    requires Linked(s) && n <= |s.attempts|
    ensures forall k :: 0 <= k < |StaleAmong(cfg, s, now, n)| ==> StaleAmong(cfg, s, now, n)[k] < n
  {
    if n > 0 { StaleInRange(cfg, s, now, n - 1); }
  }

  /** The list form of the loop is the row-by-row form. */
  lemma {:induction false} ExpireEachIsExpire(cfg: Config, s: State, now: nat, n: nat)
    requires Linked(s) && n <= |s.attempts|
    ensures forall k :: 0 <= k < |StaleAmong(cfg, s, now, n)| ==> StaleAmong(cfg, s, now, n)[k] < |s.attempts|
    ensures ExpireEach(s, now, StaleAmong(cfg, s, now, n)) == ExpireFirst(cfg, s, now, n)
  {
    hide ExpireFirst, ExpireEach, ExpireRows, Commit, Stale, StaleAmong, SameShape, Linked;
    StaleInRange(cfg, s, now, n);
    StaleNext(cfg, s, now, n);
    if n == 0 {
      ExpireFirstZero(cfg, s, now);
      ExpireEachNone(s, now);
    } else {
      ExpireEachIsExpire(cfg, s, now, n - 1);
      ExpireFirstUnfolds(cfg, s, now, n);
      if Stale(cfg, s, now, n - 1) {
        SameTaskOf(s, ExpireFirst(cfg, s, now, n - 1), n - 1);
        ExpireOneMore(s, now, StaleAmong(cfg, s, now, n - 1), n - 1);
      }
    }
  }

  lemma StaleNext(cfg: Config, s: State, now: nat, n: nat)
    requires Linked(s) && n <= |s.attempts|
    ensures StaleAmong(cfg, s, now, 0) == []
    ensures 0 < n ==> StaleAmong(cfg, s, now, n) == if Stale(cfg, s, now, n - 1) then StaleAmong(cfg, s, now, n - 1) + [n - 1]
                                                    else StaleAmong(cfg, s, now, n - 1)
  {
  }

  lemma ExpireEachNone(s: State, now: nat)
    requires Linked(s)
    ensures ExpireEach(s, now, []) == s
  {
  }

  lemma ExpireOneMore(s: State, now: nat, stale: seq<nat>, a: nat)
    requires Linked(s) && a < |s.attempts| && forall k :: 0 <= k < |stale| ==> stale[k] < |s.attempts|
    ensures forall k :: 0 <= k < |stale + [a]| ==> (stale + [a])[k] < |s.attempts|
    ensures var before := ExpireEach(s, now, stale);
            var t := before.attempts[a].task;
            ExpireEach(s, now, stale + [a]) == Commit(before, t, a, ExpireRows(now, t, a, RowsOf(before, t, a)))
  {
    hide ExpireRows, Commit;
    assert (stale + [a])[..|stale|] == stale;
  }

  lemma SameSize(s: State, s': State)
    ensures SameShape(s, s') ==> |s'.attempts| == |s.attempts|
  {
  }

  lemma SameTaskOf(s: State, s': State, a: nat)
    requires SameShape(s, s') && a < |s.attempts|
    ensures a < |s'.attempts| && s'.attempts[a].task == s.attempts[a].task
  {
  }

  lemma ImageInRange(s: State, t: nat)
    requires Linked(s) && t < |s.tasks|
    ensures s.tasks[t].image < |s.images|
  {
  }

  class Coordinator {
    const cfg: Config
    const store: ArtifactStore
    var tasks: seq<Task>
    var attempts: seq<Attempt>
    var images: seq<Image>
    var events: seq<Event>

    constructor (cfg: Config)
      ensures this.cfg == cfg && fresh(store) && store.limits == cfg.limits && Contents() == EMPTY
    {
      this.cfg := cfg;
      store := new ArtifactStore(cfg.limits);
      tasks, attempts, images, events := [], [], [], [];
    }

    function Contents(): State
      reads this, store
    {
      State(tasks, attempts, images, events, store.Contents())
    }

    /** Undo what a refused request did to the rows. */
    method RollBack(saved: State)
      modifies this`tasks, this`attempts, this`images, this`events
      ensures Contents() == saved.(store := store.Contents())
    {
      tasks, attempts, images, events := saved.tasks, saved.attempts, saved.images, saved.events;
    }

    /** `transition_task`: refuse what the table does not allow; a final status releases host and slot. */
    method TransitionTask(t: nat, status: Status, phase: Phase) returns (ok: bool)
      requires t < |tasks|
      modifies this`tasks
      ensures ok <==> Transition(old(tasks)[t], status, phase).Some?
      ensures tasks == if ok then old(tasks)[t := Transition(old(tasks)[t], status, phase).value] else old(tasks)
      ensures ok ==> Climbs(old(tasks)[t], tasks[t]) || (old(tasks)[t].status == InterventionRequired && status == Approved)
    {
      if Allowed(tasks[t].status, status) { TransitionsClimb(tasks[t].status, status); }
      if status != tasks[t].status && !Allowed(tasks[t].status, status) { return false; }
      tasks := tasks[t := tasks[t].(status := status)];
      tasks := tasks[t := tasks[t].(phase := phase)];
      if Terminal(status) {
        tasks := tasks[t := tasks[t].(reservationKey := None, holdsSlot := false)];
      }
      return true;
    }

    method FailCapturingImage(i: nat)
      requires i < |images|
      modifies this`images
      ensures images == old(images)[i := FailCapturing(old(images)[i])]
    {
      if images[i].status == ImageStatus.Capturing {
        images := images[i := images[i].(status := ImageStatus.Failed)];
      } else {
        assert images[i := images[i]] == images;
      }
    }

    /* ----- leases ----- */

    /** One turn of the expiry loop. */
    method ExpireAttempt(now: nat, a: nat)
      requires Linked(Contents()) && a < |attempts|
      modifies this`tasks, this`attempts, this`images, this`events
      ensures var t := old(attempts)[a].task;
              Contents() == Commit(old(Contents()), t, a, ExpireRows(now, t, a, RowsOf(old(Contents()), t, a)))
    {
      ghost var s := Contents();
      var t := attempts[a].task;
      var image := tasks[t].image;
      var ok := TransitionTask(t, InterventionRequired, Phase.Failed);
      if !ok {
        assert s.attempts[a := s.attempts[a]] == s.attempts && s.images[image := s.images[image]] == s.images;
        return;
      }
      tasks := tasks[t := tasks[t].(holdsSlot := false)];
      FailCapturingImage(image);
      var attempt := attempts[a];
      events := events + [AttemptEvent(t, a, attempt, attempt.lastSequence + 1, LeaseExpiredEvent, Phase.Failed)];
      attempts := attempts[a := attempt.(finishedAt := Some(now), failureReason := LeaseExpired, phase := Phase.Failed)];
      attempts := attempts[a := attempts[a].(lastSequence := attempts[a].lastSequence + 1)];
    }

    /** `expire_stale_tasks`: query once, then mark every row found. */
    method ExpireStaleTasks(now: nat) returns (expired: nat)
      requires Linked(Contents())
      modifies this`tasks, this`attempts, this`images, this`events
      ensures Linked(Contents())
      ensures Contents() == Expire(cfg, old(Contents()), now)
      ensures expired == |StaleAmong(cfg, old(Contents()), now, |old(attempts)|)|
    {
      hide ExpireRows, ExpireEach, Commit, Stale, StaleAmong, Linked, SameShape;
      var s := Contents();
      var stale: seq<nat> := [];
      StaleNext(cfg, s, now, 0);
      for a := 0 to |attempts|
        invariant Contents() == s && stale == StaleAmong(cfg, s, now, a)
      {
        StaleNext(cfg, s, now, a + 1);
        if Stale(cfg, s, now, a) { stale := stale + [a]; }
      }
      StaleInRange(cfg, s, now, |attempts|);
      ExpireEachNone(s, now);
      for k := 0 to |stale|
        invariant Linked(Contents()) && |attempts| == |s.attempts|
        invariant Contents() == ExpireEach(s, now, stale[..k])
      {
        SameSize(s, Contents());
        ExpireAttempt(now, stale[k]);
        ExpireOneMore(s, now, stale[..k], stale[k]);
        assert stale[..k] + [stale[k]] == stale[..k + 1];
        SameSize(s, ExpireEach(s, now, stale[..k + 1]));
      }
      assert stale[..|stale|] == stale;
      ExpireEachIsExpire(cfg, s, now, |s.attempts|);
      return |stale|;
    }

    /** `touch_attempt`. */
    method TouchAttempt(now: nat, t: nat, a: nat, phase: Phase, bytes: nat, total: Option<nat>) returns (ok: bool)
      requires Linked(Contents()) && Owns(Contents(), t, a)
      modifies this`tasks, this`attempts
      ensures var r := TouchRows(cfg, now, RowsOf(old(Contents()), t, a), phase, bytes, total);
              && (ok <==> r.Some?)
              && Contents() == if ok then Commit(old(Contents()), t, a, r.value) else old(Contents())
      ensures ok ==> a < |attempts| && attempts[a].leaseExpiresAt == now + cfg.leaseSeconds && attempts[a].phase == phase
    {
      hide Linked;
      ghost var s := Contents();
      ImageInRange(s, t);
      var attempt := attempts[a];
      if !AgentPhase(phase) { return false; }
      if PhaseRank(phase) < PhaseRank(attempt.phase) { return false; }
      if bytes < attempt.bytesProcessed { return false; }
      if total.Some? && attempt.totalBytes.Some? && total.value < attempt.totalBytes.value { return false; }
      if total.Some? && total.value < bytes { return false; }
      ghost var r := TouchRows(cfg, now, RowsOf(s, t, a), phase, bytes, total).value;
      attempts := attempts[a := attempt.(leaseExpiresAt := now + cfg.leaseSeconds, phase := phase, bytesProcessed := bytes)];
      if total.Some? { attempts := attempts[a := attempts[a].(totalBytes := total)]; }
      assert attempts == s.attempts[a := r.attempt];
      CountProgress(t, phase, bytes, total);
      assert tasks == s.tasks[t := r.task];
      assert images[s.tasks[t].image := r.image] == images;
      return true;
    }

    /** What a report does to the task row: a first report starts it, a cancelled one only counts. */
    method CountProgress(t: nat, phase: Phase, bytes: nat, total: Option<nat>)
      requires t < |tasks|
      modifies this`tasks
      ensures var task := old(tasks)[t];
              var counted := task.(bytesProcessed := bytes, totalBytes := if total.Some? then total else task.totalBytes);
              tasks == old(tasks)[t := if task.cancelRequestedAt.Some? then counted.(phase := Cancelling)
                                       else if task.status == Status.Assigned then task.(status := Status.Running, phase := phase)
                                       else counted.(phase := phase)]
    {
      var task := tasks[t];
      if task.cancelRequestedAt.Some? {
        tasks := tasks[t := task.(phase := Cancelling, bytesProcessed := bytes,
                                  totalBytes := if total.Some? then total else task.totalBytes)];
      } else if task.status == Status.Assigned {
        var _ := TransitionTask(t, Status.Running, phase);
      } else {
        tasks := tasks[t := task.(phase := phase, bytesProcessed := bytes,
                                  totalBytes := if total.Some? then total else task.totalBytes)];
      }
    }

    /* ----- cancellation and reconciliation ----- */

    /** `request_task_cancellation`. */
    method RequestCancellation(now: nat, t: nat) returns (reply: Reply)
      requires Linked(Contents())
      modifies this`tasks, this`images, this`events
      ensures (Contents(), reply) == Cancel(old(Contents()), now, t)
    {
      ghost var s := Contents();
      if t >= |tasks| { return NotFound; }
      if Terminal(tasks[t].status) { return Unchanged; }
      if tasks[t].status == InterventionRequired { return Conflict; }
      if tasks[t].cancelRequestedAt.Some? { return Unchanged; }
      tasks := tasks[t := tasks[t].(cancelRequestedAt := Some(now))];
      var image := tasks[t].image;
      if tasks[t].operation == Capture { FailCapturingImage(image); }
      if tasks[t].status == Approved {
        var _ := TransitionTask(t, Cancelled, tasks[t].phase);
        tasks := tasks[t := tasks[t].(cancelAcknowledgedAt := Some(now))];
        events := events + [Event(t, None, None, CancelledEvent, tasks[t].phase, tasks[t].bytesProcessed, tasks[t].totalBytes, "")];
        assert tasks == s.tasks[t := CancelTask(now, s.tasks[t]).value];
        return Accepted;
      }
      var _ := TransitionTask(t, tasks[t].status, Cancelling);
      events := events + [Event(t, None, None, CancellationRequestedEvent, Cancelling, tasks[t].bytesProcessed, tasks[t].totalBytes, "")];
      assert tasks == s.tasks[t := CancelTask(now, s.tasks[t]).value];
      return Accepted;
    }

    /** `acknowledge_task_cancellation`, and the staging of a cancelled capture. */
    method AcknowledgeCancellation(now: nat, t: nat, a: nat, reason: string) returns (reply: Reply)
      requires Linked(Contents()) && Owns(Contents(), t, a)
      modifies this`tasks, this`attempts, this`images, this`events, store
      ensures (Contents(), reply) == Acknowledge(old(Contents()), now, t, a, reason)
    {
      var saved := Contents();
      if tasks[t].cancelRequestedAt.None? { return Conflict; }
      var attempt := attempts[a];
      attempts := attempts[a := attempt.(finishedAt := Some(now), phase := Phase.Failed, failureReason := Reported(reason))];
      tasks := tasks[t := tasks[t].(cancelAcknowledgedAt := Some(now))];
      var image := tasks[t].image;
      if tasks[t].operation == Capture { FailCapturingImage(image); }
      assert images[image := images[image]] == images;
      var ok := TransitionTask(t, Cancelled, Phase.Failed);
      if !ok {
        RollBack(saved);
        return Conflict;
      }
      attempts := attempts[a := attempts[a].(lastSequence := attempts[a].lastSequence + 1)];
      events := events + [AttemptEvent(t, a, attempt, attempt.lastSequence + 1, CancelledEvent, Phase.Failed)];
      ghost var r := AcknowledgeRows(now, t, a, RowsOf(saved, t, a), reason).value;
      assert tasks == saved.tasks[t := r.task] && attempts == saved.attempts[a := r.attempt];
      assert images == saved.images[image := r.image] && events == saved.events + r.events;
      assert Contents() == Commit(saved, t, a, r);
      if tasks[t].operation == Capture { var _ := store.RemoveTaskStaging(t); }
      return Accepted;
    }

    /** `reconcile_task` and its handler: back to the queue, image capturing again, staging gone. */
    method ReconcileTask(t: nat) returns (reply: Reply)
      requires Linked(Contents())
      modifies this`tasks, this`images, this`events, store
      ensures (Contents(), reply) == Reconcile(old(Contents()), t)
    {
      if t >= |tasks| { return NotFound; }
      if tasks[t].status != InterventionRequired { return Conflict; }
      ghost var s := Contents();
      tasks := tasks[t := tasks[t].(cancelRequestedAt := None, cancelAcknowledgedAt := None, holdsSlot := false, bytesProcessed := 0)];
      var _ := TransitionTask(t, Approved, Queued);
      assert tasks == s.tasks[t := TaskModel.ReconcileTask(s.tasks[t])];
      events := events + [Event(t, None, None, ReconciledEvent, Queued, 0, None, "")];
      if tasks[t].operation == Capture {
        var image := tasks[t].image;
        images := images[image := images[image].(status := ImageStatus.Capturing)];
      }
      var _ := store.RemoveTaskStaging(t);
      return Accepted;
    }

    /* ----- creating and claiming tasks ----- */

    /** `image_create`. */
    method RegisterImage(valid: bool) returns (reply: Reply)
      modifies this`images
      ensures (Contents(), reply) == CreateDraft(old(Contents()), valid)
    {
      if !valid { return Unprocessable; }
      images := images + [DRAFT];
      return Accepted;
    }

    /** `capture_request`: the image row becomes capturing, the task reserves its host. */
    method RequestCapture(now: nat, user: nat, host: nat, draft: Option<nat>, report: nat, key: nat, total: nat, valid: bool)
      returns (reply: Reply)
      modifies this`tasks, this`images, this`events
      ensures (Contents(), reply) == CreateCapture(old(Contents()), now, user, host, draft, report, key, total, valid)
    {
      ghost var s := Contents();
      if KeyUsedBy(Contents(), key, user) { return Unchanged; }
      if KeyUsed(Contents(), key) || HostReserved(Contents(), host) || !valid { return Unprocessable; }
      if draft.Some? {
        if draft.value >= |images| { return Unprocessable; }
        if images[draft.value].status != ImageStatus.Draft || images[draft.value].deletedAt.Some? { return Unprocessable; }
      }
      var i := if draft.Some? then draft.value else |images|;
      if draft.None? { images := images + [DRAFT]; }
      images := images[i := images[i].(status := ImageStatus.Capturing)];
      var t := |tasks|;
      tasks := tasks + [NewTask(Capture, user, host, i, report, key, total, now)];
      events := events + [Event(t, None, None, CreatedEvent, Queued, 0, Some(total), "")];
      events := events + [Event(t, None, None, ReservedEvent, Queued, 0, Some(total), "")];
      assert events == s.events + CreationEvents(t, total);
      return Accepted;
    }

    /** `deployment_request` for a restore or a clone. */
    method RequestDeployment(now: nat, user: nat, host: nat, clone: bool, i: nat, report: nat, key: nat, valid: bool)
      returns (reply: Reply)
      modifies this`tasks, this`events
      ensures (Contents(), reply) == CreateDeployment(old(Contents()), now, user, host, clone, i, report, key, valid)
    {
      ghost var s := Contents();
      if KeyUsedBy(Contents(), key, user) { return Unchanged; }
      if KeyUsed(Contents(), key) || HostReserved(Contents(), host) || !valid { return Unprocessable; }
      if !Selectable(Contents(), i) { return Unprocessable; }
      var total := DeclaredSize(images[i].manifest.value.artifacts);
      var t := |tasks|;
      tasks := tasks + [NewTask(if clone then Clone else Restore, user, host, i, report, key, total, now)];
      events := events + [Event(t, None, None, CreatedEvent, Queued, 0, Some(total), "")];
      events := events + [Event(t, None, None, ReservedEvent, Queued, 0, Some(total), "")];
      assert events == s.events + CreationEvents(t, total);
      return Accepted;
    }

    /** The oldest approved task of a host. */
    method FindClaimable(host: nat) returns (best: Option<nat>)
      ensures best == OldestApproved(Contents(), host, |tasks|)
    {
      best := None;
      for t := 0 to |tasks|
        invariant best == OldestApproved(Contents(), host, t)
      {
        if Claimable(Contents(), host, t) && (best.None? || tasks[t].createdAt < tasks[best.value].createdAt) {
          best := Some(t);
        }
      }
    }

    method HighestNumber(t: nat) returns (number: nat)
      ensures number == LastNumber(attempts, t, |attempts|)
    {
      number := 0;
      for a := 0 to |attempts|
        invariant number == LastNumber(attempts, t, a)
      {
        if attempts[a].task == t && number < attempts[a].number { number := attempts[a].number; }
      }
    }

    /** `claim_task` once the expiry has been committed. */
    method TakeTask(now: nat, host: nat, session: nat, capable: bool) returns (reply: Reply)
      requires Linked(Contents())
      modifies this`tasks, this`attempts, this`events
      ensures (Contents(), reply) == Claim(cfg, old(Contents()), now, host, session, capable)
    {
      hide OldestApproved, LastNumber, Linked;
      ghost var s := Contents();
      if SessionUsed(Contents(), session) { return Conflict; }
      if SlotTaken(Contents()) { return NoWork; }
      var found := FindClaimable(host);
      if found.None? { return NoWork; }
      var t := found.value;
      if !capable { return Conflict; }
      var number := HighestNumber(t);
      var a := |attempts|;
      var attempt := Attempt(t, number + 1, session, now + cfg.leaseSeconds, 0, Phase.Assigned, 0, tasks[t].totalBytes, None, NoReason);
      tasks := tasks[t := tasks[t].(holdsSlot := true)];
      var _ := TransitionTask(t, Status.Assigned, Phase.Assigned);
      assert tasks == s.tasks[t := s.tasks[t].(holdsSlot := true, status := Status.Assigned, phase := Phase.Assigned)];
      attempts := attempts + [attempt];
      events := events + [Event(t, Some(a), Some(0), AssignedEvent, Phase.Assigned, 0, tasks[t].totalBytes, "")];
      return Accepted;
    }

    /** `claim_task`: the expiry is committed even when there is nothing to hand out. */
    method ClaimTask(now: nat, host: nat, session: nat, capable: bool) returns (reply: Reply)
      requires Linked(Contents())
      modifies this`tasks, this`attempts, this`images, this`events
      ensures Linked(Expire(cfg, old(Contents()), now))
      ensures (Contents(), reply) == Claim(cfg, Expire(cfg, old(Contents()), now), now, host, session, capable)
    {
      hide Claim;
      var _ := ExpireStaleTasks(now);
      reply := TakeTask(now, host, session, capable);
    }

    /* ----- agent requests ----- */

    /** `task_attempt_for_token`. */
    method TaskAttemptForToken(now: nat, t: nat, token: nat, credential: bool) returns (authority: Authority)
      requires Linked(Contents())
      ensures authority == Authorise(Contents(), now, t, token, credential)
      ensures authority == Granted ==> Owns(Contents(), t, token)
    {
      if t >= |tasks| { return Denied(NotFound); }
      if token >= |attempts| || attempts[token].task != t { return Denied(Unauthorized); }
      if !credential { return Denied(Unauthorized); }
      if Closed(tasks[t].status) { return Denied(Conflict); }
      if attempts[token].leaseExpiresAt <= now { return Lapsed; }
      return Granted;
    }

    method SendHeartbeat(now: nat, t: nat, a: nat, phase: Option<Phase>, bytes: nat, total: Option<nat>) returns (reply: Reply)
      requires Linked(Contents()) && Owns(Contents(), t, a)
      modifies this`tasks, this`attempts
      ensures (Contents(), reply) == Heartbeat(cfg, old(Contents()), now, t, a, phase, bytes, total)
    {
      hide TouchRows, Linked;
      var attempt := attempts[a];
      var ok := TouchAttempt(now, t, a, if phase.Some? then phase.value else attempt.phase,
                             Max(attempt.bytesProcessed, bytes), if total.Some? then total else attempt.totalBytes);
      return if ok then Accepted else Unprocessable;
    }

    /** `record_progress`; an error leaves the rows as they were. */
    method RecordProgressOf(now: nat, t: nat, a: nat, sequence: nat, phase: Phase, bytes: nat, total: Option<nat>, message: string)
      returns (outcome: ProgressOutcome)
      requires Linked(Contents()) && Owns(Contents(), t, a)
      modifies this`tasks, this`attempts, this`events
      ensures Linked(Contents()) && Owns(Contents(), t, a)
      ensures outcome == RecordProgress(cfg, old(Contents()), now, t, a, sequence, phase, bytes, total, message)
      ensures outcome.Recorded? ==> KeepsLinks(old(Contents()), t, outcome.rows)
      ensures Contents() == if outcome.Recorded? then Commit(old(Contents()), t, a, outcome.rows) else old(Contents())
    {
      hide Linked, Commit, FindEvent, ProgressRows, KeepsLinks;
      if !AgentPhase(phase) { return ProgressOutcome.Rejected; }
      var previous := FindEvent(events, a, sequence);
      if previous.Some? {
        var e := previous.value;
        if e.phase == phase && e.bytesProcessed == bytes && e.totalBytes == total && e.message == message { return Replayed; }
        return ProgressOutcome.Rejected;
      }
      if sequence <= attempts[a].lastSequence { return Replayed; }
      var rows := ProgressRows(cfg, now, t, a, RowsOf(Contents(), t, a), sequence, phase, bytes, total, message);
      var ok := LogProgress(now, t, a, sequence, phase, bytes, total, message);
      return if ok then Recorded(rows.value) else ProgressOutcome.Rejected;
    }

    /** The part of `record_progress` that changes rows. */
    method LogProgress(now: nat, t: nat, a: nat, sequence: nat, phase: Phase, bytes: nat, total: Option<nat>, message: string)
      returns (ok: bool)
      requires Linked(Contents()) && Owns(Contents(), t, a)
      modifies this`tasks, this`attempts, this`events
      ensures Linked(Contents()) && Owns(Contents(), t, a)
      ensures var r := ProgressRows(cfg, now, t, a, RowsOf(old(Contents()), t, a), sequence, phase, bytes, total, message);
              && (ok <==> r.Some?)
              && (ok ==> KeepsLinks(old(Contents()), t, r.value))
              && Contents() == if ok then Commit(old(Contents()), t, a, r.value) else old(Contents())
    {
      hide Linked, TouchRows;
      ghost var s := Contents();
      ImageInRange(s, t);
      ghost var r := ProgressRows(cfg, now, t, a, RowsOf(s, t, a), sequence, phase, bytes, total, message);
      ghost var r1 := TouchRows(cfg, now, RowsOf(s, t, a), phase, bytes, total);
      ok := TouchAttempt(now, t, a, phase, bytes, total);
      if !ok { return; }
      TouchKeepsLinks(cfg, now, s, t, a, phase, bytes, total);
      if phase == Phase.Verifying && tasks[t].status == Status.Running {
        var _ := TransitionTask(t, Status.Verifying, phase);
      }
      attempts := attempts[a := attempts[a].(lastSequence := sequence)];
      events := events + [Event(t, Some(a), Some(sequence), ProgressEvent, phase, bytes, total, SafeMessage(message))];
      assert tasks == s.tasks[t := r.value.task] && attempts == s.attempts[a := r.value.attempt];
      assert events == s.events + r.value.events;
      CommitLinked(s, t, a, r.value);
    }

    method ReportProgress(now: nat, t: nat, a: nat, sequence: nat, phase: Phase, bytes: nat, total: Option<nat>, message: string)
      returns (reply: Reply)
      requires Linked(Contents()) && Owns(Contents(), t, a)
      modifies this`tasks, this`attempts, this`events
      ensures (Contents(), reply) == Progress(cfg, old(Contents()), now, t, a, sequence, phase, bytes, total, message)
    {
      hide RecordProgress, Commit, Linked;
      var outcome := RecordProgressOf(now, t, a, sequence, phase, bytes, total, message);
      match outcome
      case Rejected => return Conflict;
      case Replayed => return Unchanged;
      case Recorded(_) => return Accepted;
    }

    /** `upload_task_artifact`. */
    method UploadTaskArtifact(now: nat, t: nat, a: nat, path: Path, c: Chunk, room: bool) returns (reply: Reply)
      requires Linked(Contents()) && Owns(Contents(), t, a) && store.limits == cfg.limits
      modifies this`tasks, this`attempts, store
      ensures (Contents(), reply) == Upload(cfg, old(Contents()), now, t, a, path, c, room)
    {
      hide TouchRows, ChunkStep;
      var taken := store.WriteChunk(cfg.hash, t, path, c, room);
      if taken == ChunkReply.Rejected { return Conflict; }
      TakenChunk(cfg.hash, cfg.limits, old(store.Contents()), t, path, c, room);
      var ok := TouchAttempt(now, t, a, Phase.Uploading, Max(attempts[a].bytesProcessed, c.offset + |c.payload|), attempts[a].totalBytes);
      return if ok then Accepted else Conflict;
    }

    /** `fail_agent_task`; a refused transition rolls everything back. */
    method FailAgentTask(now: nat, t: nat, a: nat, sequence: nat, reason: string) returns (reply: Reply)
      requires Linked(Contents()) && Owns(Contents(), t, a)
      modifies this`tasks, this`attempts, this`images, this`events
      ensures (Contents(), reply) == FailTask(old(Contents()), now, t, a, sequence, reason)
    {
      hide Linked;
      var saved := Contents();
      ImageInRange(saved, t);
      if sequence > attempts[a].lastSequence {
        events := events + [AttemptEvent(t, a, attempts[a], sequence, ErrorEvent, Phase.Failed)];
        attempts := attempts[a := attempts[a].(lastSequence := sequence)];
      }
      attempts := attempts[a := attempts[a].(finishedAt := Some(now), phase := Phase.Failed, failureReason := Reported(reason))];
      var ok := TransitionTask(t, Status.Failed, Phase.Failed);
      if !ok {
        RollBack(saved);
        return ServerError;
      }
      FailCapturingImage(tasks[t].image);
      ghost var r := FailRows(now, t, a, RowsOf(saved, t, a), sequence, reason).value;
      assert attempts == saved.attempts[a := r.attempt] && events == saved.events + r.events;
      return Accepted;
    }

    /** The closing moves of a successful result, on a task whose verification has been recorded. */
    method CompleteTask(now: nat, t: nat, a: nat) returns (ok: bool)
      requires Linked(Contents()) && Owns(Contents(), t, a)
      modifies this`tasks, this`attempts, this`events
      ensures var r := CompleteRows(now, t, a, RowsOf(old(Contents()), t, a));
              && (ok <==> r.Some?)
              && (ok ==> Contents() == Commit(old(Contents()), t, a, r.value))
              && Contents().images == old(images) && Contents().store == old(store.Contents())
    {
      hide Linked;
      ghost var s := Contents();
      ImageInRange(s, t);
      attempts := attempts[a := attempts[a].(finishedAt := Some(now), phase := Completed)];
      ok := TransitionTask(t, Succeeded, Completed);
      if !ok { return; }
      var sequence := attempts[a].lastSequence + 1;
      events := events + [AttemptEvent(t, a, attempts[a], sequence, CompletedEvent, Completed)];
      attempts := attempts[a := attempts[a].(lastSequence := sequence)];
      ghost var r := CompleteRows(now, t, a, RowsOf(s, t, a)).value;
      assert attempts == s.attempts[a := r.attempt] && events == s.events + r.events;
      assert images[s.tasks[t].image := r.image] == images;
    }

    /** `_finish_restore_agent_task`. */
    method FinishRestoreTask(now: nat, t: nat, a: nat, sequence: nat, manifest: bool) returns (reply: Reply)
      requires Linked(Contents()) && Owns(Contents(), t, a)
      modifies this`tasks, this`attempts, this`images, this`events
      ensures (Contents(), reply) == FinishRestore(cfg, old(Contents()), now, t, a, sequence, manifest)
    {
      hide Linked, RecordProgress, CompleteRows, Commit;
      var saved := Contents();
      if manifest { return Unprocessable; }
      if sequence <= attempts[a].lastSequence { return Unchanged; }
      var outcome := RecordProgressOf(now, t, a, sequence, Phase.Verifying, attempts[a].bytesProcessed, attempts[a].totalBytes, "");
      if outcome.Rejected? { return Conflict; }
      var rows := if outcome.Recorded? then outcome.rows else RowsOf(saved, t, a);
      WriteBack(saved, t, a);
      CompleteLater(saved, now, t, a, rows);
      var ok := CompleteTask(now, t, a);
      if !ok {
        RollBack(saved);
        return Conflict;
      }
      return Accepted;
    }

    /** `_finish_capture_agent_task`. */
    method FinishCaptureTask(now: nat, t: nat, a: nat, sequence: nat, manifest: Option<ImageManifest>, room: bool) returns (reply: Reply)
      requires Linked(Contents()) && Owns(Contents(), t, a) && store.limits == cfg.limits
      modifies this`tasks, this`attempts, this`images, this`events, store
      ensures (Contents(), reply) == FinishCapture(cfg, old(Contents()), now, t, a, sequence, manifest, room)
    {
      hide Linked, RecordProgress, PublishCapture, Commit, FailTask;
      if manifest.None? { return Unprocessable; }
      if sequence <= attempts[a].lastSequence { return Unchanged; }
      var m := manifest.value;
      if !ManifestAccepted(tasks[t], m) {
        reply := FailAgentTask(now, t, a, sequence, "manifest");
        return;
      }
      var outcome := RecordProgressOf(now, t, a, sequence, Phase.Verifying, attempts[a].bytesProcessed, attempts[a].totalBytes, "");
      if outcome.Rejected? {
        reply := FailAgentTask(now, t, a, sequence + 1, "progress");
        return;
      }
      if outcome.Replayed? { return Unchanged; }
      reply := PublishTask(now, t, a, sequence, m, room);
    }

    /** Publish what was staged, then close the task; a transition error leaves the publication behind. */
    method PublishTask(now: nat, t: nat, a: nat, sequence: nat, m: ImageManifest, room: bool) returns (reply: Reply)
      requires Linked(Contents()) && Owns(Contents(), t, a) && store.limits == cfg.limits && WellFormedManifest(m)
      modifies this`tasks, this`attempts, this`images, this`events, store
      ensures (Contents(), reply) == PublishCapture(cfg, old(Contents()), now, t, a, sequence, m, room)
    {
      hide FailTask, CompleteRows, CanPublish;
      ghost var s := Contents();
      var image := tasks[t].image;
      var published := store.VerifyAndPublish(cfg.hash, t, image, m, room);
      if !published {
        reply := FailAgentTask(now, t, a, sequence + 1, "storage");
        return;
      }
      var saved := Contents();
      images := images[image := PublishedImage(cfg.hash, m, now, images[image])];
      ghost var row := images[image];
      var ok := CompleteTask(now, t, a);
      if !ok {
        RollBack(saved);
        return ServerError;
      }
      WriteBackImage(saved, t, a, row, CompleteRows(now, t, a, RowsOf(saved, t, a).(image := row)));
      return Accepted;
    }

    /** `finish_agent_task`. */
    method FinishAgentTask(now: nat, t: nat, a: nat, p: Result) returns (reply: Reply)
      requires Linked(Contents()) && Owns(Contents(), t, a) && store.limits == cfg.limits
      modifies this`tasks, this`attempts, this`images, this`events, store
      ensures (Contents(), reply) == Finish(cfg, old(Contents()), now, t, a, p)
    {
      hide Linked, Acknowledge, FailTask, FinishRestore, FinishCapture;
      if p.cancelled || tasks[t].cancelRequestedAt.Some? {
        reply := AcknowledgeCancellation(now, t, a, p.error);
      } else if !p.success {
        reply := FailAgentTask(now, t, a, p.sequence, p.error);
      } else if tasks[t].operation != Capture {
        reply := FinishRestoreTask(now, t, a, p.sequence, p.manifest.Some?);
      } else {
        reply := FinishCaptureTask(now, t, a, p.sequence, p.manifest, p.room);
      }
    }

    /* ----- images and backups ----- */

    /** `image_delete`. */
    method DeleteImageRow(now: nat, i: nat) returns (reply: Reply)
      modifies this`images, store
      ensures (Contents(), reply) == DeleteImage(old(Contents()), now, i)
    {
      if i >= |images| { return NotFound; }
      if images[i].deletedAt.Some? { return Unchanged; }
      if ImageBusy(Contents(), i) { return Conflict; }
      var _ := store.DeletePublishedImage(i);
      images := images[i := images[i].(deletedAt := Some(now))];
      images := images[i := images[i].(verifiedAt := None)];
      assert images == old(images)[i := old(images)[i].(deletedAt := Some(now), verifiedAt := None)];
      return Accepted;
    }

    /** `invalidate_after_restore`: two updates, the second looking for what the first one left. */
    method InvalidateAfterRestore(now: nat)
      requires Linked(Contents())
      modifies this`tasks, this`attempts
      ensures Contents() == RestoreBackup(old(Contents()), now)
    {
      hide InvalidateAttempt, InvalidateTask;
      ghost var s := Contents();
      for a := 0 to |attempts|
        invariant |attempts| == |s.attempts| && unchanged(`tasks)
        invariant forall b :: 0 <= b < a ==> attempts[b] == InvalidateAttempt(s, now, b)
        invariant forall b :: a <= b < |attempts| ==> attempts[b] == s.attempts[b]
      {
        InvalidateOneAttempt(s, now, a);
        if attempts[a].finishedAt.None? && InFlight(tasks[attempts[a].task].status) {
          attempts := attempts[a := attempts[a].(finishedAt := Some(now), phase := Phase.Failed, failureReason := ServerRestored)];
        }
      }
      for t := 0 to |tasks|
        invariant |tasks| == |s.tasks| && attempts == seq(|s.attempts|, b requires 0 <= b < |s.attempts| => InvalidateAttempt(s, now, b))
        invariant forall u :: 0 <= u < t ==> tasks[u] == InvalidateTask(attempts, s.tasks[u], u)
        invariant forall u :: t <= u < |tasks| ==> tasks[u] == s.tasks[u]
      {
        tasks := tasks[t := InvalidateTask(attempts, tasks[t], t)];
      }
    }

    /* ----- the whole interface ----- */

    /** Serve one request: exactly one step of the transition relation, which keeps the joint invariant. */
    method Handle(now: nat, op: Op) returns (reply: Reply)
      requires Inv(Contents()) && store.limits == cfg.limits
      modifies this, store
      ensures Inv(Contents())
      ensures Linked(old(Contents())) && (Contents(), reply) == Step(cfg, old(Contents()), now, op)
    {
      hide Inv, Linked, Step, Evolves, LiveOwnsSlot, Careless;
      InvIsLinked(Contents());
      StepKeeps(cfg, Contents(), now, op);
      if IsAgentOp(op) {
        reply := HandleAgent(now, op);
      } else {
        reply := HandleOperator(now, op);
      }
    }

    method HandleOperator(now: nat, op: Op) returns (reply: Reply)
      requires Linked(Contents()) && !IsAgentOp(op)
      modifies this, store
      ensures (Contents(), reply) == Step(cfg, old(Contents()), now, op)
    {
      hide Linked, CreateDraft, CreateCapture, CreateDeployment, Claim, Cancel, Reconcile, DeleteImage, Expire, RestoreBackup;
      match op
      case OpDraft(valid) => reply := RegisterImage(valid);
      case OpCapture(user, host, draft, report, key, total, valid) =>
        reply := RequestCapture(now, user, host, draft, report, key, total, valid);
      case OpDeploy(user, host, clone, image, report, key, valid) =>
        reply := RequestDeployment(now, user, host, clone, image, report, key, valid);
      case OpClaim(host, session, capable) => reply := TakeTask(now, host, session, capable);
      case OpCancel(t) => reply := RequestCancellation(now, t);
      case OpReconcile(t) => reply := ReconcileTask(t);
      case OpDelete(i) => reply := DeleteImageRow(now, i);
      case OpExpire =>
        var _ := ExpireStaleTasks(now);
        reply := Accepted;
      case OpRestoreBackup =>
        InvalidateAfterRestore(now);
        reply := Accepted;
    }

    method HandleAgent(now: nat, op: Op) returns (reply: Reply)
      requires Linked(Contents()) && store.limits == cfg.limits && IsAgentOp(op)
      modifies this, store
      ensures (Contents(), reply) == Step(cfg, old(Contents()), now, op)
    {
      hide Linked, Expire, Heartbeat, Progress, Upload, Finish, Authorise;
      var authority := TaskAttemptForToken(now, op.task, op.token, op.credential);
      match authority
      case Denied(refusal) => reply := refusal;
      case Lapsed =>
        var _ := ExpireStaleTasks(now);
        reply := Gone;
      case Granted =>
        match op
        case OpHeartbeat(t, a, _, phase, bytes, total) => reply := SendHeartbeat(now, t, a, phase, bytes, total);
        case OpProgress(t, a, _, sequence, phase, bytes, total, message) =>
          reply := ReportProgress(now, t, a, sequence, phase, bytes, total, message);
        case OpUpload(t, a, _, path, chunk, room) => reply := UploadTaskArtifact(now, t, a, path, chunk, room);
        case OpFinish(t, a, _, result) => reply := FinishAgentTask(now, t, a, result);
    }
  }

  /** Rows still refer to the same task and image. */
  predicate KeepsLinks(s: State, t: nat, r: Rows)
    requires t < |s.tasks|
  {
    r.attempt.task == t && r.task.image == s.tasks[t].image
  }

  lemma TouchKeepsLinks(cfg: Config, now: nat, s: State, t: nat, a: nat, phase: Phase, bytes: nat, total: Option<nat>)
    requires Linked(s) && Owns(s, t, a)
    ensures var r := TouchRows(cfg, now, RowsOf(s, t, a), phase, bytes, total);
            r.Some? ==> KeepsLinks(s, t, r.value) && r.value.image == s.images[s.tasks[t].image] && r.value.events == []
  {
  }

  lemma CommitLinked(s: State, t: nat, a: nat, r: Rows)
    requires Linked(s) && Owns(s, t, a) && KeepsLinks(s, t, r)
    ensures Linked(Commit(s, t, a, r)) && Owns(Commit(s, t, a, r), t, a)
  {
  }

  lemma WriteBack(s: State, t: nat, a: nat)
    requires Linked(s) && Owns(s, t, a)
    ensures Commit(s, t, a, RowsOf(s, t, a)) == s
  {
    assert s.tasks[t := s.tasks[t]] == s.tasks && s.attempts[a := s.attempts[a]] == s.attempts;
    assert s.images[s.tasks[t].image := s.images[s.tasks[t].image]] == s.images;
  }

  /** Completing rows already written back is completing them before writing. */
  lemma CompleteLater(s: State, now: nat, t: nat, a: nat, r: Rows)
    requires Linked(s) && Owns(s, t, a) && KeepsLinks(s, t, r)
    ensures var s1 := Commit(s, t, a, r);
            && Linked(s1) && Owns(s1, t, a)
            && CompleteRows(now, t, a, RowsOf(s1, t, a)).Some? == CompleteRows(now, t, a, r).Some?
            && (CompleteRows(now, t, a, r).Some? ==>
                  Commit(s1, t, a, CompleteRows(now, t, a, RowsOf(s1, t, a)).value) == Commit(s, t, a, CompleteRows(now, t, a, r).value))
  {
    var s1 := Commit(s, t, a, r);
    if CompleteRows(now, t, a, r).Some? {
      var r' := CompleteRows(now, t, a, r).value;
      assert s1.tasks[t := r'.task] == s.tasks[t := r'.task] && s1.attempts[a := r'.attempt] == s.attempts[a := r'.attempt];
      assert s1.images[s.tasks[t].image := r'.image] == s.images[s.tasks[t].image := r'.image];
    }
  }

  lemma WriteBackImage(s: State, t: nat, a: nat, image: Image, r: Option<Rows>)
    requires Linked(s) && Owns(s, t, a) && r.Some? && r.value.image == image
    ensures Commit(s.(images := s.images[s.tasks[t].image := image]), t, a, r.value) == Commit(s, t, a, r.value)
  {
    var i := s.tasks[t].image;
    assert s.images[i := image][i := image] == s.images[i := image];
  }

  lemma InvalidateOneAttempt(s: State, now: nat, a: nat)
    requires Linked(s) && a < |s.attempts|
    ensures s.attempts[a].task < |s.tasks|
    ensures InvalidateAttempt(s, now, a) ==
            if s.attempts[a].finishedAt.None? && InFlight(s.tasks[s.attempts[a].task].status)
            then s.attempts[a].(finishedAt := Some(now), phase := Phase.Failed, failureReason := ServerRestored)
            else s.attempts[a]
  {
  }
}
