/** What holds along whole runs: catalogue, cancellation, the life of an attempt, events, and how much can happen. */
module TaskHistories {
  import opened Bytes
  import opened Messages
  import opened Storage
  import opened TaskModel
  import opened TaskSteps
  import opened TaskInvariants
  import opened TaskPreservation
  import opened TaskRequests
  import opened TaskOperations
  import opened TaskRuns

  /* ----- reservations ----- */

  /**
   * In every reachable state: a task holds the transfer slot exactly while it is in flight, and no two do; it reserves
   * its host exactly until it ends, so a host has one active task; and a task in flight is being worked on by its
   * newest attempt.
   */
  lemma {:induction false} ReservationsHold(cfg: Config, run: seq<Timed>, t: nat)
    requires t < |Run(cfg, EMPTY, run).tasks|
    ensures var s := Run(cfg, EMPTY, run);
            && (s.tasks[t].holdsSlot <==> InFlight(s.tasks[t].status))
            && (s.tasks[t].reservationKey == if Terminal(s.tasks[t].status) then None else Some(s.tasks[t].host))
            && (forall u: nat :: u < |s.tasks| && u != t && s.tasks[u].holdsSlot ==> !s.tasks[t].holdsSlot)
            && (forall u: nat :: u < |s.tasks| && u != t && s.tasks[u].reservationKey.Some? ==>
                                   s.tasks[u].reservationKey != s.tasks[t].reservationKey)
            && (InFlight(s.tasks[t].status) ==> exists a :: Working(s, t, a))
  {
    var s := Run(cfg, EMPTY, run);
    hide Run, Numbered, EventsOk;
    assert forall u: nat :: u < |s.tasks| ==> TaskOk(s.tasks[u]);
    assert forall u: nat :: u < t ==> Terminal(s.tasks[u].status) || Terminal(s.tasks[t].status) || s.tasks[u].host != s.tasks[t].host;
    if InFlight(s.tasks[t].status) { var a := WorkingOn(s, t); }
  }

  /* ----- catalogue, store and tasks agree ----- */

  /** The catalogue survives every run without a breaking step. */
  lemma {:induction false} UnbrokenCatalogue(cfg: Config, s: State, run: seq<Timed>, i: nat)
    requires Inv(s) && Catalogue(cfg.hash, s) && i <= |run|
    requires forall j: nat :: j < i ==> !Breaks(cfg, Before(cfg, s, run, j), run[j].now, run[j].op)
    ensures Catalogue(cfg.hash, Before(cfg, s, run, i))
  {
    hide Inv, Catalogue, Breaks, After;
    if i == 0 {
      assert run[..0] == [];
    } else {
      UnbrokenCatalogue(cfg, s, run, i - 1);
      StepCatalogue(cfg, Before(cfg, s, run, i - 1), run[i - 1].now, run[i - 1].op);
      BeforeNext(cfg, s, run, i - 1);
      AfterIsStep(cfg, Before(cfg, s, run, i - 1), run[i - 1]);
    }
  }

  /** Careful runs without a recovered backup keep catalogue, store and tasks in agreement. */
  lemma {:induction false} CatalogueAgrees(cfg: Config, run: seq<Timed>, now: nat)
    requires Ordered(run, now) && WithoutBackup(run) && Carefully(cfg, EMPTY, run)
    ensures Catalogue(cfg.hash, Run(cfg, EMPTY, run))
  {
    hide Inv, LiveOwnsSlot, Catalogue, Careless, Breaks, After;
    EmptyIsInv();
    forall j: nat | j < |run| ensures !Breaks(cfg, Before(cfg, EMPTY, run, j), run[j].now, run[j].op) {
      OwnedBefore(cfg, EMPTY, run, j, run[j].now);
      OwnersNeverBreak(cfg, Before(cfg, EMPTY, run, j), run[j].now, run[j].op);
    }
    assert run[..|run|] == run;
    UnbrokenCatalogue(cfg, EMPTY, run, |run|);
  }

  /**
   * What agreement means: an image is capturing exactly while its one capture task is queued or in flight with no
   * cancellation asked for; it is ready and not deleted exactly when it is published, with exactly the declared
   * artifacts, each verified; and the image of an active restore or clone is ready and published.
   */
  lemma {:induction false} CatalogueMeans(h: Hash, s: State, i: nat)
    requires Inv(s) && Catalogue(h, s) && i < |s.images|
    ensures s.images[i].status == ImageStatus.Capturing <==> exists t: nat :: CaptureOf(s, t, i) && Pending(s.tasks[t])
    ensures forall t: nat, u: nat :: CaptureOf(s, t, i) && CaptureOf(s, u, i) ==> t == u
    ensures InUse(s.images[i]) <==> i in s.store.published
    ensures InUse(s.images[i]) ==> s.images[i].manifest.Some? && s.images[i].verifiedAt.Some?
                                   && Matches(h, s.images[i].manifest.value, s.store.published[i])
    ensures (exists t: nat :: t < |s.tasks| && s.tasks[t].image == i && s.tasks[t].operation != Capture && Active(s.tasks[t].status))
            ==> Selectable(s, i)
  {
    hide Matches, NewestUnfinished, Numbered, EventsOk, OneSlot, OneTaskPerHost, WellFormedManifest;
    assert ReadyOk(h, s, i);
    if s.images[i].status == ImageStatus.Capturing {
      var t := CapturerOf(s, i);
      assert CaptureOf(s, t, i) && Pending(s.tasks[t]);
    }
    if InUse(s.images[i]) { MatchesDeclared(h, s.images[i].manifest.value, s.store.published[i]); }
  }

  lemma MatchesDeclared(h: Hash, m: ImageManifest, files: Files)
    requires Matches(h, m, files)
    ensures forall k :: 0 <= k < |m.artifacts| ==> m.artifacts[k].path in files
  {
  }

  /* ----- how a task moves ----- */

  /** Across any step a task stands still or climbs; only its own reconciliation takes it back, to the queue. */
  lemma {:induction false} StepMoves(cfg: Config, s: State, now: nat, op: Op, t: nat)
    requires Inv(s) && t < |s.tasks|
    ensures t < |Step(cfg, s, now, op).0.tasks|
    ensures var task, task' := s.tasks[t], Step(cfg, s, now, op).0.tasks[t];
            && SameTask(task, task')
            && (Climbs(task, task')
                || (op == OpReconcile(t) && task.status == InterventionRequired && task'.status == Approved))
            && (op != OpReconcile(t) && !op.OpRestoreBackup? ==> StaysCancelled(task, task'))
  {
    hide Inv, Step, Linked, Evolves, Advances, LiveOwnsSlot, Careless, Reconcile, RestoreBackup;
    InvIsLinked(s);
    StepKeeps(cfg, s, now, op);
    var s' := Step(cfg, s, now, op).0;
    EvolvesTask(s, s', t);
    if op.OpReconcile? {
      StepIsReconcile(cfg, s, now, op.task);
      ReconcileMoves(s, op.task, t);
    } else if op.OpRestoreBackup? {
      StepIsBackup(cfg, s, now);
      BackupKeepsInv(s, now);
    } else {
      AdvancesTask(s, s', t);
    }
  }

  lemma EvolvesTask(s: State, s': State, t: nat)
    requires Evolves(s, s') && t < |s.tasks|
    ensures t < |s'.tasks| && SameTask(s.tasks[t], s'.tasks[t])
  {
  }

  lemma AdvancesTask(s: State, s': State, t: nat)
    requires Advances(s, s') && t < |s.tasks|
    ensures t < |s'.tasks| && Climbs(s.tasks[t], s'.tasks[t]) && StaysCancelled(s.tasks[t], s'.tasks[t])
  {
  }

  lemma ReconcileMoves(s: State, u: nat, t: nat)
    requires Linked(s) && t < |s.tasks|
    ensures t < |Reconcile(s, u).0.tasks|
    ensures Reconcile(s, u).0.tasks[t] == s.tasks[t]
            || (t == u && s.tasks[t].status == InterventionRequired && Reconcile(s, u).0.tasks[t].status == Approved)
  {
  }

  lemma StepIsReconcile(cfg: Config, s: State, now: nat, t: nat)
    requires Linked(s)
    ensures Step(cfg, s, now, OpReconcile(t)).0 == Reconcile(s, t).0
  {
  }

  lemma StepIsBackup(cfg: Config, s: State, now: nat)
    requires Linked(s)
    ensures Step(cfg, s, now, OpRestoreBackup).0 == RestoreBackup(s, now)
  {
  }

  /** A request for a task whose cancellation was asked for publishes nothing. */
  lemma CancelledNeverPublishes(cfg: Config, s: State, now: nat, op: Op)
    requires Inv(s) && IsAgentOp(op) && op.task < |s.tasks| && s.tasks[op.task].cancelRequestedAt.Some?
    ensures Step(cfg, s, now, op).0.store.published == s.store.published
  {
    hide Inv, Expire, Acknowledge, FailTask, FinishRestore, FinishCapture, Heartbeat, Progress, Upload;
    InvIsLinked(s);
    ExpirePublishesNothing(cfg, s, now);
    if Authorise(s, now, op.task, op.token, op.credential) == Granted {
      if op.OpFinish? {
        AcknowledgePublishesNothing(s, now, op.task, op.token, op.result.error);
      } else {
        OthersPublishNothing(cfg, s, now, op);
      }
    }
  }

  /** Nobody reopened the task, and no backup was recovered. */
  predicate Undisturbed(run: seq<Timed>, t: nat) {
    forall i :: 0 <= i < |run| ==> run[i].op != OpReconcile(t) && !run[i].op.OpRestoreBackup?
  }

  /**
   * Cancellation dominates: until the task is reconciled it can only stay in flight, be cancelled or need
   * intervention, and none of its requests publishes anything. One that was cancelled stays cancelled.
   */
  lemma {:induction false} CancellationDominates(cfg: Config, s: State, run: seq<Timed>, t: nat, i: nat)
    requires Inv(s) && t < |s.tasks| && s.tasks[t].cancelRequestedAt.Some? && Undisturbed(run, t) && i <= |run|
    ensures t < |Before(cfg, s, run, i).tasks|
    ensures var task := Before(cfg, s, run, i).tasks[t];
            && task.cancelRequestedAt.Some? && SameTask(s.tasks[t], task)
            && (InFlight(task.status) || task.status == Cancelled || task.status == InterventionRequired)
            && (s.tasks[t].status == Cancelled ==> task.status == Cancelled)
    ensures i < |run| && IsAgentOp(run[i].op) && run[i].op.task == t ==>
              Before(cfg, s, run, i + 1).store.published == Before(cfg, s, run, i).store.published
  {
    hide Inv, Step, After;
    if i == 0 {
      assert run[..0] == [];
    } else {
      CancellationDominates(cfg, s, run, t, i - 1);
      StepMoves(cfg, Before(cfg, s, run, i - 1), run[i - 1].now, run[i - 1].op, t);
      BeforeNext(cfg, s, run, i - 1);
      AfterIsStep(cfg, Before(cfg, s, run, i - 1), run[i - 1]);
    }
    TaskIsOk(Before(cfg, s, run, i), t);
    if i < |run| && IsAgentOp(run[i].op) && run[i].op.task == t {
      CancelledNeverPublishes(cfg, Before(cfg, s, run, i), run[i].now, run[i].op);
      BeforeNext(cfg, s, run, i);
      AfterIsStep(cfg, Before(cfg, s, run, i), run[i]);
    }
  }

  /** An accepted request cancels an unclaimed task at once, frees its host, and marks a claimed one. */
  lemma CancelRequested(s: State, now: nat, t: nat)
    requires Inv(s) && t < |s.tasks|
    ensures var (s', reply) := Cancel(s, now, t);
            && (reply == Accepted <==> Pending(s.tasks[t]))
            && (reply == Accepted ==> s'.tasks[t].cancelRequestedAt == Some(now))
            && (reply == Accepted && s.tasks[t].status == Approved ==>
                  && s'.tasks[t].status == Cancelled && s'.tasks[t].reservationKey.None? && s'.tasks[t].cancelAcknowledgedAt == Some(now)
                  && s'.events[|s'.events| - 1].kind == CancelledEvent)
            && (reply == Accepted && InFlight(s.tasks[t].status) ==>
                  && s'.tasks[t].status == s.tasks[t].status && s'.tasks[t].phase == Cancelling && s'.tasks[t].holdsSlot
                  && s'.events[|s'.events| - 1].kind == CancellationRequestedEvent)
            && (reply == Accepted && s.tasks[t].operation == Capture ==> s'.images[s.tasks[t].image].status != ImageStatus.Capturing)
            && (forall u :: 0 <= u < |s.tasks| && u != t ==> s'.tasks[u] == s.tasks[u]) && s'.attempts == s.attempts && s'.store == s.store
            && (reply != Accepted ==> s' == s)
  {
    TaskIsOk(s, t);
    hide Inv;
  }

  /* ----- how much can happen to a task ----- */

  /** Steps of a run that change the status of a task. */
  ghost function StatusChanges(cfg: Config, s: State, run: seq<Timed>, t: nat, n: nat): nat
    requires Inv(s) && n <= |run|
  {
    if n == 0 then 0
    else
      var before, after := Before(cfg, s, run, n - 1), Before(cfg, s, run, n);
      StatusChanges(cfg, s, run, t, n - 1)
      + if t < |before.tasks| && t < |after.tasks| && before.tasks[t].status != after.tasks[t].status then 1 else 0
  }

  /** Accepted reconciliations of a task. */
  ghost function Reconciliations(cfg: Config, s: State, run: seq<Timed>, t: nat, n: nat): nat
    requires Inv(s) && n <= |run|
  {
    if n == 0 then 0
    else
      var before := Before(cfg, s, run, n - 1);
      Reconciliations(cfg, s, run, t, n - 1)
      + if run[n - 1].op == OpReconcile(t) && t < |before.tasks| && before.tasks[t].status == InterventionRequired then 1 else 0
  }

  ghost function AttemptsOf(s: State, t: nat): nat { CountOf(s.attempts, t, |s.attempts|) }

  /** A step adds at most one task, in the queue, or one attempt, of a task it takes from the queue. */
  lemma {:induction false} StepAdds(cfg: Config, s: State, now: nat, op: Op)
    requires Inv(s)
    ensures var s' := Step(cfg, s, now, op).0;
            && |s.attempts| <= |s'.attempts| <= |s.attempts| + 1 && |s.tasks| <= |s'.tasks|
            && (forall a: nat :: a < |s.attempts| ==> s'.attempts[a].task == s.attempts[a].task)
            && (forall t: nat :: |s.tasks| <= t < |s'.tasks| ==> s'.tasks[t].status == Approved)
            && (|s.tasks| < |s'.tasks| ==> |s'.attempts| == |s.attempts|)
            && (|s.attempts| < |s'.attempts| ==>
                  var t := s'.attempts[|s.attempts|].task;
                  t < |s.tasks| && s.tasks[t].status == Approved && s'.tasks[t].status == Status.Assigned)
  {
    hide Inv, LiveOwnsSlot, Expire, Serve, Careless, KeyUsed, KeyUsedBy, HostReserved, Selectable, SessionUsed, SlotTaken, LastNumber,
         Cancel, CreateDraft, DeleteImage, Evolves, Keeps, InvalidateAttempt, InvalidateTask;
    InvIsLinked(s);
    StepKeeps(cfg, s, now, op);
    var s' := Step(cfg, s, now, op).0;
    EvolvesAttempts(s, s');
    if op.OpCancel? { CancelKeeps(cfg.hash, s, now, op.task); }
    if op.OpDraft? { DraftKeeps(cfg.hash, s, now, op.valid); }
    if op.OpDelete? { DeleteKeeps(cfg.hash, s, now, op.image); }
    if op.OpRestoreBackup? { BackupReachesAll(s, now); }
    if IsAgentOp(op) { AgentKeeps(cfg, s, now, op); }
  }

  lemma EvolvesAttempts(s: State, s': State)
    requires Evolves(s, s')
    ensures |s.tasks| <= |s'.tasks| && |s.attempts| <= |s'.attempts|
    ensures forall a: nat :: a < |s.attempts| ==> s'.attempts[a].task == s.attempts[a].task
  {
    assert forall a :: 0 <= a < |s.attempts| ==> Grows(s.attempts[a], s'.attempts[a]);
  }

  /** The progress measure of a task: where it stands, with five climbs to spend after every reconciliation. */
  lemma {:induction false} StepMeasure(cfg: Config, s: State, now: nat, op: Op, t: nat)
    requires Inv(s) && t < |s.tasks|
    ensures t < |Step(cfg, s, now, op).0.tasks|
    ensures var s' := Step(cfg, s, now, op).0;
            var reopened := if op == OpReconcile(t) && s.tasks[t].status == InterventionRequired then 1 else 0;
            var changed := if s.tasks[t].status != s'.tasks[t].status then 1 else 0;
            && StatusRank(s.tasks[t].status) + changed <= StatusRank(s'.tasks[t].status) + 5 * reopened
            && AttemptsOf(s', t) <= AttemptsOf(s, t) + 1
            && (AttemptsOf(s', t) > AttemptsOf(s, t) ==> s.tasks[t].status == Approved && s'.tasks[t].status != Approved)
            && (s.tasks[t].status != Approved && s'.tasks[t].status == Approved ==> reopened == 1)
  {
    hide Inv, Step, Linked;
    InvIsLinked(s);
    StepMoves(cfg, s, now, op, t);
    StepAdds(cfg, s, now, op);
    TaskIsOk(s, t);
    MoreAttempts(s.attempts, Step(cfg, s, now, op).0.attempts, t);
  }

  lemma MoreAttempts(attempts: seq<Attempt>, attempts': seq<Attempt>, t: nat)
    requires |attempts| <= |attempts'| <= |attempts| + 1
    requires forall a: nat :: a < |attempts| ==> attempts'[a].task == attempts[a].task
    ensures CountOf(attempts', t, |attempts'|) == CountOf(attempts, t, |attempts|)
              + if |attempts| < |attempts'| && attempts'[|attempts|].task == t then 1 else 0
  {
    CountFrame(attempts, attempts', t, |attempts|);
  }

  lemma {:induction false} NoAttempts(attempts: seq<Attempt>, t: nat, n: nat)
    requires n <= |attempts| && forall a :: 0 <= a < n ==> attempts[a].task != t
    ensures CountOf(attempts, t, n) == 0
  {
    if n > 0 { NoAttempts(attempts, t, n - 1); }
  }

  lemma Newborn(cfg: Config, s: State, e: Timed, t: nat)
    requires Inv(s) && |s.tasks| <= t < |After(cfg, s, e).tasks|
    ensures After(cfg, s, e).tasks[t].status == Approved && AttemptsOf(After(cfg, s, e), t) == 0
  {
    StepAdds(cfg, s, e.now, e.op);
    hide Step;
    var s' := After(cfg, s, e);
    NoAttempts(s'.attempts, t, |s'.attempts|);
  }

  /** Before a task exists it has no history. */
  lemma {:induction false} NothingYet(cfg: Config, run: seq<Timed>, t: nat, n: nat)
    requires n <= |run| && |Before(cfg, EMPTY, run, n).tasks| <= t
    ensures StatusChanges(cfg, EMPTY, run, t, n) == 0 && Reconciliations(cfg, EMPTY, run, t, n) == 0
  {
    hide Inv, Step, After;
    EmptyIsInv();
    if n > 0 {
      var before, e := Before(cfg, EMPTY, run, n - 1), run[n - 1];
      BeforeNext(cfg, EMPTY, run, n - 1);
      AfterIsStep(cfg, before, e);
      StepAdds(cfg, before, e.now, e.op);
      NothingYet(cfg, run, t, n - 1);
    }
  }

  /** Over any run from nothing: at most 5 * (reconciliations + 1) status changes, and one attempt more than reconciliations. */
  lemma {:induction false} RunMeasure(cfg: Config, run: seq<Timed>, t: nat, n: nat)
    requires n <= |run| && t < |Before(cfg, EMPTY, run, n).tasks|
    ensures var task := Before(cfg, EMPTY, run, n).tasks[t];
            var reopened := Reconciliations(cfg, EMPTY, run, t, n);
            && 1 + StatusChanges(cfg, EMPTY, run, t, n) <= StatusRank(task.status) + 5 * reopened
            && AttemptsOf(Before(cfg, EMPTY, run, n), t) <= reopened + (if task.status == Approved then 0 else 1)
  {
    hide Inv, Step, After, AttemptsOf;
    EmptyIsInv();
    if n > 0 {
      var before, e := Before(cfg, EMPTY, run, n - 1), run[n - 1];
      BeforeNext(cfg, EMPTY, run, n - 1);
      AfterIsStep(cfg, before, e);
      if t < |before.tasks| {
        RunMeasure(cfg, run, t, n - 1);
        StepMeasure(cfg, before, e.now, e.op, t);
      } else {
        Newborn(cfg, before, e, t);
        NothingYet(cfg, run, t, n - 1);
      }
    }
  }

  ghost predicate NumberUsed(attempts: seq<Attempt>, t: nat, n: nat, k: nat)
    requires n <= |attempts|
  {
    exists a: nat :: a < n && attempts[a].task == t && attempts[a].number == k
  }

  /** Attempt numbers of a task are exactly 1, 2, ..., n. */
  lemma {:induction false} NumbersAreExact(attempts: seq<Attempt>, t: nat, n: nat, k: nat)
    requires Numbered(attempts) && n <= |attempts|
    ensures NumberUsed(attempts, t, n, k) <==> 1 <= k <= CountOf(attempts, t, n)
  {
    if n > 0 {
      NumbersAreExact(attempts, t, n - 1, k);
      if NumberUsed(attempts, t, n - 1, k) {
        var a: nat :| a < n - 1 && attempts[a].task == t && attempts[a].number == k;
        assert NumberUsed(attempts, t, n, k);
      }
    }
  }

  lemma {:induction false} CountGrows(attempts: seq<Attempt>, t: nat, m: nat, n: nat)
    requires m <= n <= |attempts|
    ensures CountOf(attempts, t, m) <= CountOf(attempts, t, n)
    decreases n
  {
    if m < n { CountGrows(attempts, t, m, n - 1); }
  }

  /** And each is used once: later attempts of a task have higher numbers. */
  lemma NumbersAscend(attempts: seq<Attempt>, a: nat, b: nat)
    requires Numbered(attempts) && a < b < |attempts| && attempts[a].task == attempts[b].task
    ensures attempts[a].number < attempts[b].number
  {
    CountGrows(attempts, attempts[a].task, a + 1, b);
  }

  /** A task's status changes and attempts are bounded by its reconciliations. */
  lemma {:induction false} BoundedHistory(cfg: Config, run: seq<Timed>, t: nat)
    requires t < |Run(cfg, EMPTY, run).tasks|
    ensures var reopened := Reconciliations(cfg, EMPTY, run, t, |run|);
            && StatusChanges(cfg, EMPTY, run, t, |run|) <= 5 * (reopened + 1)
            && AttemptsOf(Run(cfg, EMPTY, run), t) <= reopened + 1
  {
    hide Inv, After, AttemptsOf;
    EmptyIsInv();
    assert run[..|run|] == run;
    RunMeasure(cfg, run, t, |run|);
  }

  /* ----- the life of an attempt ----- */

  /** Nothing is lost along a run: rows stay, attempts only grow, the log only gets longer. */
  lemma {:induction false} RunEvolves(cfg: Config, s: State, run: seq<Timed>)
    requires Inv(s)
    ensures Evolves(s, Run(cfg, s, run))
    decreases |run|
  {
    hide Inv, Evolves, After;
    if run == [] {
      NothingEvolves(s);
    } else {
      var before, e := Run(cfg, s, run[..|run| - 1]), run[|run| - 1];
      RunEvolves(cfg, s, run[..|run| - 1]);
      StepKeeps(cfg, before, e.now, e.op);
      AfterIsStep(cfg, before, e);
      EvolvesTransitive(s, before, Run(cfg, s, run));
    }
  }

  /** A finished attempt never revives: whatever happens, its lease is never extended and it stays finished. */
  lemma {:induction false} FinishedForever(cfg: Config, s: State, run: seq<Timed>, a: nat)
    requires Inv(s) && a < |s.attempts| && s.attempts[a].finishedAt.Some?
    ensures var s' := Run(cfg, s, run);
            && a < |s'.attempts| && s'.attempts[a].finishedAt.Some? && Settled(s'.attempts[a].phase)
            && s'.attempts[a].leaseExpiresAt == s.attempts[a].leaseExpiresAt
            && s'.attempts[a].bytesProcessed >= s.attempts[a].bytesProcessed
            && forall now: nat :: s.attempts[a].leaseExpiresAt <= now ==>
                                    !Honoured(s'.tasks[s'.attempts[a].task], s'.attempts[a], now)
  {
    RunEvolves(cfg, s, run);
    var s' := Run(cfg, s, run);
    assert Grows(s.attempts[a], s'.attempts[a]) && AttemptOk(s'.attempts[a], s'.tasks[s'.attempts[a].task]);
    hide Inv, Run;
  }

  /** Every report on a finished attempt is refused, whatever it says. */
  lemma FinishedIsSilent(cfg: Config, s: State, now: nat, t: nat, a: nat, phase: Phase, bytes: nat, total: Option<nat>)
    requires Inv(s) && Owns(s, t, a) && s.attempts[a].finishedAt.Some?
    ensures TouchRows(cfg, now, RowsOf(s, t, a), phase, bytes, total).None?
  {
    RowsAreOk(s, t, a);
    hide Inv;
    InvIsLinked(s);
  }

  /* ----- events ----- */

  /** No attempt ever logs a sequence number twice, and its numbers are logged in increasing order. */
  lemma {:induction false} SequencesNeverRepeat(cfg: Config, run: seq<Timed>, i: nat, j: nat)
    requires i < j < |Run(cfg, EMPTY, run).events|
    requires var events := Run(cfg, EMPTY, run).events; events[i].attempt.Some? && events[i].attempt == events[j].attempt
    ensures var s := Run(cfg, EMPTY, run);
            && s.events[i].attempt.value < |s.attempts|
            && s.events[i].sequence.Some? && s.events[j].sequence.Some?
            && s.events[i].sequence.value < s.events[j].sequence.value <= s.attempts[s.events[i].attempt.value].lastSequence
  {
    var s := Run(cfg, EMPTY, run);
    hide Run, NewestUnfinished, Numbered, OneSlot, OneTaskPerHost;
    assert EventOk(s.attempts, s.events[i]) && EventOk(s.attempts, s.events[j]);
  }

  /** Nothing was logged under the sequence but this very report. */
  predicate SaysTheSame(events: seq<Event>, a: nat, sequence: nat, phase: Phase, bytes: nat, total: Option<nat>, message: string) {
    forall k :: 0 <= k < |events| && events[k].attempt == Some(a) && events[k].sequence == Some(sequence) ==>
      events[k].phase == phase && events[k].bytesProcessed == bytes && events[k].totalBytes == total && events[k].message == message
  }

  /**
   * A progress report at or below the high-water mark changes nothing at all. It is answered as a repeat if and only if
   * its phase is one an agent may report and nothing else was logged under its number; else it is a conflict.
   */
  lemma {:induction false} LateProgressIsIgnored(cfg: Config, s: State, now: nat, t: nat, a: nat,
                                                 sequence: nat, phase: Phase, bytes: nat, total: Option<nat>, message: string)
    requires Inv(s) && Linked(s) && Owns(s, t, a) && sequence <= s.attempts[a].lastSequence
    ensures Progress(cfg, s, now, t, a, sequence, phase, bytes, total, message)
            == (s, if phase !in {Queued, Completed, Phase.Failed, Unrecognised}
                      && SaysTheSame(s.events, a, sequence, phase, bytes, total, message) then Unchanged else Conflict)
  {
    hide Inv, ProgressRows, EventsOk, FindEvent;
    InvIsEventsOk(s);
    LoggedOnce(s.events, s.attempts, a, sequence);
  }

  /** The event found under a sequence is the only one. */
  lemma LoggedOnce(events: seq<Event>, attempts: seq<Attempt>, a: nat, sequence: nat)
    requires EventsOk(attempts, events)
    ensures forall k :: 0 <= k < |events| && events[k].attempt == Some(a) && events[k].sequence == Some(sequence) ==>
              FindEvent(events, a, sequence) == Some(events[k])
    ensures FindEvent(events, a, sequence).Some? ==>
              exists k :: 0 <= k < |events| && events[k].attempt == Some(a) && events[k].sequence == Some(sequence)
                          && FindEvent(events, a, sequence) == Some(events[k])
  {
    hide EventsOk;
    forall k | 0 <= k < |events| && events[k].attempt == Some(a) && events[k].sequence == Some(sequence)
      ensures FindEvent(events, a, sequence) == Some(events[k])
    {
      FindLogged(events, attempts, k);
    }
  }

  lemma FindLogged(events: seq<Event>, attempts: seq<Attempt>, k: nat)
    requires EventsOk(attempts, events) && k < |events| && events[k].attempt.Some? && events[k].sequence.Some?
    ensures FindEvent(events, events[k].attempt.value, events[k].sequence.value) == Some(events[k])
  {
    var r := FindEvent(events, events[k].attempt.value, events[k].sequence.value);
    var j :| 0 <= j < |events| && events[j] == r.value;
    if j != k { assert EventOk(attempts, events[j]) && EventOk(attempts, events[k]); }
  }

  /**
   * Repeating an accepted report changes nothing; it is recognised as a repeat exactly when cleaning left the
   * message alone, because the stored message is compared with the raw one.
   */
  lemma {:induction false} ExactReplay(cfg: Config, s: State, now: nat, later: nat, t: nat, a: nat,
                                       sequence: nat, phase: Phase, bytes: nat, total: Option<nat>, message: string)
    requires Inv(s) && Authorised(s, now, t, a)
    requires Progress(cfg, s, now, t, a, sequence, phase, bytes, total, message).1 == Accepted
    ensures var s1 := Progress(cfg, s, now, t, a, sequence, phase, bytes, total, message).0;
            && Linked(s1) && Owns(s1, t, a)
            && Progress(cfg, s1, later, t, a, sequence, phase, bytes, total, message)
               == (s1, if SafeMessage(message) == message then Unchanged else Conflict)
  {
    hide Inv, EventsOk, FindEvent, Serves;
    InvIsLinked(s);
    var s1 := Progress(cfg, s, now, t, a, sequence, phase, bytes, total, message).0;
    ProgressServes(cfg, s, now, t, a, sequence, phase, bytes, total, message);
    ServesIsInv(cfg.hash, s, s1, now, true);
    InvIsLinked(s1);
    InvIsEventsOk(s1);
    FindLogged(s1.events, s1.attempts, |s1.events| - 1);
  }

  /** A message with a leading, doubled or unusual blank is a conflict when its accepted report is repeated. */
  lemma {:induction false} UntidyReplayConflicts(cfg: Config, s: State, now: nat, later: nat, t: nat, a: nat,
                                                 sequence: nat, phase: Phase, bytes: nat, total: Option<nat>, message: string)
    requires Inv(s) && Authorised(s, now, t, a) && !Tidy(message)
    requires Progress(cfg, s, now, t, a, sequence, phase, bytes, total, message).1 == Accepted
    ensures var s1 := Progress(cfg, s, now, t, a, sequence, phase, bytes, total, message).0;
            && Linked(s1) && Owns(s1, t, a)
            && Progress(cfg, s1, later, t, a, sequence, phase, bytes, total, message) == (s1, Conflict)
  {
    hide Inv, Progress, SafeMessage;
    InvIsLinked(s);
    ExactReplay(cfg, s, now, later, t, a, sequence, phase, bytes, total, message);
    UntidyIsChanged(message);
  }

  lemma InvIsEventsOk(s: State)
    requires Inv(s)
    ensures EventsOk(s.attempts, s.events)
  {
  }
}
