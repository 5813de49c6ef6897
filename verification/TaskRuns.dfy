/** Runs of the coordinator: any requests, in any order, at non-decreasing times. */
module TaskRuns {
  import opened Bytes
  import opened Storage
  import opened TaskModel
  import opened TaskSteps
  import opened TaskInvariants
  import opened TaskPreservation
  import opened TaskRequests
  import opened TaskOperations

  /* ----- one step ----- */

  /** Steps that may take a task backwards or a cancellation back. */
  predicate Reopens(op: Op) { op.OpReconcile? || op.OpRestoreBackup? }

  /** The one kind of step after which two agents may both hold an honoured capability. */
  ghost predicate Careless(s: State, now: nat, op: Op) {
    op.OpReconcile? && OverEager(s, now, op.task)
  }

  /** A recovered backup catches a capture at work: its image is left capturing for the operator. */
  predicate CaughtCapturing(s: State) {
    exists t :: 0 <= t < |s.tasks| && s.tasks[t].operation == Capture && InFlight(s.tasks[t].status) && Pending(s.tasks[t])
  }

  /** The steps that break the catalogue, told by the request and the state it finds. */
  predicate Breaks(cfg: Config, s: State, now: nat, op: Op)
    requires Linked(s)
  {
    if op.OpRestoreBackup? then CaughtCapturing(s) else Orphaning(cfg, s, now, op)
  }

  lemma KeepsParts(h: Hash, s: State, s': State, now: nat, calm: bool)
    requires Keeps(h, s, s', now, calm)
    ensures Linked(s) && Inv(s') && Linked(s') && Advances(s, s') && Evolves(s, s')
    ensures LiveOwnsSlot(s, now) ==> LiveOwnsSlot(s', now)
    ensures calm && Catalogue(h, s) ==> Catalogue(h, s')
  {
  }

  /** Every step keeps the invariant; all but reconciliation and backups only move forward. */
  lemma {:induction false} StepKeeps(cfg: Config, s: State, now: nat, op: Op)
    requires Inv(s)
    ensures var s' := Step(cfg, s, now, op).0;
            && Inv(s') && Linked(s') && Evolves(s, s')
            && (!Reopens(op) ==> Advances(s, s'))
            && (LiveOwnsSlot(s, now) ==> (LiveOwnsSlot(s', now) <==> !Careless(s, now, op)))
  {
    hide Inv, Keeps, Evolves, Advances, LiveOwnsSlot, OverEager, CreateDraft, CreateCapture, CreateDeployment, Claim, Cancel, Reconcile,
         DeleteImage, Expire, RestoreBackup, LiveBackup;
    InvIsLinked(s);
    var s' := Step(cfg, s, now, op).0;
    match op
    case OpDraft(valid) =>
      DraftKeeps(cfg.hash, s, now, valid);
      KeepsParts(cfg.hash, s, s', now, true);
    case OpCapture(user, host, draft, report, key, total, valid) =>
      CreateCaptureKeeps(cfg.hash, s, now, user, host, draft, report, key, total, valid);
      KeepsParts(cfg.hash, s, s', now, true);
    case OpDeploy(user, host, clone, image, report, key, valid) =>
      CreateDeploymentKeeps(cfg.hash, s, now, user, host, clone, image, report, key, valid);
      KeepsParts(cfg.hash, s, s', now, true);
    case OpClaim(host, session, capable) =>
      ClaimKeeps(cfg.hash, cfg, s, now, host, session, capable);
      KeepsParts(cfg.hash, s, s', now, true);
    case OpCancel(t) =>
      CancelKeeps(cfg.hash, s, now, t);
      KeepsParts(cfg.hash, s, s', now, true);
    case OpReconcile(t) =>
      ReconcileKeeps(cfg.hash, s, now, t);
      InvIsLinked(s');
    case OpDelete(i) =>
      DeleteKeeps(cfg.hash, s, now, i);
      KeepsParts(cfg.hash, s, s', now, true);
    case OpExpire =>
      ExpireKeeps(cfg.hash, cfg, s, now);
      KeepsParts(cfg.hash, s, s', now, true);
    case OpRestoreBackup =>
      BackupKeepsInv(s, now);
      LiveBackupParts(s, s', now);
    case _ =>
      AgentKeeps(cfg, s, now, op);
      KeepsParts(cfg.hash, s, s', now, !Orphaning(cfg, s, now, op));
  }

  lemma LiveBackupParts(s: State, s': State, now: nat)
    requires Linked(s) && Linked(s') && LiveBackup(s, s', now)
    ensures LiveOwnsSlot(s, now) ==> LiveOwnsSlot(s', now)
  {
  }

  /** What invalidation keeps of a task, as far as its image is concerned. */
  predicate SameForImage(task: Task, task': Task) {
    && task'.operation == task.operation && task'.image == task.image
    && (Active(task'.status) <==> Active(task.status))
    && (task'.status == Succeeded <==> task.status == Succeeded)
    && (Pending(task') <==> Pending(task) && !InFlight(task.status))
  }

  lemma InvalidatedRow(task: Task)
    ensures SameForImage(task, Invalidated(task))
  {
  }

  /** Same images, same captures: the tasks agree with them exactly when the same captures are pending. */
  lemma BackupTasks(s: State, s': State)
    requires Linked(s) && Linked(s') && TasksMatchImages(s)
    requires |s'.tasks| == |s.tasks| && s'.images == s.images
    requires forall t :: 0 <= t < |s.tasks| ==> SameForImage(s.tasks[t], s'.tasks[t])
    ensures TasksMatchImages(s') <==> !CaughtCapturing(s)
  {
    hide Active, Pending, InFlight;
    if CaughtCapturing(s) {
      var t :| 0 <= t < |s.tasks| && s.tasks[t].operation == Capture && InFlight(s.tasks[t].status) && Pending(s.tasks[t]);
      assert !Pending(s'.tasks[t]) && s.images[s.tasks[t].image].status == ImageStatus.Capturing;
    } else {
      forall i: nat | i < |s'.images| && s'.images[i].status != ImageStatus.Draft ensures exists u :: CaptureOf(s', u, i) {
        assert CaptureOf(s', CapturerOf(s, i), i);
      }
    }
  }

  /** A backup keeps the catalogue exactly when it catches no capture at work. */
  lemma BackupCatalogue(h: Hash, s: State, now: nat)
    requires Inv(s) && Catalogue(h, s)
    ensures Linked(RestoreBackup(s, now)) && (Catalogue(h, RestoreBackup(s, now)) <==> !CaughtCapturing(s))
  {
    hide Inv, TasksMatchImages, StoreMatchesImages, CaughtCapturing, InvalidateAttempt, InvalidateTask, TaskOk, Invalidated;
    InvIsLinked(s);
    var s' := RestoreBackup(s, now);
    BackupReachesAll(s, now);
    forall t | 0 <= t < |s.tasks| ensures SameForImage(s.tasks[t], s'.tasks[t]) { InvalidatedRow(s.tasks[t]); }
    BackupKeepsInv(s, now);
    BackupTasks(s, s');
    SameImagesSameStore(h, s, s');
  }

  /** Tasks, images and store stay in agreement across a step exactly when it is not one of the breaking ones. */
  lemma {:induction false} StepCatalogue(cfg: Config, s: State, now: nat, op: Op)
    requires Inv(s) && Catalogue(cfg.hash, s)
    ensures Linked(Step(cfg, s, now, op).0)
    ensures Catalogue(cfg.hash, Step(cfg, s, now, op).0) <==> !Breaks(cfg, s, now, op)
  {
    hide Inv, Keeps, Evolves, Advances, LiveOwnsSlot, OverEager, CreateDraft, CreateCapture, CreateDeployment, Claim, Cancel, Reconcile,
         DeleteImage, Expire, RestoreBackup, LiveBackup, Catalogue, CaughtCapturing;
    InvIsLinked(s);
    var s' := Step(cfg, s, now, op).0;
    match op
    case OpDraft(valid) =>
      DraftKeeps(cfg.hash, s, now, valid);
      KeepsParts(cfg.hash, s, s', now, true);
    case OpCapture(user, host, draft, report, key, total, valid) =>
      CreateCaptureKeeps(cfg.hash, s, now, user, host, draft, report, key, total, valid);
      KeepsParts(cfg.hash, s, s', now, true);
    case OpDeploy(user, host, clone, image, report, key, valid) =>
      CreateDeploymentKeeps(cfg.hash, s, now, user, host, clone, image, report, key, valid);
      KeepsParts(cfg.hash, s, s', now, true);
    case OpClaim(host, session, capable) =>
      ClaimKeeps(cfg.hash, cfg, s, now, host, session, capable);
      KeepsParts(cfg.hash, s, s', now, true);
    case OpCancel(t) =>
      CancelKeeps(cfg.hash, s, now, t);
      KeepsParts(cfg.hash, s, s', now, true);
    case OpReconcile(t) =>
      ReconcileKeeps(cfg.hash, s, now, t);
      InvIsLinked(s');
    case OpDelete(i) =>
      DeleteKeeps(cfg.hash, s, now, i);
      KeepsParts(cfg.hash, s, s', now, true);
    case OpExpire =>
      ExpireKeeps(cfg.hash, cfg, s, now);
      KeepsParts(cfg.hash, s, s', now, true);
    case OpRestoreBackup =>
      BackupCatalogue(cfg.hash, s, now);
    case _ =>
      AgentKeeps(cfg, s, now, op);
      KeepsParts(cfg.hash, s, s', now, !Orphaning(cfg, s, now, op));
  }

  /** While capabilities go with the slot, only a backup can break the catalogue. */
  lemma OwnersNeverBreak(cfg: Config, s: State, now: nat, op: Op)
    requires Inv(s) && LiveOwnsSlot(s, now) && !op.OpRestoreBackup?
    ensures !Breaks(cfg, s, now, op)
  {
    hide Inv, LiveOwnsSlot, Publishing;
    InvIsLinked(s);
    if Breaks(cfg, s, now, op) {
      GrantedIsAuthorised(s, now, op.task, op.token, op.credential);
      LiveIsInFlight(s, now, op.task, op.token);
    }
  }

  /* ----- leases of tasks that wait for the operator ----- */

  /** No agent still holds a lease of a task that waits for the operator. */
  ghost predicate Stopped(s: State, now: nat)
    requires Linked(s)
  {
    forall a :: 0 <= a < |s.attempts| && s.tasks[s.attempts[a].task].status == InterventionRequired ==>
                  s.attempts[a].leaseExpiresAt <= now
  }

  lemma StoppedIsCareful(s: State, now: nat, op: Op)
    requires Linked(s) && Stopped(s, now)
    ensures !Careless(s, now, op)
  {
  }

  lemma QuietStops(s: State, s': State, now: nat)
    requires Linked(s) && Linked(s') && Stopped(s, now) && Quiet(s, s') && Evolves(s, s')
    ensures Stopped(s', now)
  {
    forall a | 0 <= a < |s'.attempts| && s'.tasks[s'.attempts[a].task].status == InterventionRequired
      ensures s'.attempts[a].leaseExpiresAt <= now
    {
      assert Grows(s.attempts[a], s'.attempts[a]);
    }
  }

  /** Restricted to newest attempts, the expiry query only stops tasks none of whose leases is running. */
  lemma {:induction false} ExpireStops(cfg: Config, s: State, now: nat)
    requires Inv(s) && cfg.newestOnly && LiveOwnsSlot(s, now) && Stopped(s, now)
    ensures Linked(Expire(cfg, s, now)) && Stopped(Expire(cfg, s, now), now)
  {
    var s' := Expire(cfg, s, now);
    ExpireKeeps(cfg.hash, cfg, s, now);
    hide Keeps, Expire, Inv;
    forall a: nat | a < |s'.attempts| && s'.tasks[s'.attempts[a].task].status == InterventionRequired
      ensures s'.attempts[a].leaseExpiresAt <= now
    {
      var t := s.attempts[a].task;
      if s'.tasks[t] != s.tasks[t] {
        ExpireSelects(cfg, s, now, t);
        ExpiredTask(cfg, s, now, t, a);
      }
    }
  }

  lemma ExpiredTask(cfg: Config, s: State, now: nat, t: nat, a: nat)
    requires Linked(s) && cfg.newestOnly && LiveOwnsSlot(s, now) && Owns(s, t, a)
    requires exists b: nat :: Owns(s, t, b) && Stale(cfg, s, now, b)
    ensures s.attempts[a].leaseExpiresAt <= now
  {
    var b: nat :| Owns(s, t, b) && Stale(cfg, s, now, b);
    assert !Honoured(s.tasks[s.attempts[a].task], s.attempts[a], now) || IsNewest(s.attempts, a);
  }

  lemma ClaimStops(cfg: Config, s: State, now: nat, host: nat, session: nat, capable: bool)
    requires Linked(s) && Stopped(s, now)
    ensures Linked(Claim(cfg, s, now, host, session, capable).0)
    ensures Stopped(Claim(cfg, s, now, host, session, capable).0, now)
  {
    hide LastNumber, SessionUsed, SlotTaken;
  }

  lemma CreationStops(s: State, now: nat, task: Task, images: seq<Image>, more: seq<Event>)
    requires Linked(s) && Stopped(s, now) && |s.images| <= |images| && task.image < |images|
    ensures Linked(Created(s, task, images, more)) && Stopped(Created(s, task, images, more), now)
  {
  }

  /** With the restricted query and no recovered backup, every step leaves waiting tasks without a running lease. */
  lemma {:induction false} StepStops(cfg: Config, s: State, now: nat, op: Op)
    requires Inv(s) && cfg.newestOnly && !op.OpRestoreBackup? && LiveOwnsSlot(s, now) && Stopped(s, now)
    ensures Linked(Step(cfg, s, now, op).0) && Stopped(Step(cfg, s, now, op).0, now)
  {
    hide Inv, Keeps, Evolves, LiveOwnsSlot, Stopped, Quiet, Cancel, CreateDraft, DeleteImage, Expire, Serve, Claim, Careless,
         KeyUsed, KeyUsedBy, HostReserved, Selectable;
    InvIsLinked(s);
    var s' := Step(cfg, s, now, op).0;
    StepKeeps(cfg, s, now, op);
    match op
    case OpDraft(valid) => DraftKeeps(cfg.hash, s, now, valid); QuietStops(s, s', now);
    case OpCapture(user, host, draft, report, key, total, valid) =>
      if s' != s {
        var images := if draft.Some? then s.images else s.images + [DRAFT];
        var i := if draft.Some? then draft.value else |s.images|;
        CreationStops(s, now, NewTask(Capture, user, host, i, report, key, total, now),
                      images[i := images[i].(status := ImageStatus.Capturing)], CreationEvents(|s.tasks|, total));
      }
    case OpDeploy(user, host, clone, i, report, key, valid) =>
      if s' != s {
        DeployedImage(s, i);
        var total := DeclaredSize(s.images[i].manifest.value.artifacts);
        CreationStops(s, now, NewTask(if clone then Clone else Restore, user, host, i, report, key, total, now),
                      s.images, CreationEvents(|s.tasks|, total));
      }
    case OpClaim(host, session, capable) => ClaimStops(cfg, s, now, host, session, capable);
    case OpCancel(t) => CancelKeeps(cfg.hash, s, now, t); QuietStops(s, s', now);
    case OpReconcile(t) => ReconcileStops(s, now, t);
    case OpDelete(i) => DeleteKeeps(cfg.hash, s, now, i); QuietStops(s, s', now);
    case OpExpire => ExpireStops(cfg, s, now);
    case OpRestoreBackup =>
    case _ =>
      AgentKeeps(cfg, s, now, op);
      ExpireStops(cfg, s, now);
      if s' != Expire(cfg, s, now) { QuietStops(s, s', now); }
  }

  lemma DeployedImage(s: State, i: nat)
    requires Selectable(s, i)
    ensures i < |s.images| && s.images[i].manifest.Some?
  {
  }

  lemma ReconcileStops(s: State, now: nat, t: nat)
    requires Linked(s) && Stopped(s, now)
    ensures Linked(Reconcile(s, t).0) && Stopped(Reconcile(s, t).0, now)
  {
  }

  /* ----- runs ----- */

  datatype Timed = At(now: nat, op: Op)

  ghost function After(cfg: Config, s: State, e: Timed): State
    requires Linked(s)
  {
    Step(cfg, s, e.now, e.op).0
  }

  /** The state after a run. Every reachable state satisfies the joint invariant. */
  ghost function Run(cfg: Config, s: State, run: seq<Timed>): (s': State)
    requires Inv(s)
    ensures Inv(s') && Linked(s')
    decreases |run|
  {
    InvIsLinked(s);
    if run == [] then s
    else
      var before := Run(cfg, s, run[..|run| - 1]);
      var e := run[|run| - 1];
      StepKeeps(cfg, before, e.now, e.op);
      After(cfg, before, e)
  }

  lemma EmptyIsInv()
    ensures Inv(EMPTY) && Linked(EMPTY)
    ensures forall now :: LiveOwnsSlot(EMPTY, now) && Stopped(EMPTY, now)
    ensures forall h :: Catalogue(h, EMPTY)
  {
  }

  /** The state after a run that starts from nothing. */
  ghost function Reached(cfg: Config, run: seq<Timed>): (s: State)
    ensures Inv(s) && Linked(s)
  {
    EmptyIsInv();
    Run(cfg, EMPTY, run)
  }

  /** The state in which step `i` of a run finds the coordinator. */
  ghost function Before(cfg: Config, s: State, run: seq<Timed>, i: nat): (s': State)
    requires Inv(s) && i <= |run|
    ensures Inv(s') && Linked(s')
  {
    Run(cfg, s, run[..i])
  }

  lemma BeforeNext(cfg: Config, s: State, run: seq<Timed>, i: nat)
    requires Inv(s) && i < |run|
    ensures Before(cfg, s, run, i + 1) == After(cfg, Before(cfg, s, run, i), run[i])
  {
    assert run[..i + 1][..i] == run[..i];
  }

  /** Time never goes backwards, and `now` is not before any step. */
  predicate Ordered(run: seq<Timed>, now: nat) {
    && (forall i, j :: 0 <= i < j < |run| ==> run[i].now <= run[j].now)
    && forall i :: 0 <= i < |run| ==> run[i].now <= now
  }

  /** No reconciliation was confirmed while an agent could still hold a lease of its task. */
  ghost predicate Carefully(cfg: Config, s: State, run: seq<Timed>)
    requires Inv(s)
  {
    forall i: nat :: i < |run| ==> !Careless(Before(cfg, s, run, i), run[i].now, run[i].op)
  }

  ghost predicate CarefullyReached(cfg: Config, run: seq<Timed>) {
    EmptyIsInv();
    Carefully(cfg, EMPTY, run)
  }

  predicate WithoutBackup(run: seq<Timed>) {
    forall i :: 0 <= i < |run| ==> !run[i].op.OpRestoreBackup?
  }

  lemma LaterIsOwned(s: State, now: nat, later: nat)
    requires Linked(s) && LiveOwnsSlot(s, now) && now <= later
    ensures LiveOwnsSlot(s, later)
    ensures Stopped(s, now) ==> Stopped(s, later)
  {
    forall a | 0 <= a < |s.attempts| && Honoured(s.tasks[s.attempts[a].task], s.attempts[a], later)
      ensures InFlight(s.tasks[s.attempts[a].task].status) && IsNewest(s.attempts, a)
    {
      assert Honoured(s.tasks[s.attempts[a].task], s.attempts[a], now);
    }
  }

  /** At most one capability in the whole system is honoured. */
  ghost predicate OneHonoured(s: State, now: nat)
    requires Linked(s)
  {
    forall a: nat, b: nat ::
      (&& a < |s.attempts| && b < |s.attempts|
       && Honoured(s.tasks[s.attempts[a].task], s.attempts[a], now)
       && Honoured(s.tasks[s.attempts[b].task], s.attempts[b], now)) ==> a == b
  }

  lemma OwnersAreOne(s: State, now: nat)
    requires Inv(s) && LiveOwnsSlot(s, now)
    ensures OneHonoured(s, now)
  {
    hide NewestUnfinished, Numbered, EventsOk, OneTaskPerHost;
    forall a: nat, b: nat | && a < |s.attempts| && b < |s.attempts|
                            && Honoured(s.tasks[s.attempts[a].task], s.attempts[a], now)
                            && Honoured(s.tasks[s.attempts[b].task], s.attempts[b], now)
      ensures a == b
    {
      assert s.tasks[s.attempts[a].task].holdsSlot && s.tasks[s.attempts[b].task].holdsSlot;
    }
  }

  /** As long as a run has been careful, honoured capabilities go with the slot. */
  lemma {:induction false} OwnedBefore(cfg: Config, s: State, run: seq<Timed>, i: nat, now: nat)
    requires Inv(s) && i <= |run| && Ordered(run[..i], now)
    requires forall time :: LiveOwnsSlot(s, time)
    requires forall j: nat :: j < i ==> !Careless(Before(cfg, s, run, j), run[j].now, run[j].op)
    ensures LiveOwnsSlot(Before(cfg, s, run, i), now)
  {
    hide Inv, LiveOwnsSlot, Careless, After;
    if i == 0 {
      assert run[..0] == [];
    } else {
      var e := run[i - 1];
      assert run[..i][i - 1] == e;
      assert Ordered(run[..i - 1], e.now) by { EarlierIsOrdered(run[..i], now); assert run[..i][..i - 1] == run[..i - 1]; }
      OwnedBefore(cfg, s, run, i - 1, e.now);
      StepKeeps(cfg, Before(cfg, s, run, i - 1), e.now, e.op);
      BeforeNext(cfg, s, run, i - 1);
      AfterIsStep(cfg, Before(cfg, s, run, i - 1), e);
      LaterIsOwned(Before(cfg, s, run, i), e.now, now);
    }
  }

  lemma AfterIsStep(cfg: Config, s: State, e: Timed)
    requires Linked(s)
    ensures After(cfg, s, e) == Step(cfg, s, e.now, e.op).0
  {
  }

  lemma EarlierIsOrdered(run: seq<Timed>, now: nat)
    requires Ordered(run, now) && run != []
    ensures Ordered(run[..|run| - 1], run[|run| - 1].now)
    ensures run[|run| - 1].now <= now
  {
  }

  /**
   * Lease exclusivity over whole runs, however many reconciliations and recovered backups occur: as long as
   * no reconciliation is careless, at most one capability is honoured and it belongs to the slot's owner.
   */
  lemma {:induction false} LeaseExclusivity(cfg: Config, run: seq<Timed>, now: nat)
    requires Ordered(run, now) && Carefully(cfg, EMPTY, run)
    ensures LiveOwnsSlot(Run(cfg, EMPTY, run), now) && OneHonoured(Run(cfg, EMPTY, run), now)
  {
    hide Inv, LiveOwnsSlot, Careless, OneHonoured;
    EmptyIsInv();
    assert run[..|run|] == run;
    OwnedBefore(cfg, EMPTY, run, |run|, now);
    OwnersAreOne(Run(cfg, EMPTY, run), now);
  }

  /** The condition is exact: the first careless reconciliation is also the first loss of ownership. */
  lemma {:induction false} CarelessLosesOwnership(cfg: Config, run: seq<Timed>, i: nat)
    requires i < |run| && Ordered(run, run[|run| - 1].now)
    requires forall j: nat :: j < i ==> !Careless(Before(cfg, EMPTY, run, j), run[j].now, run[j].op)
    ensures LiveOwnsSlot(Before(cfg, EMPTY, run, i), run[i].now)
    ensures LiveOwnsSlot(Before(cfg, EMPTY, run, i + 1), run[i].now)
            <==> !Careless(Before(cfg, EMPTY, run, i), run[i].now, run[i].op)
  {
    hide Inv, LiveOwnsSlot, Careless, After;
    EmptyIsInv();
    OwnedBefore(cfg, EMPTY, run, i, run[i].now);
    StepKeeps(cfg, Before(cfg, EMPTY, run, i), run[i].now, run[i].op);
    BeforeNext(cfg, EMPTY, run, i);
    AfterIsStep(cfg, Before(cfg, EMPTY, run, i), run[i]);
  }

  /** With expiry restricted to newest attempts and no recovered backup, every run is careful on its own. */
  lemma {:induction false} NewestOnlyBefore(cfg: Config, run: seq<Timed>, i: nat, now: nat)
    requires cfg.newestOnly && WithoutBackup(run) && i <= |run| && Ordered(run[..i], now)
    ensures LiveOwnsSlot(Before(cfg, EMPTY, run, i), now) && Stopped(Before(cfg, EMPTY, run, i), now)
  {
    hide Inv, LiveOwnsSlot, Careless, Stopped, After;
    EmptyIsInv();
    if i == 0 {
      assert run[..0] == [];
    } else {
      var e := run[i - 1];
      var before := Before(cfg, EMPTY, run, i - 1);
      assert run[..i][i - 1] == e;
      assert Ordered(run[..i - 1], e.now) by { EarlierIsOrdered(run[..i], now); assert run[..i][..i - 1] == run[..i - 1]; }
      NewestOnlyBefore(cfg, run, i - 1, e.now);
      StepKeeps(cfg, before, e.now, e.op);
      StoppedIsCareful(before, e.now, e.op);
      StepStops(cfg, before, e.now, e.op);
      BeforeNext(cfg, EMPTY, run, i - 1);
      AfterIsStep(cfg, before, e);
      LaterIsOwned(Before(cfg, EMPTY, run, i), e.now, now);
    }
  }

  lemma {:induction false} NewestOnlyIsExclusive(cfg: Config, run: seq<Timed>, now: nat)
    requires cfg.newestOnly && WithoutBackup(run) && Ordered(run, now)
    ensures Carefully(cfg, EMPTY, run)
    ensures LiveOwnsSlot(Run(cfg, EMPTY, run), now) && OneHonoured(Run(cfg, EMPTY, run), now)
  {
    hide Inv, LiveOwnsSlot, Careless, Stopped, OneHonoured;
    EmptyIsInv();
    forall i: nat | i < |run| ensures !Careless(Before(cfg, EMPTY, run, i), run[i].now, run[i].op) {
      NewestOnlyBefore(cfg, run, i, run[i].now);
      StoppedIsCareful(Before(cfg, EMPTY, run, i), run[i].now, run[i].op);
    }
    LeaseExclusivity(cfg, run, now);
  }
}
