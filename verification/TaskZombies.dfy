/**
 * What goes wrong when the expiry query is left as written: it does not look only at a task's newest attempt, so a
 * lease that elapsed long ago stops whoever works on the task now, and an operator who trusts it reopens a busy task.
 */
module TaskZombies {
  import opened Bytes
  import opened Messages
  import opened Storage
  import opened TaskModel
  import opened TaskSteps
  import opened TaskInvariants
  import opened TaskPreservation
  import opened TaskRequests
  import opened TaskRuns
  import opened TaskHistories

  /** One capture of one host, with attempts holding these leases. */
  predicate Scene(s: State, status: Status, leases: seq<nat>) {
    && |s.tasks| == 1 && |s.images| == 1 && |s.attempts| == |leases|
    && s.tasks[0].operation == Capture && s.tasks[0].host == 0 && s.tasks[0].image == 0 && s.tasks[0].report == 0
    && s.tasks[0].status == status && s.tasks[0].cancelRequestedAt.None?
    && s.tasks[0].totalBytes == Some(1) && s.store == Store(map[], map[])
    && forall a :: 0 <= a < |leases| ==>
                     s.attempts[a].task == 0 && s.attempts[a].leaseExpiresAt == leases[a] && s.attempts[a].session == a
  }

  lemma SceneClaims(cfg: Config, s: State, now: nat, leases: seq<nat>)
    requires Inv(s) && Scene(s, Approved, leases)
    ensures Scene(Claim(cfg, s, now, 0, |leases|, true).0, Status.Assigned, leases + [now + cfg.leaseSeconds])
  {
    hide LastNumber;
    assert TaskOk(s.tasks[0]);
    assert Claimable(s, 0, 0);
    assert OldestApproved(s, 0, 1) == Some(0);
  }

  lemma SceneReconciles(s: State, leases: seq<nat>)
    requires Linked(s) && Scene(s, InterventionRequired, leases)
    ensures Scene(Reconcile(s, 0).0, Approved, leases)
    ensures Reconcile(s, 0).0.attempts == s.attempts && Reconcile(s, 0).0.images[0].status == ImageStatus.Capturing
  {
    assert s.store.staging - {0} == map[];
  }

  /** Expiry leaves the byte counts and the cancellation marks of every task alone. */
  lemma {:induction false} ExpireKeepsMarks(cfg: Config, s: State, now: nat, n: nat, t: nat)
    requires Linked(s) && n <= |s.attempts| && t < |s.tasks|
    ensures var task := ExpireFirst(cfg, s, now, n).tasks[t];
            task.totalBytes == s.tasks[t].totalBytes && task.cancelRequestedAt == s.tasks[t].cancelRequestedAt
  {
    if n > 0 {
      ExpireKeepsMarks(cfg, s, now, n - 1, t);
      ExpireFirstUnfolds(cfg, s, now, n);
      hide ExpireFirst, Stale;
    }
  }

  lemma SceneExpires(cfg: Config, s: State, now: nat, leases: seq<nat>)
    requires Inv(s) && Scene(s, Status.Assigned, leases) && !cfg.newestOnly && leases != [] && leases[0] <= now
    ensures Scene(Expire(cfg, s, now), InterventionRequired, leases)
  {
    hide Keeps, Inv, Stale, Evolves, Advances;
    InvIsLinked(s);
    ExpireKeeps(cfg.hash, cfg, s, now);
    var s' := Expire(cfg, s, now);
    KeepsParts(cfg.hash, s, s', now, true);
    ExpireKeepsMarks(cfg, s, now, |s.attempts|, 0);
    StaleScene(cfg, s, now, leases);
    ExpireSelects(cfg, s, now, 0);
    hide Expire;
    SceneEvolves(s, s', leases);
  }

  lemma StaleScene(cfg: Config, s: State, now: nat, leases: seq<nat>)
    requires Linked(s) && Scene(s, Status.Assigned, leases) && !cfg.newestOnly && leases != [] && leases[0] <= now
    ensures Owns(s, 0, 0) && Stale(cfg, s, now, 0)
  {
  }

  lemma SceneEvolves(s: State, s': State, leases: seq<nat>)
    requires Scene(s, Status.Assigned, leases) && SameShape(s, s') && Evolves(s, s') && s'.store == s.store
    requires forall a :: 0 <= a < |s.attempts| ==> s'.attempts[a].leaseExpiresAt == s.attempts[a].leaseExpiresAt
    requires s'.tasks[0].status == InterventionRequired
    requires s'.tasks[0].totalBytes == s.tasks[0].totalBytes && s'.tasks[0].cancelRequestedAt == s.tasks[0].cancelRequestedAt
    ensures Scene(s', InterventionRequired, leases)
  {
    assert forall a :: 0 <= a < |s.attempts| ==> Grows(s.attempts[a], s'.attempts[a]);
  }

  /* ----- any number of agents at once ----- */

  const CREATE := OpCapture(0, 0, None, 0, 0, 1, true)

  function Claiming(session: nat): Op { OpClaim(0, session, true) }

  /** Create and claim; the lease runs out, the operator reopens the task, it is claimed again. */
  function FirstLife(cfg: Config): seq<Timed> {
    var l := cfg.leaseSeconds;
    [At(0, CREATE), At(0, Claiming(0)), At(l, OpExpire), At(l, OpReconcile(0)), At(l, Claiming(1))]
  }

  /** And then, at the very same instant, the first lease expires the task again and again. */
  function Lives(cfg: Config, n: nat): seq<Timed> {
    if n == 0 then FirstLife(cfg)
    else Lives(cfg, n - 1)
         + [At(cfg.leaseSeconds, OpExpire), At(cfg.leaseSeconds, OpReconcile(0)), At(cfg.leaseSeconds, Claiming(n + 1))]
  }

  /** The first lease has elapsed, the `n` others run. */
  function Leases(cfg: Config, n: nat): seq<nat> {
    [0 + cfg.leaseSeconds] + seq(n, _ => cfg.leaseSeconds + cfg.leaseSeconds)
  }

  lemma RunSnoc(cfg: Config, run: seq<Timed>, e: Timed)
    ensures Reached(cfg, run + [e]) == Step(cfg, Reached(cfg, run), e.now, e.op).0
  {
    hide Inv, Step;
    EmptyIsInv();
    assert (run + [e])[..|run|] == run;
  }

  /** Expire, reopen, claim: one more agent. */
  lemma OneMoreLife(cfg: Config, run: seq<Timed>, leases: seq<nat>, now: nat)
    requires !cfg.newestOnly && leases != [] && leases[0] <= now
    requires Scene(Reached(cfg, run), Status.Assigned, leases)
    ensures var reopened := run + [At(now, OpExpire), At(now, OpReconcile(0))];
            && Scene(Reached(cfg, reopened), Approved, leases)
            && Scene(Reached(cfg, reopened + [At(now, Claiming(|leases|))]), Status.Assigned, leases + [now + cfg.leaseSeconds])
  {
    hide Inv, Scene, Expire, Reconcile, Claim, Reached;
    var e1, e2, e3 := At(now, OpExpire), At(now, OpReconcile(0)), At(now, Claiming(|leases|));
    var s := Reached(cfg, run);
    RunSnoc(cfg, run, e1);
    RunSnoc(cfg, run + [e1], e2);
    assert run + [e1] + [e2] == run + [e1, e2];
    RunSnoc(cfg, run + [e1, e2], e3);
    SceneExpires(cfg, s, now, leases);
    SceneReconciles(Reached(cfg, run + [e1]), leases);
    SceneClaims(cfg, Reached(cfg, run + [e1, e2]), now, leases);
  }

  lemma FirstClaim(cfg: Config)
    ensures var s := Reached(cfg, [At(0, CREATE), At(0, Claiming(0))]);
            Scene(s, Status.Assigned, [0 + cfg.leaseSeconds]) && Untouched(s.attempts[0])
  {
    hide Inv, Claim, Reached;
    RunSnoc(cfg, [], At(0, CREATE));
    assert [] + [At(0, CREATE)] == [At(0, CREATE)];
    EmptyRun(cfg);
    var s := Reached(cfg, [At(0, CREATE)]);
    assert Scene(s, Approved, []);
    SceneClaims(cfg, s, 0, []);
    ClaimedIsUntouched(cfg, s, 0, []);
    RunSnoc(cfg, [At(0, CREATE)], At(0, Claiming(0)));
    assert [At(0, CREATE)] + [At(0, Claiming(0))] == [At(0, CREATE), At(0, Claiming(0))];
  }

  lemma EmptyRun(cfg: Config)
    ensures Reached(cfg, []) == EMPTY
  {
  }

  lemma {:induction false} LivesScene(cfg: Config, n: nat)
    requires !cfg.newestOnly
    ensures Scene(Reached(cfg, Lives(cfg, n)), Status.Assigned, Leases(cfg, n + 1))
  {
    hide Inv, Scene, Reached;
    var l := cfg.leaseSeconds;
    if n == 0 {
      FirstClaim(cfg);
      var start := [At(0, CREATE), At(0, Claiming(0))];
      OneMoreLife(cfg, start, [0 + l], l);
      assert start + [At(l, OpExpire), At(l, OpReconcile(0))] + [At(l, Claiming(1))] == Lives(cfg, 0);
      assert [0 + l] + [l + l] == Leases(cfg, 1);
    } else {
      LivesScene(cfg, n - 1);
      OneMoreLife(cfg, Lives(cfg, n - 1), Leases(cfg, n), l);
      assert Lives(cfg, n - 1) + [At(l, OpExpire), At(l, OpReconcile(0))] + [At(l, Claiming(n + 1))] == Lives(cfg, n);
      assert Leases(cfg, n) + [l + l] == Leases(cfg, n + 1);
    }
  }

  lemma OrderedMore(run: seq<Timed>, more: seq<Timed>, now: nat)
    requires Ordered(run, now) && WithoutBackup(run)
    requires forall i :: 0 <= i < |more| ==> more[i].now == now && !more[i].op.OpRestoreBackup?
    ensures Ordered(run + more, now) && WithoutBackup(run + more)
  {
  }

  lemma {:induction false} LivesOrdered(cfg: Config, n: nat)
    ensures Ordered(Lives(cfg, n), cfg.leaseSeconds) && WithoutBackup(Lives(cfg, n))
  {
    hide Ordered, WithoutBackup;
    var l := cfg.leaseSeconds;
    if n == 0 {
      StartOrdered(l);
      OrderedMore([At(0, CREATE), At(0, Claiming(0))], [At(l, OpExpire), At(l, OpReconcile(0)), At(l, Claiming(1))], l);
      assert FirstLife(cfg) == [At(0, CREATE), At(0, Claiming(0))] + [At(l, OpExpire), At(l, OpReconcile(0)), At(l, Claiming(1))];
    } else {
      LivesOrdered(cfg, n - 1);
      OrderedMore(Lives(cfg, n - 1), [At(l, OpExpire), At(l, OpReconcile(0)), At(l, Claiming(n + 1))], l);
    }
  }

  lemma StartOrdered(now: nat)
    ensures Ordered([At(0, CREATE), At(0, Claiming(0))], now) && WithoutBackup([At(0, CREATE), At(0, Claiming(0))])
  {
  }

  /**
   * Without the restriction there is no bound: for every `n` some run, with time in order and no backup, ends with
   * `n + 1` different agents whose capabilities for the same task are all honoured at that moment.
   */
  lemma {:induction false} ManyAgentsAtOnce(cfg: Config, n: nat)
    requires !cfg.newestOnly
    ensures var run, now := Lives(cfg, n), cfg.leaseSeconds;
            var s := Reached(cfg, run);
            && Ordered(run, now) && WithoutBackup(run)
            && |s.attempts| == n + 2 && (forall a: nat :: 1 <= a <= n + 1 ==> Authorised(s, now, 0, a))
            && (0 < n ==> !OneHonoured(s, now) && !CarefullyReached(cfg, run))
  {
    hide Inv, Reached, CarefullyReached, Lives, Ordered, WithoutBackup, Linked;
    LivesScene(cfg, n);
    LivesOrdered(cfg, n);
    ManyHonoured(cfg, Reached(cfg, Lives(cfg, n)), n);
    if CarefullyReached(cfg, Lives(cfg, n)) { CarefullyOne(cfg, Lives(cfg, n), cfg.leaseSeconds); }
  }

  lemma ManyHonoured(cfg: Config, s: State, n: nat)
    requires Linked(s) && Scene(s, Status.Assigned, Leases(cfg, n + 1))
    ensures |s.attempts| == n + 2 && forall a: nat :: 1 <= a <= n + 1 ==> Authorised(s, cfg.leaseSeconds, 0, a)
    ensures 0 < n ==> !OneHonoured(s, cfg.leaseSeconds)
  {
    if 0 < n {
      assert Honoured(s.tasks[s.attempts[1].task], s.attempts[1], cfg.leaseSeconds);
      assert Honoured(s.tasks[s.attempts[2].task], s.attempts[2], cfg.leaseSeconds);
    }
  }

  lemma CarefullyOne(cfg: Config, run: seq<Timed>, now: nat)
    requires Ordered(run, now) && CarefullyReached(cfg, run)
    ensures OneHonoured(Reached(cfg, run), now)
  {
    hide Inv, Carefully, LiveOwnsSlot, OneHonoured, Run;
    EmptyIsInv();
    LeaseExclusivity(cfg, run, now);
  }

  /* ----- a repeat that is not recognised ----- */

  const SAID: string := "a  b"

  const REPORT := OpProgress(0, 0, true, 1, Phase.Running, 0, None, SAID)

  lemma DoubledIsUntidy()
    ensures !Tidy(SAID)
  {
    assert SAID[1] == ' ' && SAID[2] == ' ';
  }

  lemma ReportIsRecorded(cfg: Config, s: State)
    requires Inv(s) && Linked(s) && Scene(s, Status.Assigned, [0 + cfg.leaseSeconds]) && Untouched(s.attempts[0])
    ensures Authorised(s, 0, 0, 0) && Progress(cfg, s, 0, 0, 0, 1, Phase.Running, 0, None, SAID).1 == Accepted
    ensures Step(cfg, s, 0, REPORT) == Progress(cfg, s, 0, 0, 0, 1, Phase.Running, 0, None, SAID)
  {
    hide Inv, FindEvent, SafeMessage;
    FreshSequence(s, 0, 1);
  }

  lemma RecordedStaysAuthorised(cfg: Config, s: State)
    requires Inv(s) && Linked(s) && Scene(s, Status.Assigned, [0 + cfg.leaseSeconds]) && Untouched(s.attempts[0])
    ensures var s1 := Progress(cfg, s, 0, 0, 0, 1, Phase.Running, 0, None, SAID).0;
            && Linked(s1) && Owns(s1, 0, 0)
            && Step(cfg, s1, 0, REPORT) == Progress(cfg, s1, 0, 0, 0, 1, Phase.Running, 0, None, SAID)
  {
    hide Inv, Progress, Scene, Untouched, Linked;
    RowAfterReport(cfg, s);
  }

  lemma RowAfterReport(cfg: Config, s: State)
    requires Inv(s) && Linked(s) && Scene(s, Status.Assigned, [0 + cfg.leaseSeconds]) && Untouched(s.attempts[0])
    ensures var s1 := Progress(cfg, s, 0, 0, 0, 1, Phase.Running, 0, None, SAID).0;
            Linked(s1) && Authorised(s1, 0, 0, 0)
  {
    hide Inv, FindEvent, SafeMessage;
    FreshSequence(s, 0, 1);
  }

  /** Create, claim, report a message with a doubled blank: the same report, sent again, is a conflict. */
  lemma {:induction false} HonestRepeatConflicts(cfg: Config)
    ensures var s := Reached(cfg, [At(0, CREATE), At(0, Claiming(0))]);
            var (s1, first) := Step(cfg, s, 0, REPORT);
            first == Accepted && Linked(s1) && Step(cfg, s1, 0, REPORT) == (s1, Conflict)
  {
    hide Inv, Reached, Scene, Progress, Untouched;
    FirstClaim(cfg);
    DoubledIsUntidy();
    var s := Reached(cfg, [At(0, CREATE), At(0, Claiming(0))]);
    ReportIsRecorded(cfg, s);
    UntidyReplayConflicts(cfg, s, 0, 0, 0, 0, 1, Phase.Running, 0, None, SAID);
    RecordedStaysAuthorised(cfg, s);
  }

  /* ----- a backup that catches a capture at work ----- */

  lemma StartAgrees(cfg: Config)
    ensures Catalogue(cfg.hash, Reached(cfg, [At(0, CREATE), At(0, Claiming(0))]))
  {
    hide Inv, Catalogue, Run;
    EmptyIsInv();
    var run := [At(0, CREATE), At(0, Claiming(0))];
    StartOrdered(0);
    CatalogueAgrees(cfg, run, 0);
  }

  lemma CaughtAtWork(cfg: Config, s: State)
    requires Scene(s, Status.Assigned, [0 + cfg.leaseSeconds])
    ensures CaughtCapturing(s)
  {
    assert Pending(s.tasks[0]);
  }

  /** Create, claim, recover a backup: the image goes on claiming that it is being captured. */
  lemma {:induction false} BackupCanBreak(cfg: Config)
    ensures var run := [At(0, CREATE), At(0, Claiming(0))];
            CaughtCapturing(Reached(cfg, run)) && Catalogue(cfg.hash, Reached(cfg, run))
            && !Catalogue(cfg.hash, Reached(cfg, run + [At(0, OpRestoreBackup)]))
  {
    var run := [At(0, CREATE), At(0, Claiming(0))];
    hide Inv, Reached, Catalogue, Step;
    FirstClaim(cfg);
    StartAgrees(cfg);
    CaughtAtWork(cfg, Reached(cfg, run));
    BackupCatalogue(cfg.hash, Reached(cfg, run), 0);
    RunSnoc(cfg, run, At(0, OpRestoreBackup));
    StepIsBackup(cfg, Reached(cfg, run), 0);
  }

  /* ----- a publication without a ready image ----- */

  const CONTENT: Bytes := [0]

  /** The one-byte upload, and the manifest that declares it. */
  function OneByte(h: Hash): Chunk { Chunk(0, 0, 0, CONTENT, h(CONTENT)) }

  function OneArtifact(h: Hash): ImageManifest {
    ImageManifest(0, 0, 0, true, true, [Artifact("p", 1, h(CONTENT), None)], [])
  }

  function Uploading(h: Hash): Op { OpUpload(0, 1, true, "p", OneByte(h), true) }

  function Finishing(h: Hash): Op { OpFinish(0, 1, true, Result(1, true, false, Some(OneArtifact(h)), "", true)) }

  /** An attempt as it was when it was made. */
  predicate Untouched(x: Attempt) {
    x.phase == Phase.Assigned && x.bytesProcessed == 0 && x.totalBytes == Some(1) && x.lastSequence == 0 && x.finishedAt.None?
  }

  lemma {:induction false} ExpireSparesAttempt(cfg: Config, s: State, now: nat, n: nat, a: nat)
    requires Linked(s) && n <= |s.attempts| && a < |s.attempts| && now < s.attempts[a].leaseExpiresAt
    ensures ExpireFirst(cfg, s, now, n).attempts[a] == s.attempts[a]
  {
    if n > 0 {
      ExpireSparesAttempt(cfg, s, now, n - 1, a);
      ExpireFirstUnfolds(cfg, s, now, n);
      hide ExpireFirst, ExpireRows, IsNewest;
    }
  }

  lemma ClaimedIsUntouched(cfg: Config, s: State, now: nat, leases: seq<nat>)
    requires Inv(s) && Scene(s, Approved, leases)
    ensures var s' := Claim(cfg, s, now, 0, |leases|, true).0;
            |s'.attempts| == |leases| + 1 && Untouched(s'.attempts[|leases|])
  {
    hide LastNumber;
    assert TaskOk(s.tasks[0]);
    assert Claimable(s, 0, 0);
    assert OldestApproved(s, 0, 1) == Some(0);
  }

  /** The task is back in the queue while its second agent, still leased, has done nothing yet. */
  predicate Reopened(cfg: Config, s: State) {
    && Scene(s, Approved, Leases(cfg, 1)) && Untouched(s.attempts[1])
    && s.images[0].status == ImageStatus.Capturing
  }

  /** Everything up to the careless reconciliation. */
  function Doomed(cfg: Config): seq<Timed> {
    Lives(cfg, 0) + [At(cfg.leaseSeconds, OpExpire), At(cfg.leaseSeconds, OpReconcile(0))]
  }

  lemma SecondClaimUntouched(cfg: Config)
    requires !cfg.newestOnly
    ensures var s := Reached(cfg, Lives(cfg, 0)); |s.attempts| == 2 && Untouched(s.attempts[1])
  {
    hide Inv, Scene, Expire, Reconcile, Claim, Reached, Untouched;
    var l := cfg.leaseSeconds;
    var start := [At(0, CREATE), At(0, Claiming(0))];
    var reopened := start + [At(l, OpExpire), At(l, OpReconcile(0))];
    FirstClaim(cfg);
    OneMoreLife(cfg, start, [0 + l], l);
    ClaimedIsUntouched(cfg, Reached(cfg, reopened), l, [0 + l]);
    RunSnoc(cfg, reopened, At(l, Claiming(1)));
    assert reopened + [At(l, Claiming(1))] == Lives(cfg, 0);
  }

  lemma DoomedIsReopened(cfg: Config)
    requires !cfg.newestOnly
    ensures Reopened(cfg, Reached(cfg, Doomed(cfg)))
  {
    hide Inv, Scene, Expire, Reconcile, Reached, Untouched, Lives;
    var l := cfg.leaseSeconds;
    var run := Lives(cfg, 0);
    var s := Reached(cfg, run);
    LivesScene(cfg, 0);
    SecondClaimUntouched(cfg);
    var e1, e2 := At(l, OpExpire), At(l, OpReconcile(0));
    RunSnoc(cfg, run, e1);
    RunSnoc(cfg, run + [e1], e2);
    assert run + [e1] + [e2] == Doomed(cfg);
    SceneExpires(cfg, s, l, Leases(cfg, 1));
    SceneSpares(cfg, s, l, Leases(cfg, 1));
    SceneReconciles(Reached(cfg, run + [e1]), Leases(cfg, 1));
  }

  lemma SceneSpares(cfg: Config, s: State, now: nat, leases: seq<nat>)
    requires Linked(s) && Scene(s, Status.Assigned, leases) && 1 < |leases| && now < leases[1]
    ensures 1 < |Expire(cfg, s, now).attempts| && Expire(cfg, s, now).attempts[1] == s.attempts[1]
  {
    ExpireSparesAttempt(cfg, s, now, |s.attempts|, 1);
  }

  /** The late agent has staged its byte. */
  predicate Staged(cfg: Config, s: State) {
    && |s.tasks| == 1 && |s.images| == 1 && |s.attempts| == 2 && s.attempts[1].task == 0
    && s.tasks[0].operation == Capture && s.tasks[0].host == 0 && s.tasks[0].image == 0 && s.tasks[0].report == 0
    && s.tasks[0].status == Approved && s.tasks[0].cancelRequestedAt.None?
    && cfg.leaseSeconds < s.attempts[1].leaseExpiresAt && s.attempts[1].phase == Phase.Uploading
    && s.attempts[1].bytesProcessed == 1 && s.attempts[1].totalBytes == Some(1) && s.attempts[1].lastSequence == 0
    && s.images[0].status == ImageStatus.Capturing
    && s.store == Store(map[0 := map["p" := CONTENT]], map[])
  }

  lemma LateUpload(cfg: Config, s: State)
    requires Linked(s) && Reopened(cfg, s) && 1 <= cfg.limits.maxChunkBytes && 1 <= cfg.limits.maxImageBytes
    ensures Staged(cfg, Step(cfg, s, cfg.leaseSeconds, Uploading(cfg.hash)).0)
  {
    LateChunk(cfg, s.store);
    hide ChunkStep;
  }

  lemma LateChunk(cfg: Config, store: Store)
    requires store == Store(map[], map[]) && 1 <= cfg.limits.maxChunkBytes && 1 <= cfg.limits.maxImageBytes
    ensures ChunkStep(cfg.hash, cfg.limits, store, 0, "p", OneByte(cfg.hash), true)
         == (Store(map[0 := map["p" := CONTENT]], map[]), Appended)
  {
    assert TotalSize(map[]) == 0;
    TotalSizePut(map[], "p", []);
    var empty: Bytes := [];
    assert empty + CONTENT == CONTENT;
    assert map["p" := empty]["p" := CONTENT] == map["p" := CONTENT];
    assert ReadAt(empty, 0, 1) == [];
  }

  lemma LatePublish(cfg: Config, store: Store)
    requires store == Store(map[0 := map["p" := CONTENT]], map[]) && 1 <= cfg.limits.maxImageBytes
    ensures CanPublish(cfg.hash, cfg.limits, store, 0, 0, OneArtifact(cfg.hash), true)
  {
    var m := OneArtifact(cfg.hash);
    assert m.artifacts[..0] == [];
    assert DeclaredSize(m.artifacts) == 1;
    assert m.artifacts[0].path == "p";
  }

  /** The late result is recorded as verified, on a task that stays in the queue. */
  lemma LateRecord(cfg: Config, s: State)
    requires Inv(s) && Linked(s) && Staged(cfg, s)
    ensures var p := RecordProgress(cfg, s, cfg.leaseSeconds, 0, 1, 1, Phase.Verifying, 1, Some(1), "");
            && p.Recorded?
            && p.rows.task.status == Approved && p.rows.task.operation == Capture && p.rows.task.image == 0
            && p.rows.attempt.task == 0 && p.rows.image == s.images[0]
  {
    hide Inv, FindEvent, LastNumber;
    FreshSequence(s, 1, 1);
  }

  lemma LatePublication(cfg: Config, s: State)
    requires Linked(s) && Owns(s, 0, 1) && |s.images| == 1 && s.tasks[0].image == 0 && s.tasks[0].status == Approved
    requires s.images[0].status == ImageStatus.Capturing && 0 in s.store.staging
    requires CanPublish(cfg.hash, cfg.limits, s.store, 0, 0, OneArtifact(cfg.hash), true)
    ensures var s' := PublishCapture(cfg, s, cfg.leaseSeconds, 0, 1, 1, OneArtifact(cfg.hash), true).0;
            |s'.images| == 1 && s'.images[0].status == ImageStatus.Capturing && 0 in s'.store.published
  {
    hide CanPublish;
  }

  lemma LateFinish(cfg: Config, s: State)
    requires Inv(s) && Staged(cfg, s) && 1 <= cfg.limits.maxImageBytes
    ensures var s' := Step(cfg, s, cfg.leaseSeconds, Finishing(cfg.hash)).0;
            |s'.images| == 1 && s'.images[0].status == ImageStatus.Capturing && 0 in s'.store.published
  {
    hide CanPublish, Inv, RecordProgress, PublishCapture, FailTask;
    InvIsLinked(s);
    LateRecord(cfg, s);
    LatePublish(cfg, s.store);
    var p := RecordProgress(cfg, s, cfg.leaseSeconds, 0, 1, 1, Phase.Verifying, 1, Some(1), "");
    LatePublication(cfg, Commit(s, 0, 1, p.rows));
  }

  /**
   * Every agreement between catalogue and store can be lost: reopened while its agent still works, a capture is
   * published without ever becoming ready, and the image goes on claiming that it is being captured.
   */
  lemma {:induction false} CatalogueCanBreak(cfg: Config)
    requires !cfg.newestOnly && 1 <= cfg.limits.maxChunkBytes && 1 <= cfg.limits.maxImageBytes
    ensures var run := Doomed(cfg) + [At(cfg.leaseSeconds, Uploading(cfg.hash)), At(cfg.leaseSeconds, Finishing(cfg.hash))];
            && Ordered(run, cfg.leaseSeconds) && WithoutBackup(run)
            && !Catalogue(cfg.hash, Reached(cfg, run))
  {
    hide Inv, Reached, Step, Lives;
    var l, h := cfg.leaseSeconds, cfg.hash;
    var e1, e2 := At(l, Uploading(h)), At(l, Finishing(h));
    DoomedIsReopened(cfg);
    LivesOrdered(cfg, 0);
    LateUpload(cfg, Reached(cfg, Doomed(cfg)));
    RunSnoc(cfg, Doomed(cfg), e1);
    LateFinish(cfg, Reached(cfg, Doomed(cfg) + [e1]));
    RunSnoc(cfg, Doomed(cfg) + [e1], e2);
    assert Doomed(cfg) + [e1] + [e2] == Doomed(cfg) + [e1, e2];
  }
}
