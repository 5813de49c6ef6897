/** Idempotency keys: one key makes one task, and asking again is harmless (pyfog/web.py). */
module TaskKeys {
  import opened TaskModel
  import opened TaskSteps
  import opened TaskInvariants
  import opened TaskPreservation
  import opened TaskResults
  import opened TaskEffects
  import opened TaskReports
  import opened TaskRuns
  import opened TaskHistories

  predicate OneTaskPerKey(s: State) {
    forall t, u :: 0 <= t < u < |s.tasks| ==> s.tasks[t].key != s.tasks[u].key
  }

  predicate IsCreation(op: Op) { op.OpCapture? || op.OpDeploy? }

  function KeyOf(op: Op): nat
    requires IsCreation(op)
  {
    op.key
  }

  /** Only creations make tasks, one at a time. */
  lemma StepMakes(cfg: Config, s: State, now: nat, op: Op)
    requires Inv(s)
    ensures Linked(s)
    ensures var (s', reply) := Step(cfg, s, now, op);
            if IsCreation(op) && reply == Accepted
            then |s'.tasks| == |s.tasks| + 1 && s'.tasks[..|s.tasks|] == s.tasks && s'.tasks[|s.tasks|].key == KeyOf(op)
                 && s'.tasks[|s.tasks|].requestedBy == op.user
                 && forall t :: 0 <= t < |s.tasks| ==> s.tasks[t].key != KeyOf(op)
            else |s'.tasks| == |s.tasks|
  {
    hide Inv, Linked, Serve, CreateCapture, CreateDeployment, Claim, Reconcile, DeleteImage, Authorise, Selectable;
    InvIsLinked(s);
    match op {
      case OpCapture(user, host, draft, report, key, total, valid) =>
        CaptureDecides(s, now, user, host, draft, report, key, total, valid);
      case OpDeploy(user, host, clone, image, report, key, valid) =>
        DeploymentDecides(s, now, user, host, clone, image, report, key, valid);
      case OpClaim(host, session, capable) =>
        ClaimDecides(cfg, s, now, host, session, capable);
        if Claim(cfg, s, now, host, session, capable).1 == Accepted {
          var t := ClaimAssigns(cfg, s, now, host, session, capable);
        }
      case OpReconcile(u) => ReconcileDecides(s, u);
      case OpDelete(i) => DeleteDecides(s, now, i);
      case OpDraft(_) =>
      case OpCancel(_) =>
      case OpExpire =>
      case OpRestoreBackup =>
      case _ => ServeMakesNothing(cfg, s, now, op);
    }
  }

  lemma ServeMakesNothing(cfg: Config, s: State, now: nat, op: Op)
    requires Inv(s) && Linked(s) && IsAgentOp(op)
    ensures |Step(cfg, s, now, op).0.tasks| == |s.tasks|
  {
    hide Inv, Serve, Expire, Reporting, Succeeds, Fails, EndsCancelled, EndsSucceeded, EndsFailed;
    CapabilityDecides(cfg, s, now, op);
    if Authorise(s, now, op.task, op.token, op.credential) == Granted {
      if op.OpFinish? {
        ServeIsFinish(cfg, s, now, op);
        ResultEnds(cfg, s, now, op.task, op.token, op.result);
      } else {
        ReportDecides(cfg, s, now, op);
        if Serve(cfg, s, now, op).1 == Accepted { ReportWrites(cfg, s, now, op); }
      }
    }
  }

  lemma SameKeys(s: State, s': State)
    requires Evolves(s, s')
    ensures |s.tasks| <= |s'.tasks|
    ensures forall t :: 0 <= t < |s.tasks| ==> s'.tasks[t].key == s.tasks[t].key && s'.tasks[t].requestedBy == s.tasks[t].requestedBy
  {
  }

  /** In every reachable state a key belongs to at most one task. */
  lemma {:induction false} KeysAreUnique(cfg: Config, run: seq<Timed>)
    ensures OneTaskPerKey(Reached(cfg, run))
    decreases |run|
  {
    hide Inv, Linked, Evolves, After, LiveOwnsSlot, Advances, Careless;
    EmptyIsInv();
    if run != [] {
      var before, e := Reached(cfg, run[..|run| - 1]), run[|run| - 1];
      KeysAreUnique(cfg, run[..|run| - 1]);
      StepKeeps(cfg, before, e.now, e.op);
      StepMakes(cfg, before, e.now, e.op);
      AfterIsStep(cfg, before, e);
      SameKeys(before, Reached(cfg, run));
      hide Step;
    }
  }

  /** A creation whose key is taken makes nothing, and its user is told so. */
  lemma TakenKey(cfg: Config, s: State, now: nat, op: Op, t: nat)
    requires Linked(s) && IsCreation(op) && t < |s.tasks| && s.tasks[t].key == KeyOf(op)
    ensures var (s', reply) := Step(cfg, s, now, op);
            s' == s && reply != Accepted && (s.tasks[t].requestedBy == op.user ==> reply == Unchanged)
  {
    hide Linked, Selectable, CreateCapture, CreateDeployment;
    match op {
      case OpCapture(user, host, draft, report, key, total, valid) =>
        CaptureDecides(s, now, user, host, draft, report, key, total, valid);
      case OpDeploy(user, host, clone, image, report, key, valid) =>
        DeploymentDecides(s, now, user, host, clone, image, report, key, valid);
    }
  }

  /** Asking again with the same key, however much later and whatever was asked for meanwhile, makes nothing. */
  lemma {:induction false} AskingAgain(cfg: Config, s: State, now: nat, op: Op, run: seq<Timed>, later: nat, again: Op)
    requires Inv(s) && Linked(s) && IsCreation(op) && IsCreation(again) && KeyOf(again) == KeyOf(op)
    requires Step(cfg, s, now, op).1 == Accepted
    ensures Inv(Step(cfg, s, now, op).0)
    ensures var s' := Run(cfg, Step(cfg, s, now, op).0, run);
            && Step(cfg, s', later, again).0 == s' && Step(cfg, s', later, again).1 != Accepted
            && (again.user == op.user ==> Step(cfg, s', later, again).1 == Unchanged)
  {
    hide Inv, Linked, Evolves, Step, LiveOwnsSlot, Advances, Careless, Run;
    StepKeeps(cfg, s, now, op);
    StepMakes(cfg, s, now, op);
    var s1 := Step(cfg, s, now, op).0;
    RunEvolves(cfg, s1, run);
    SameKeys(s1, Run(cfg, s1, run));
    TakenKey(cfg, Run(cfg, s1, run), later, again, |s.tasks|);
  }
}
