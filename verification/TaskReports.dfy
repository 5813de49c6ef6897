/**
 * Reports of a working agent: which are accepted, what they buy, and that an agent which reports in time is never
 * expired (pyfog/tasking.py).
 */
module TaskReports {
  import opened Bytes
  import opened Storage
  import opened TaskModel
  import opened TaskSteps
  import opened TaskInvariants
  import opened TaskPreservation
  import opened TaskRequests
  import opened TaskResults
  import opened TaskEffects
  import opened TaskRuns

  /* ----- which reports are accepted ----- */

  predicate IsReport(op: Op) { op.OpHeartbeat? || op.OpProgress? || op.OpUpload? }

  /** Neither phase nor bytes nor total goes back, and the bytes stay within the total. */
  predicate Forward(x: Attempt, phase: Phase, bytes: nat, total: Option<nat>) {
    && phase != Queued && phase != Completed && phase != Phase.Failed && phase != Unrecognised
    && PhaseRank(x.phase) <= PhaseRank(phase)
    && x.bytesProcessed <= bytes
    && (total.Some? ==> bytes <= total.value && (x.totalBytes.Some? ==> x.totalBytes.value <= total.value))
  }

  /** What the report says once its gaps are filled from the attempt. */
  function PhaseOf(x: Attempt, op: Op): Phase
    requires IsReport(op)
  {
    match op
    case OpHeartbeat(_, _, _, phase, _, _) => if phase.Some? then phase.value else x.phase
    case OpProgress(_, _, _, _, phase, _, _, _) => phase
    case OpUpload(_, _, _, _, _, _) => Uploading
  }

  function BytesOf(x: Attempt, op: Op): int
    requires IsReport(op)
  {
    match op
    case OpHeartbeat(_, _, _, _, bytes, _) => if bytes < x.bytesProcessed then x.bytesProcessed else bytes
    case OpProgress(_, _, _, _, _, bytes, _, _) => bytes
    case OpUpload(_, _, _, _, chunk, _) =>
      var end := chunk.offset + |chunk.payload|;
      if end < x.bytesProcessed then x.bytesProcessed else end
  }

  function TotalOf(x: Attempt, op: Op): Option<nat>
    requires IsReport(op)
  {
    match op
    case OpHeartbeat(_, _, _, _, _, total) => if total.Some? then total else x.totalBytes
    case OpProgress(_, _, _, _, _, _, total, _) => total
    case OpUpload(_, _, _, _, _, _) => x.totalBytes
  }

  /** The guard of a report, over the request and the state it finds. */
  ghost predicate Reporting(cfg: Config, s: State, op: Op)
    requires Linked(s) && IsReport(op) && Owns(s, op.task, op.token)
  {
    var x := s.attempts[op.token];
    && 0 <= BytesOf(x, op) && Forward(x, PhaseOf(x, op), BytesOf(x, op), TotalOf(x, op))
    && (op.OpProgress? ==> x.lastSequence < op.sequence)
    && (op.OpUpload? ==> ChunkStep(cfg.hash, cfg.limits, s.store, op.task, op.path, op.chunk, op.room).1 != ChunkReply.Rejected)
  }

  /** The row of the attempt after an accepted report. */
  predicate Reported(cfg: Config, now: nat, x: Attempt, phase: Phase, bytes: int, total: Option<nat>, sequence: nat, x': Attempt) {
    && x'.leaseExpiresAt == now + cfg.leaseSeconds
    && x'.phase == phase && x'.bytesProcessed == bytes
    && x'.totalBytes == (if total.Some? then total else x.totalBytes)
    && x'.lastSequence == sequence
    && x'.finishedAt == x.finishedAt && x'.failureReason == x.failureReason
    && x'.task == x.task && x'.number == x.number && x'.session == x.session
  }

  /** And of its task: a first report starts it, a verifying one says so, and a cancelled task only counts. */
  predicate TaskFollows(task: Task, logged: bool, phase: Phase, bytes: int, total: Option<nat>, task': Task) {
    && (if task.status == Status.Assigned && task.cancelRequestedAt.None?
        then task'.bytesProcessed == task.bytesProcessed && task'.totalBytes == task.totalBytes
        else task'.bytesProcessed == bytes && task'.totalBytes == (if total.Some? then total else task.totalBytes))
    && SameTask(task, task') && task'.cancelRequestedAt == task.cancelRequestedAt
    && task'.holdsSlot == task.holdsSlot && task'.reservationKey == task.reservationKey
    && task'.phase == (if task.cancelRequestedAt.Some? && !(logged && phase == Phase.Verifying && task.status == Status.Running)
                       then Cancelling else phase)
    && task'.status == (if logged && phase == Phase.Verifying
                           && (task.status == Status.Running || (task.status == Status.Assigned && task.cancelRequestedAt.None?))
                        then Status.Verifying
                        else if task.status == Status.Assigned && task.cancelRequestedAt.None? then Status.Running else task.status)
  }

  lemma TouchDecides(cfg: Config, now: nat, r: Rows, phase: Phase, bytes: nat, total: Option<nat>)
    ensures TouchRows(cfg, now, r, phase, bytes, total).Some? <==> Forward(r.attempt, phase, bytes, total)
  {
  }

  /** An authorised report is accepted if and only if it moves forward, is new, and its chunk fits; refused, it moves no row. */
  lemma ReportDecides(cfg: Config, s: State, now: nat, op: Op)
    requires Inv(s) && IsReport(op) && Linked(s) && Authorised(s, now, op.task, op.token)
    ensures var (s', reply) := Serve(cfg, s, now, op);
            && (reply == Accepted <==> Reporting(cfg, s, op))
            && (reply != Accepted ==> s' == s.(store := s'.store))
  {
    hide Inv, TouchRows, FindEvent, ChunkStep, Forward;
    InvIsLinked(s);
    var t, a := op.task, op.token;
    var x := s.attempts[a];
    match op
    case OpHeartbeat(_, _, _, phase, bytes, total) =>
      TouchDecides(cfg, now, RowsOf(s, t, a), PhaseOf(x, op), BytesOf(x, op), TotalOf(x, op));
    case OpProgress(_, _, _, sequence, phase, bytes, total, message) =>
      TouchDecides(cfg, now, RowsOf(s, t, a), phase, bytes, total);
      PhaseIsAgents(x, phase, bytes, total);
      if x.lastSequence < sequence { FreshSequence(s, a, sequence); } else { }
    case OpUpload(_, _, _, path, chunk, room) =>
      TakenChunk(cfg.hash, cfg.limits, s.store, t, path, chunk, room);
      if ChunkStep(cfg.hash, cfg.limits, s.store, t, path, chunk, room).1 != ChunkReply.Rejected {
        TouchDecides(cfg, now, RowsOf(s, t, a), Uploading, BytesOf(x, op), x.totalBytes);
      }
  }

  lemma PhaseIsAgents(x: Attempt, phase: Phase, bytes: nat, total: Option<nat>)
    ensures Forward(x, phase, bytes, total) ==> AgentPhase(phase)
  {
  }

  lemma TouchWrites(cfg: Config, now: nat, r: Rows, phase: Phase, bytes: nat, total: Option<nat>)
    requires TouchRows(cfg, now, r, phase, bytes, total).Some?
    ensures var r' := TouchRows(cfg, now, r, phase, bytes, total).value;
            && Reported(cfg, now, r.attempt, phase, bytes, total, r.attempt.lastSequence, r'.attempt)
            && TaskFollows(r.task, false, phase, bytes, total, r'.task) && r'.image == r.image
  {
  }

  lemma ProgressWrites(cfg: Config, now: nat, t: nat, a: nat, r: Rows,
                       sequence: nat, phase: Phase, bytes: nat, total: Option<nat>, message: string)
    requires ProgressRows(cfg, now, t, a, r, sequence, phase, bytes, total, message).Some?
    ensures var r' := ProgressRows(cfg, now, t, a, r, sequence, phase, bytes, total, message).value;
            && Reported(cfg, now, r.attempt, phase, bytes, total, sequence, r'.attempt)
            && TaskFollows(r.task, true, phase, bytes, total, r'.task) && r'.image == r.image
  {
  }

  /** Nothing moves but one task and one attempt. */
  predicate OnlyRows(s: State, t: nat, a: nat, s': State) {
    && |s'.tasks| == |s.tasks| && |s'.attempts| == |s.attempts| && s'.images == s.images
    && (forall u :: 0 <= u < |s.tasks| && u != t ==> s'.tasks[u] == s.tasks[u])
    && (forall b :: 0 <= b < |s.attempts| && b != a ==> s'.attempts[b] == s.attempts[b])
  }

  lemma CommitWrites(s: State, t: nat, a: nat, r: Rows)
    requires Linked(s) && Owns(s, t, a) && r.image == s.images[s.tasks[t].image]
    ensures var s' := Commit(s, t, a, r); OnlyRows(s, t, a, s') && s'.tasks[t] == r.task && s'.attempts[a] == r.attempt
  {
    assert s.images[s.tasks[t].image := r.image] == s.images;
  }

  /** What an accepted report writes: both rows, and no other one. */
  lemma ReportWrites(cfg: Config, s: State, now: nat, op: Op)
    requires IsReport(op) && Linked(s) && Owns(s, op.task, op.token) && Serve(cfg, s, now, op).1 == Accepted
    ensures var s', x := Serve(cfg, s, now, op).0, s.attempts[op.token];
            && OnlyRows(s, op.task, op.token, s')
            && Reported(cfg, now, x, PhaseOf(x, op), BytesOf(x, op), TotalOf(x, op),
                        if op.OpProgress? then op.sequence else x.lastSequence, s'.attempts[op.token])
            && TaskFollows(s.tasks[op.task], op.OpProgress?, PhaseOf(x, op), BytesOf(x, op), TotalOf(x, op), s'.tasks[op.task])
  {
    hide TouchRows, ProgressRows, Commit, ChunkStep, Reported, TaskFollows, FindEvent;
    var t, a, x := op.task, op.token, s.attempts[op.token];
    var r := RowsOf(s, t, a);
    match op
    case OpHeartbeat(_, _, _, phase, bytes, total) =>
      TouchWrites(cfg, now, r, PhaseOf(x, op), BytesOf(x, op), TotalOf(x, op));
      CommitWrites(s, t, a, TouchRows(cfg, now, r, PhaseOf(x, op), BytesOf(x, op), TotalOf(x, op)).value);
    case OpProgress(_, _, _, sequence, phase, bytes, total, message) =>
      ProgressWrites(cfg, now, t, a, r, sequence, phase, bytes, total, message);
      CommitWrites(s, t, a, ProgressRows(cfg, now, t, a, r, sequence, phase, bytes, total, message).value);
    case OpUpload(_, _, _, path, chunk, room) =>
      TakenChunk(cfg.hash, cfg.limits, s.store, t, path, chunk, room);
      var s1 := s.(store := ChunkStep(cfg.hash, cfg.limits, s.store, t, path, chunk, room).0);
      TouchWrites(cfg, now, r, Uploading, BytesOf(x, op), x.totalBytes);
      CommitWrites(s1, t, a, TouchRows(cfg, now, r, Uploading, BytesOf(x, op), x.totalBytes).value);
  }

  /**
   * What a report buys: after an accepted one at `now` the capability is honoured exactly until `now + leaseSeconds`,
   * and its task is as open as before.
   */
  lemma {:induction false} ReportExtendsLease(cfg: Config, s: State, now: nat, op: Op)
    requires Inv(s) && IsReport(op) && Linked(s) && Authorised(s, now, op.task, op.token)
    requires Step(cfg, s, now, op).1 == Accepted
    ensures var s' := Step(cfg, s, now, op).0;
            Linked(s') && forall time: nat :: Authorised(s', time, op.task, op.token) <==> time < now + cfg.leaseSeconds
  {
    hide Inv, Serve;
    GrantedOnly(s, now, op);
    if op.credential { ReportWrites(cfg, s, now, op); }
  }

  /** An accepted reply means an accepted capability. */
  lemma GrantedOnly(s: State, now: nat, op: Op)
    requires Linked(s) && IsAgentOp(op) && Authorised(s, now, op.task, op.token)
    ensures Authorise(s, now, op.task, op.token, op.credential) == if op.credential then Granted else Denied(Unauthorized)
  {
  }

  /* ----- an agent that reports in time is never expired ----- */

  /** A working agent on a task in flight, under a lease until `deadline`. */
  predicate WorksUntil(s: State, t: nat, a: nat, deadline: nat) {
    Working(s, t, a) && InFlight(s.tasks[t].status) && s.attempts[a].leaseExpiresAt == deadline
  }

  lemma {:induction false} UntouchedAttempt(cfg: Config, s: State, now: nat, n: nat, a: nat)
    requires Linked(s) && a < |s.attempts| && n <= |s.attempts| && !Stale(cfg, s, now, a)
    ensures ExpireFirst(cfg, s, now, n).attempts[a] == s.attempts[a]
  {
    if n > 0 { UntouchedAttempt(cfg, s, now, n - 1, a); }
  }

  /** With the query restricted to newest attempts, expiry spares a working agent exactly before its deadline. */
  lemma ExpirySpares(cfg: Config, s: State, now: nat, t: nat, a: nat, deadline: nat)
    requires Inv(s) && cfg.newestOnly && WorksUntil(s, t, a, deadline)
    ensures Linked(s) && (WorksUntil(Expire(cfg, s, now), t, a, deadline) <==> now < deadline)
    ensures InFlight(Expire(cfg, s, now).tasks[t].status) <==> now < deadline
  {
    ExpireKeeps(cfg.hash, cfg, s, now);
    NewestInShape(s, Expire(cfg, s, now), a);
    ExpireSelects(cfg, s, now, t);
    if now < deadline {
      OnlyNewestStale(cfg, s, now, t, a);
      UntouchedTask(cfg, s, now, |s.attempts|, t);
      UntouchedAttempt(cfg, s, now, |s.attempts|, a);
    } else {
      assert Stale(cfg, s, now, a);
    }
    hide Keeps, Stale, IsNewest;
  }

  lemma OnlyNewestStale(cfg: Config, s: State, now: nat, t: nat, a: nat)
    requires Linked(s) && cfg.newestOnly && Working(s, t, a) && now < s.attempts[a].leaseExpiresAt
    ensures !Stale(cfg, s, now, a)
    ensures forall b: nat :: b < |s.attempts| && Owns(s, t, b) ==> !Stale(cfg, s, now, b)
  {
  }

  lemma SameAttemptsWork(s: State, s': State, t: nat, a: nat, deadline: nat)
    requires WorksUntil(s, t, a, deadline) && s'.attempts == s.attempts && t < |s'.tasks| && InFlight(s'.tasks[t].status)
    ensures WorksUntil(s', t, a, deadline)
  {
  }

  /** Nobody ends the task, and no backup is recovered. */
  predicate Spared(op: Op, t: nat) {
    !(op.OpFinish? && op.task == t) && !op.OpRestoreBackup?
  }

  /** An accepted report of this very attempt. */
  ghost predicate Heard(cfg: Config, s: State, now: nat, op: Op, t: nat, a: nat)
    requires Linked(s)
  {
    IsReport(op) && op.task == t && op.token == a && Step(cfg, s, now, op).1 == Accepted
  }

  lemma ReportSpares(cfg: Config, s: State, now: nat, op: Op, t: nat, a: nat, deadline: nat)
    requires Inv(s) && Linked(s) && WorksUntil(s, t, a, deadline) && IsReport(op) && Authorised(s, now, op.task, op.token)
    ensures var (s', reply) := Serve(cfg, s, now, op);
            WorksUntil(s', t, a, if op.task == t && op.token == a && reply == Accepted then now + cfg.leaseSeconds else deadline)
  {
    hide Inv, Serve, Linked, IsNewest, Reporting;
    ReportDecides(cfg, s, now, op);
    var (s', reply) := Serve(cfg, s, now, op);
    if reply == Accepted {
      ReportWrites(cfg, s, now, op);
      NewestSame(s.attempts, s'.attempts, a);
    } else {
      SameAttemptsWork(s, s', t, a, deadline);
    }
  }

  lemma OtherResultSpares(cfg: Config, s: State, now: nat, u: nat, b: nat, p: Result, t: nat, a: nat, deadline: nat)
    requires Inv(s) && Linked(s) && WorksUntil(s, t, a, deadline) && Authorised(s, now, u, b) && u != t
    ensures WorksUntil(Finish(cfg, s, now, u, b, p).0, t, a, deadline)
  {
    hide Inv, Finish, IsNewest, Linked, Succeeds, Fails, EndsCancelled, EndsSucceeded, EndsFailed;
    ResultEnds(cfg, s, now, u, b, p);
    NewestSame(s.attempts, Finish(cfg, s, now, u, b, p).0.attempts, a);
  }

  lemma AgentSpares(cfg: Config, s: State, now: nat, op: Op, t: nat, a: nat, deadline: nat)
    requires Inv(s) && Linked(s) && cfg.newestOnly && WorksUntil(s, t, a, deadline) && now < deadline
    requires IsAgentOp(op) && Spared(op, t)
    ensures WorksUntil(Step(cfg, s, now, op).0, t, a, if Heard(cfg, s, now, op, t, a) then now + cfg.leaseSeconds else deadline)
  {
    hide Inv, Expire, Serve, WorksUntil, Closed;
    CapabilityDecides(cfg, s, now, op);
    ExpirySpares(cfg, s, now, t, a, deadline);
    if Owns(s, op.task, op.token) && op.credential && !Closed(s.tasks[op.task].status) && now < s.attempts[op.token].leaseExpiresAt {
      if op.OpFinish? {
        OtherResultSpares(cfg, s, now, op.task, op.token, op.result, t, a, deadline);
        ServeIsFinish(cfg, s, now, op);
      } else {
        ReportSpares(cfg, s, now, op, t, a, deadline);
      }
    }
  }

  lemma ServeIsFinish(cfg: Config, s: State, now: nat, op: Op)
    requires Linked(s) && op.OpFinish? && Owns(s, op.task, op.token)
    ensures Serve(cfg, s, now, op) == Finish(cfg, s, now, op.task, op.token, op.result)
  {
  }

  lemma CancelSpares(s: State, now: nat, u: nat, t: nat, a: nat, deadline: nat)
    requires Linked(s) && WorksUntil(s, t, a, deadline)
    ensures WorksUntil(Cancel(s, now, u).0, t, a, deadline)
  {
    hide IsNewest;
    SameAttemptsWork(s, Cancel(s, now, u).0, t, a, deadline);
  }

  lemma SlotIsTaken(s: State, t: nat)
    requires Inv(s) && t < |s.tasks| && InFlight(s.tasks[t].status)
    ensures s.tasks[t].holdsSlot
  {
    assert TaskOk(s.tasks[t]);
    hide NewestUnfinished, Numbered, EventsOk, OneSlot, OneTaskPerHost;
  }

  /** One step: before its deadline a working agent is spared by everything but a result and a recovered backup. */
  lemma StepSpares(cfg: Config, s: State, now: nat, op: Op, t: nat, a: nat, deadline: nat)
    requires Inv(s) && cfg.newestOnly && WorksUntil(s, t, a, deadline) && now < deadline && Spared(op, t)
    ensures Linked(s)
    ensures WorksUntil(Step(cfg, s, now, op).0, t, a, if Heard(cfg, s, now, op, t, a) then now + cfg.leaseSeconds else deadline)
  {
    hide Inv, Linked, Expire, Serve, CreateCapture, CreateDeployment, Claim, Cancel, Reconcile, DeleteImage, Heard, IsNewest;
    InvIsLinked(s);
    var s' := Step(cfg, s, now, op).0;
    if IsAgentOp(op) {
      AgentSpares(cfg, s, now, op, t, a, deadline);
    } else {
      NotHeard(cfg, s, now, op, t, a);
      match op {
        case OpCapture(user, host, draft, report, key, total, valid) =>
          CaptureDecides(s, now, user, host, draft, report, key, total, valid);
          KeptTask(s, s', t);
        case OpDeploy(user, host, clone, image, report, key, valid) =>
          DeploymentDecides(s, now, user, host, clone, image, report, key, valid);
          KeptTask(s, s', t);
        case OpClaim(host, session, capable) =>
          SlotIsTaken(s, t);
          ClaimDecides(cfg, s, now, host, session, capable);
        case OpCancel(u) => CancelSpares(s, now, u, t, a, deadline);
        case OpReconcile(u) => ReconcileDecides(s, u);
        case OpDelete(i) => DeleteDecides(s, now, i);
        case OpExpire => ExpirySpares(cfg, s, now, t, a, deadline);
        case OpDraft(_) =>
      }
      if !op.OpExpire? && !op.OpCancel? { SameAttemptsWork(s, s', t, a, deadline); }
    }
  }

  lemma NotHeard(cfg: Config, s: State, now: nat, op: Op, t: nat, a: nat)
    requires Linked(s) && !IsAgentOp(op)
    ensures !Heard(cfg, s, now, op, t, a)
  {
  }

  lemma KeptTask(s: State, s': State, t: nat)
    requires t < |s.tasks| && (s' == s || (|s'.tasks| == |s.tasks| + 1 && s'.tasks[..|s.tasks|] == s.tasks))
    ensures t < |s'.tasks| && s'.tasks[t] == s.tasks[t]
  {
    if s' != s { assert s'.tasks[..|s.tasks|][t] == s'.tasks[t]; }
  }

  /** The deadline of an attempt: `leaseSeconds` after its last accepted report among the first `n` steps. */
  ghost function Deadline(cfg: Config, s: State, run: seq<Timed>, t: nat, a: nat, n: nat): nat
    requires Inv(s) && a < |s.attempts| && n <= |run|
  {
    if n == 0 then s.attempts[a].leaseExpiresAt
    else if Heard(cfg, Before(cfg, s, run, n - 1), run[n - 1].now, run[n - 1].op, t, a) then run[n - 1].now + cfg.leaseSeconds
    else Deadline(cfg, s, run, t, a, n - 1)
  }

  /** Every step happens before the deadline; the task is not ended and no backup recovered. */
  ghost predicate Punctual(cfg: Config, s: State, run: seq<Timed>, t: nat, a: nat)
    requires Inv(s) && a < |s.attempts|
  {
    forall i: nat :: i < |run| ==> run[i].now < Deadline(cfg, s, run, t, a, i) && Spared(run[i].op, t)
  }

  /**
   * With the query restricted to newest attempts, an agent that reports often enough is never expired: over any run in
   * which every step happens within `leaseSeconds` of its last accepted report, whatever others request, it goes on
   * working on its task, and its lease ends at its deadline.
   */
  lemma {:induction false} PunctualIsSpared(cfg: Config, s: State, run: seq<Timed>, t: nat, a: nat, n: nat)
    requires Inv(s) && cfg.newestOnly && Working(s, t, a) && InFlight(s.tasks[t].status) && Punctual(cfg, s, run, t, a) && n <= |run|
    ensures WorksUntil(Before(cfg, s, run, n), t, a, Deadline(cfg, s, run, t, a, n))
  {
    hide Inv, Heard, Spared, IsNewest, Step;
    if n == 0 {
      assert run[..0] == [];
    } else {
      PunctualIsSpared(cfg, s, run, t, a, n - 1);
      var before, e := Before(cfg, s, run, n - 1), run[n - 1];
      StepSpares(cfg, before, e.now, e.op, t, a, Deadline(cfg, s, run, t, a, n - 1));
      BeforeNext(cfg, s, run, n - 1);
      AfterIsStep(cfg, before, e);
    }
  }

  /** And expiry after such a run ends its work exactly when the deadline has come. */
  lemma {:induction false} SilenceIsExpired(cfg: Config, s: State, run: seq<Timed>, t: nat, a: nat, now: nat)
    requires Inv(s) && cfg.newestOnly && Working(s, t, a) && InFlight(s.tasks[t].status) && Punctual(cfg, s, run, t, a)
    ensures var s' := Expire(cfg, Run(cfg, s, run), now);
            if now < Deadline(cfg, s, run, t, a, |run|) then WorksUntil(s', t, a, Deadline(cfg, s, run, t, a, |run|))
            else && t < |s'.tasks| && a < |s'.attempts|
                 && s'.tasks[t].status == InterventionRequired && !s'.tasks[t].holdsSlot
                 && s'.attempts[a].finishedAt == Some(now) && s'.attempts[a].failureReason == LeaseExpired
  {
    hide Inv, Expire, Punctual, Deadline, IsNewest, Run;
    PunctualIsSpared(cfg, s, run, t, a, |run|);
    assert run[..|run|] == run;
    var last := Run(cfg, s, run);
    ExpirySpares(cfg, last, now, t, a, Deadline(cfg, s, run, t, a, |run|));
    ExpiryEnds(cfg, last, now, a);
  }
}
