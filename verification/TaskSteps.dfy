/**
 * The transactions on the task database, the image catalogue and the artifact store: what each
 * request of pyfog/api.py and pyfog/web.py commits. `Step` is the step relation.
 */
module TaskSteps {
  import opened Bytes
  import opened Storage
  import opened TaskModel

  /** Rows are numbered in creation order; a row's index is its identifier. */
  datatype State = State(tasks: seq<Task>, attempts: seq<Attempt>, images: seq<Image>, events: seq<Event>, store: Store)

  const EMPTY: State := State([], [], [], [], Store(map[], map[]))

  datatype Reply = Accepted | Unchanged | NoWork | NotFound | Unauthorized | Conflict | Gone | Unprocessable | ServerError

  /** Foreign keys. */
  predicate Linked(s: State) {
    && (forall a :: 0 <= a < |s.attempts| ==> s.attempts[a].task < |s.tasks|)
    && (forall t :: 0 <= t < |s.tasks| ==> s.tasks[t].image < |s.images|)
  }

  predicate Owns(s: State, t: nat, a: nat) {
    t < |s.tasks| && a < |s.attempts| && s.attempts[a].task == t
  }

  function RowsOf(s: State, t: nat, a: nat): Rows
    requires Linked(s) && Owns(s, t, a)
  {
    Rows(s.tasks[t], s.attempts[a], s.images[s.tasks[t].image], [])
  }

  /** Write back the rows of one task and attempt, and append their events. */
  function Commit(s: State, t: nat, a: nat, r: Rows): State
    requires Linked(s) && Owns(s, t, a)
  {
    s.(tasks := s.tasks[t := r.task], attempts := s.attempts[a := r.attempt],
       images := s.images[s.tasks[t].image := r.image], events := s.events + r.events)
  }

  /* ----- lease expiry ----- */

  predicate IsNewest(attempts: seq<Attempt>, a: nat) {
    a < |attempts| && forall b :: a < b < |attempts| ==> attempts[b].task != attempts[a].task
  }

  /** The expiry query: an elapsed lease on a task in flight. */
  predicate Stale(cfg: Config, s: State, now: nat, a: nat)
    requires Linked(s) && a < |s.attempts|
  {
    && InFlight(s.tasks[s.attempts[a].task].status)
    && s.attempts[a].leaseExpiresAt <= now
    && (cfg.newestOnly ==> IsNewest(s.attempts, a))
  }

  predicate SameShape(s: State, s': State) {
    && |s'.tasks| == |s.tasks| && |s'.attempts| == |s.attempts| && |s'.images| == |s.images|
    && (forall a :: 0 <= a < |s.attempts| ==> s'.attempts[a].task == s.attempts[a].task)
    && (forall t :: 0 <= t < |s.tasks| ==> s'.tasks[t].image == s.tasks[t].image)
  }

  /** The expiry loop after the first `n` attempts of the query on `s`. */
  function ExpireFirst(cfg: Config, s: State, now: nat, n: nat): (s': State)
    requires Linked(s) && n <= |s.attempts|
    ensures Linked(s') && SameShape(s, s')
  {
    if n == 0 then s
    else
      var before := ExpireFirst(cfg, s, now, n - 1);
      if !Stale(cfg, s, now, n - 1) then before
      else
        var t := s.attempts[n - 1].task;
        Commit(before, t, n - 1, ExpireRows(now, t, n - 1, RowsOf(before, t, n - 1)))
  }

  function Expire(cfg: Config, s: State, now: nat): (s': State)
    requires Linked(s)
    ensures Linked(s') && SameShape(s, s')
  {
    ExpireFirst(cfg, s, now, |s.attempts|)
  }

  /* ----- creating tasks ----- */

  predicate KeyUsed(s: State, key: nat) { exists t :: 0 <= t < |s.tasks| && s.tasks[t].key == key }

  /** The same user asked for the same thing before: the answer is the task made then. */
  predicate KeyUsedBy(s: State, key: nat, user: nat) {
    exists t :: 0 <= t < |s.tasks| && s.tasks[t].key == key && s.tasks[t].requestedBy == user
  }

  predicate HostReserved(s: State, host: nat) {
    exists t :: 0 <= t < |s.tasks| && s.tasks[t].reservationKey == Some(host)
  }

  function NewTask(op: Operation, user: nat, host: nat, image: nat, report: nat, key: nat, total: nat, now: nat): Task {
    Task(op, Approved, user, host, image, report, key, Some(host), false, Queued, 0, Some(total), now, None, None)
  }

  function CreationEvents(t: nat, total: nat): seq<Event> {
    [Event(t, None, None, CreatedEvent, Queued, 0, Some(total), ""),
     Event(t, None, None, ReservedEvent, Queued, 0, Some(total), "")]
  }

  const DRAFT: Image := Image(ImageStatus.Draft, None, None, None, None)

  /** Register an image row nobody has captured yet. */
  function CreateDraft(s: State, valid: bool): (r: (State, Reply)) {
    if valid then (s.(images := s.images + [DRAFT]), Accepted) else (s, Unprocessable)
  }

  /** Request a capture on a draft image row, or on a new one; `valid` is the rest of the form. */
  function CreateCapture(s: State, now: nat, user: nat, host: nat, draft: Option<nat>, report: nat, key: nat, total: nat, valid: bool)
    : (r: (State, Reply))
  {
    if KeyUsedBy(s, key, user) then (s, Unchanged)
    else if KeyUsed(s, key) || HostReserved(s, host) || !valid then (s, Unprocessable)
    else if draft.Some? && !(draft.value < |s.images| && s.images[draft.value].status == ImageStatus.Draft
                             && s.images[draft.value].deletedAt.None?) then (s, Unprocessable)
    else
      var images := if draft.Some? then s.images else s.images + [DRAFT];
      var i := if draft.Some? then draft.value else |s.images|;
      (s.(tasks := s.tasks + [NewTask(Capture, user, host, i, report, key, total, now)],
          images := images[i := images[i].(status := ImageStatus.Capturing)],
          events := s.events + CreationEvents(|s.tasks|, total)), Accepted)
  }

  /** An image that can be deployed: ready, verified, not deleted, and with all its files published. */
  predicate Selectable(s: State, i: nat) {
    && i < |s.images|
    && s.images[i].status == ImageStatus.Ready && s.images[i].deletedAt.None?
    && s.images[i].verifiedAt.Some? && s.images[i].manifest.Some?
    && s.images[i].manifest.value.imageId == i && s.images[i].manifest.value.supported
    && i in s.store.published
    && forall k :: 0 <= k < |s.images[i].manifest.value.artifacts| ==>
                     s.images[i].manifest.value.artifacts[k].path in s.store.published[i]
  }

  function CreateDeployment(s: State, now: nat, user: nat, host: nat, clone: bool, i: nat, report: nat, key: nat, valid: bool)
    : (r: (State, Reply))
  {
    if KeyUsedBy(s, key, user) then (s, Unchanged)
    else if KeyUsed(s, key) || HostReserved(s, host) || !valid || !Selectable(s, i) then (s, Unprocessable)
    else
      var total := DeclaredSize(s.images[i].manifest.value.artifacts);
      (s.(tasks := s.tasks + [NewTask(if clone then Clone else Restore, user, host, i, report, key, total, now)],
          events := s.events + CreationEvents(|s.tasks|, total)), Accepted)
  }

  /* ----- claiming ----- */

  predicate SessionUsed(s: State, session: nat) {
    exists a :: 0 <= a < |s.attempts| && s.attempts[a].session == session
  }

  predicate SlotTaken(s: State) { exists t :: 0 <= t < |s.tasks| && s.tasks[t].holdsSlot }

  predicate Claimable(s: State, host: nat, t: nat) {
    t < |s.tasks| && s.tasks[t].host == host && s.tasks[t].status == Approved
  }

  /** The oldest approved task of a host among the first `n`. */
  function OldestApproved(s: State, host: nat, n: nat): (r: Option<nat>)
    requires n <= |s.tasks|
    ensures r.Some? ==> r.value < n && Claimable(s, host, r.value)
    ensures r.Some? ==> forall t: nat :: t < n && Claimable(s, host, t) ==> s.tasks[r.value].createdAt <= s.tasks[t].createdAt
    ensures r.None? ==> forall t: nat :: t < n ==> !Claimable(s, host, t)
  {
    if n == 0 then None
    else
      var best := OldestApproved(s, host, n - 1);
      if Claimable(s, host, n - 1) && (best.None? || s.tasks[n - 1].createdAt < s.tasks[best.value].createdAt)
      then Some(n - 1) else best
  }

  /** The highest attempt number of a task among the first `n` attempts; 0 when it has none. */
  function LastNumber(attempts: seq<Attempt>, t: nat, n: nat): (r: nat)
    requires n <= |attempts|
    ensures forall a: nat :: a < n && attempts[a].task == t ==> attempts[a].number <= r
  {
    if n == 0 then 0
    else
      var best := LastNumber(attempts, t, n - 1);
      if attempts[n - 1].task == t then Max(best, attempts[n - 1].number) else best
  }

  function NewAttempt(cfg: Config, s: State, now: nat, t: nat, session: nat): Attempt
    requires t < |s.tasks|
  {
    Attempt(t, LastNumber(s.attempts, t, |s.attempts|) + 1, session, now + cfg.leaseSeconds, 0, Phase.Assigned, 0,
            s.tasks[t].totalBytes, None, NoReason)
  }

  function Assign(cfg: Config, s: State, now: nat, t: nat, session: nat): State
    requires t < |s.tasks|
  {
    var a := |s.attempts|;
    s.(tasks := s.tasks[t := s.tasks[t].(holdsSlot := true, status := Status.Assigned, phase := Phase.Assigned)],
       attempts := s.attempts + [NewAttempt(cfg, s, now, t, session)],
       events := s.events + [Event(t, Some(a), Some(0), AssignedEvent, Phase.Assigned, 0, s.tasks[t].totalBytes, "")])
  }

  /** `claim_task` after its expiry commit; `capable` is the capability check for the chosen task. */
  function Claim(cfg: Config, s: State, now: nat, host: nat, session: nat, capable: bool): (r: (State, Reply)) {
    if SessionUsed(s, session) then (s, Conflict)
    else if SlotTaken(s) then (s, NoWork)
    else
      match OldestApproved(s, host, |s.tasks|)
      case None => (s, NoWork)
      case Some(t) => if !capable then (s, Conflict) else (Assign(cfg, s, now, t, session), Accepted)
  }

  /* ----- agent requests ----- */

  datatype Authority = Granted | Denied(reply: Reply) | Lapsed

  /** `task_attempt_for_token`: a capability is the attempt it was issued for. */
  function Authorise(s: State, now: nat, t: nat, token: nat, credential: bool): Authority
    requires Linked(s)
  {
    if t >= |s.tasks| then Denied(NotFound)
    else if !Owns(s, t, token) || !credential then Denied(Unauthorized)
    else if Closed(s.tasks[t].status) then Denied(Conflict)
    else if s.attempts[token].leaseExpiresAt <= now then Lapsed
    else Granted
  }

  function Heartbeat(cfg: Config, s: State, now: nat, t: nat, a: nat, phase: Option<Phase>, bytes: nat, total: Option<nat>)
    : (r: (State, Reply))
    requires Linked(s) && Owns(s, t, a)
  {
    var old' := s.attempts[a];
    match TouchRows(cfg, now, RowsOf(s, t, a), if phase.Some? then phase.value else old'.phase,
                    Max(old'.bytesProcessed, bytes), if total.Some? then total else old'.totalBytes)
    case None => (s, Unprocessable)
    case Some(rows) => (Commit(s, t, a, rows), Accepted)
  }

  /** The event an attempt already logged under a sequence number. */
  function FindEvent(events: seq<Event>, a: nat, sequence: nat): (r: Option<Event>)
    ensures r.Some? <==> exists k :: 0 <= k < |events| && events[k].attempt == Some(a) && events[k].sequence == Some(sequence)
    ensures r.Some? ==> r.value in events && r.value.attempt == Some(a) && r.value.sequence == Some(sequence)
  {
    if events == [] then None
    else if events[0].attempt == Some(a) && events[0].sequence == Some(sequence) then Some(events[0])
    else
      assert forall k :: 0 <= k < |events[1..]| ==> events[1..][k] == events[k + 1];
      FindEvent(events[1..], a, sequence)
  }

  datatype ProgressOutcome = Recorded(rows: Rows) | Replayed | Rejected

  /** `record_progress`: an exact repeat is ignored, a late one too, and time only moves forward. */
  function RecordProgress(cfg: Config, s: State, now: nat, t: nat, a: nat,
                          sequence: nat, phase: Phase, bytes: nat, total: Option<nat>, message: string): ProgressOutcome
    requires Linked(s) && Owns(s, t, a)
  {
    if !AgentPhase(phase) then ProgressOutcome.Rejected
    else
      match FindEvent(s.events, a, sequence)
      case Some(e) =>
        if e.phase == phase && e.bytesProcessed == bytes && e.totalBytes == total && e.message == message
        then Replayed else ProgressOutcome.Rejected
      case None =>
        if sequence <= s.attempts[a].lastSequence then Replayed
        else
          match ProgressRows(cfg, now, t, a, RowsOf(s, t, a), sequence, phase, bytes, total, message)
          case None => ProgressOutcome.Rejected
          case Some(rows) => Recorded(rows)
  }

  function Progress(cfg: Config, s: State, now: nat, t: nat, a: nat,
                    sequence: nat, phase: Phase, bytes: nat, total: Option<nat>, message: string): (r: (State, Reply))
    requires Linked(s) && Owns(s, t, a)
  {
    match RecordProgress(cfg, s, now, t, a, sequence, phase, bytes, total, message)
    case Rejected => (s, Conflict)
    case Replayed => (s, Unchanged)
    case Recorded(rows) => (Commit(s, t, a, rows), Accepted)
  }

  /** An upload writes the store first; a refused heartbeat then rolls back only the database. */
  ghost function Upload(cfg: Config, s: State, now: nat, t: nat, a: nat, path: Path, c: Chunk, room: bool): (r: (State, Reply))
    requires Linked(s) && Owns(s, t, a)
  {
    var (store, reply) := ChunkStep(cfg.hash, cfg.limits, s.store, t, path, c, room);
    var s1 := s.(store := store);
    if reply == ChunkReply.Rejected then (s1, Conflict)
    else
      match TouchRows(cfg, now, RowsOf(s1, t, a), Phase.Uploading,
                      Max(s.attempts[a].bytesProcessed, c.offset + |c.payload|), s.attempts[a].totalBytes)
      case None => (s1, Conflict)
      case Some(rows) => (Commit(s1, t, a, rows), Accepted)
  }

  function Acknowledge(s: State, now: nat, t: nat, a: nat, reason: string): (r: (State, Reply))
    requires Linked(s) && Owns(s, t, a)
  {
    match AcknowledgeRows(now, t, a, RowsOf(s, t, a), reason)
    case None => (s, Conflict)
    case Some(rows) =>
      var s1 := Commit(s, t, a, rows);
      (if rows.task.operation == Capture then s1.(store := s1.store.(staging := s1.store.staging - {t})) else s1, Accepted)
  }

  function FailTask(s: State, now: nat, t: nat, a: nat, sequence: nat, reason: string): (r: (State, Reply))
    requires Linked(s) && Owns(s, t, a)
  {
    match FailRows(now, t, a, RowsOf(s, t, a), sequence, reason)
    case None => (s, ServerError)
    case Some(rows) => (Commit(s, t, a, rows), Accepted)
  }

  /** A restore or clone reports success: verified, then succeeded, or nothing at all. */
  function FinishRestore(cfg: Config, s: State, now: nat, t: nat, a: nat, sequence: nat, manifest: bool): (r: (State, Reply))
    requires Linked(s) && Owns(s, t, a)
  {
    if manifest then (s, Unprocessable)
    else if sequence <= s.attempts[a].lastSequence then (s, Unchanged)
    else
      match RecordProgress(cfg, s, now, t, a, sequence, Phase.Verifying, s.attempts[a].bytesProcessed, s.attempts[a].totalBytes, "")
      case Rejected => (s, Conflict)
      case Replayed => CompleteOrRollBack(s, s, now, t, a, RowsOf(s, t, a))
      case Recorded(rows) => CompleteOrRollBack(s, s, now, t, a, rows)
  }

  /** The final transition on rows not committed yet; a transition error rolls back to `saved`. */
  function CompleteOrRollBack(saved: State, s: State, now: nat, t: nat, a: nat, r: Rows): (r': (State, Reply))
    requires Linked(s) && Owns(s, t, a)
  {
    match CompleteRows(now, t, a, r)
    case None => (saved, Conflict)
    case Some(rows) => (Commit(s, t, a, rows), Accepted)
  }

  /** A parsed manifest is the one this task was reserved for. */
  predicate ManifestAccepted(task: Task, m: ImageManifest) {
    && WellFormedManifest(m) && m.supported
    && m.imageId == task.image && m.hostId == task.host && m.reportId == task.report
  }

  function PublishedImage(h: Hash, m: ImageManifest, now: nat, image: Image): Image {
    image.(status := ImageStatus.Ready, manifest := Some(m), manifestSha256 := Some(h(m.text)), verifiedAt := Some(now))
  }

  /** A capture reports success: progress is committed, then the publication, then the task. */
  function FinishCapture(cfg: Config, s: State, now: nat, t: nat, a: nat, sequence: nat, manifest: Option<ImageManifest>, room: bool)
    : (r: (State, Reply))
    requires Linked(s) && Owns(s, t, a)
  {
    if manifest.None? then (s, Unprocessable)
    else if sequence <= s.attempts[a].lastSequence then (s, Unchanged)
    else if !ManifestAccepted(s.tasks[t], manifest.value) then FailTask(s, now, t, a, sequence, "manifest")
    else
      match RecordProgress(cfg, s, now, t, a, sequence, Phase.Verifying, s.attempts[a].bytesProcessed, s.attempts[a].totalBytes, "")
      case Rejected => FailTask(s, now, t, a, sequence + 1, "progress")
      case Replayed => (s, Unchanged)
      case Recorded(rows) => PublishCapture(cfg, Commit(s, t, a, rows), now, t, a, sequence, manifest.value, room)
  }

  /** After the progress commit; a transition error here leaves the publication behind. */
  function PublishCapture(cfg: Config, s: State, now: nat, t: nat, a: nat, sequence: nat, m: ImageManifest, room: bool)
    : (r: (State, Reply))
    requires Linked(s) && Owns(s, t, a)
  {
    var image := s.tasks[t].image;
    if !CanPublish(cfg.hash, cfg.limits, s.store, t, image, m, room) then FailTask(s, now, t, a, sequence + 1, "storage")
    else
      var s1 := s.(store := Publish(s.store, t, image));
      var r := RowsOf(s1, t, a);
      match CompleteRows(now, t, a, r.(image := PublishedImage(cfg.hash, m, now, r.image)))
      case None => (s1, ServerError)
      case Some(rows) => (Commit(s1, t, a, rows), Accepted)
  }

  /** What an agent reports as the result of its attempt. */
  datatype Result = Result(sequence: nat, success: bool, cancelled: bool, manifest: Option<ImageManifest>, error: string, room: bool)

  function Finish(cfg: Config, s: State, now: nat, t: nat, a: nat, p: Result): (r: (State, Reply))
    requires Linked(s) && Owns(s, t, a)
  {
    if p.cancelled || s.tasks[t].cancelRequestedAt.Some? then Acknowledge(s, now, t, a, p.error)
    else if !p.success then FailTask(s, now, t, a, p.sequence, p.error)
    else if s.tasks[t].operation != Capture then FinishRestore(cfg, s, now, t, a, p.sequence, p.manifest.Some?)
    else FinishCapture(cfg, s, now, t, a, p.sequence, p.manifest, p.room)
  }

  /* ----- operator requests ----- */

  function Cancel(s: State, now: nat, t: nat): (r: (State, Reply))
    requires Linked(s)
  {
    if t >= |s.tasks| then (s, NotFound)
    else if s.tasks[t].status == InterventionRequired then (s, Conflict)
    else
      match CancelTask(now, s.tasks[t])
      case None => (s, Unchanged)
      case Some(task) =>
        var kind := if task.status == Cancelled then CancelledEvent else CancellationRequestedEvent;
        var i := task.image;
        (s.(tasks := s.tasks[t := task],
            images := if task.operation == Capture then s.images[i := FailCapturing(s.images[i])] else s.images,
            events := s.events + [Event(t, None, None, kind, task.phase, task.bytesProcessed, task.totalBytes, "")]), Accepted)
  }

  function Reconcile(s: State, t: nat): (r: (State, Reply))
    requires Linked(s)
  {
    if t >= |s.tasks| then (s, NotFound)
    else if s.tasks[t].status != InterventionRequired then (s, Conflict)
    else
      var i := s.tasks[t].image;
      (s.(tasks := s.tasks[t := TaskModel.ReconcileTask(s.tasks[t])],
          images := if s.tasks[t].operation == Capture then s.images[i := s.images[i].(status := ImageStatus.Capturing)] else s.images,
          events := s.events + [Event(t, None, None, ReconciledEvent, Queued, 0, None, "")],
          store := s.store.(staging := s.store.staging - {t})), Accepted)
  }

  predicate ImageBusy(s: State, i: nat) {
    exists t :: 0 <= t < |s.tasks| && s.tasks[t].image == i && Active(s.tasks[t].status)
  }

  function DeleteImage(s: State, now: nat, i: nat): (r: (State, Reply)) {
    if i >= |s.images| then (s, NotFound)
    else if s.images[i].deletedAt.Some? then (s, Unchanged)
    else if ImageBusy(s, i) then (s, Conflict)
    else
      (s.(images := s.images[i := s.images[i].(deletedAt := Some(now), verifiedAt := None)],
          store := s.store.(published := s.store.published - {i})), Accepted)
  }

  /* ----- post-restore invalidation ----- */

  function InvalidateAttempt(s: State, now: nat, a: nat): Attempt
    requires Linked(s) && a < |s.attempts|
  {
    if s.attempts[a].finishedAt.None? && InFlight(s.tasks[s.attempts[a].task].status)
    then s.attempts[a].(finishedAt := Some(now), phase := Phase.Failed, failureReason := ServerRestored)
    else s.attempts[a]
  }

  function InvalidateTask(attempts: seq<Attempt>, task: Task, t: nat): Task {
    if InFlight(task.status)
       && (exists a :: 0 <= a < |attempts| && attempts[a].task == t && attempts[a].finishedAt.Some?
                       && attempts[a].failureReason == ServerRestored)
    then task.(status := InterventionRequired, holdsSlot := false, cancelRequestedAt := None, cancelAcknowledgedAt := None)
    else task
  }

  /** The two SQL updates run on a database recovered from a backup. */
  function RestoreBackup(s: State, now: nat): State
    requires Linked(s)
  {
    var attempts := seq(|s.attempts|, a requires 0 <= a < |s.attempts| => InvalidateAttempt(s, now, a));
    var tasks := seq(|s.tasks|, t requires 0 <= t < |s.tasks| => InvalidateTask(attempts, s.tasks[t], t));
    s.(attempts := attempts, tasks := tasks)
  }

  /* ----- the step relation ----- */

  datatype Op =
    | OpDraft(valid: bool)
    | OpCapture(user: nat, host: nat, draft: Option<nat>, report: nat, key: nat, total: nat, valid: bool)
    | OpDeploy(user: nat, host: nat, clone: bool, image: nat, report: nat, key: nat, valid: bool)
    | OpClaim(host: nat, session: nat, capable: bool)
    | OpHeartbeat(task: nat, token: nat, credential: bool, phase: Option<Phase>, bytes: nat, total': Option<nat>)
    | OpProgress(task: nat, token: nat, credential: bool, sequence: nat, phase': Phase, bytes: nat, total': Option<nat>, message: string)
    | OpUpload(task: nat, token: nat, credential: bool, path: Path, chunk: Chunk, room: bool)
    | OpFinish(task: nat, token: nat, credential: bool, result: Result)
    | OpCancel(task: nat)
    | OpReconcile(task: nat)
    | OpDelete(image: nat)
    | OpExpire
    | OpRestoreBackup

  predicate IsAgentOp(op: Op) { op.OpHeartbeat? || op.OpProgress? || op.OpUpload? || op.OpFinish? }

  /** An agent request once its capability has been accepted. */
  ghost function Serve(cfg: Config, s: State, now: nat, op: Op): (r: (State, Reply))
    requires Linked(s) && IsAgentOp(op) && Owns(s, op.task, op.token)
  {
    match op
    case OpHeartbeat(t, a, _, phase, bytes, total) => Heartbeat(cfg, s, now, t, a, phase, bytes, total)
    case OpProgress(t, a, _, sequence, phase, bytes, total, message) =>
      Progress(cfg, s, now, t, a, sequence, phase, bytes, total, message)
    case OpUpload(t, a, _, path, chunk, room) => Upload(cfg, s, now, t, a, path, chunk, room)
    case OpFinish(t, a, _, result) => Finish(cfg, s, now, t, a, result)
  }

  /** One transaction. Requests that expire stale leases first are two transactions. */
  ghost function Step(cfg: Config, s: State, now: nat, op: Op): (r: (State, Reply))
    requires Linked(s)
  {
    match op
    case OpDraft(valid) => CreateDraft(s, valid)
    case OpCapture(user, host, draft, report, key, total, valid) => CreateCapture(s, now, user, host, draft, report, key, total, valid)
    case OpDeploy(user, host, clone, image, report, key, valid) => CreateDeployment(s, now, user, host, clone, image, report, key, valid)
    case OpClaim(host, session, capable) => Claim(cfg, s, now, host, session, capable)
    case OpCancel(t) => Cancel(s, now, t)
    case OpReconcile(t) => Reconcile(s, t)
    case OpDelete(i) => DeleteImage(s, now, i)
    case OpExpire => (Expire(cfg, s, now), Accepted)
    case OpRestoreBackup => (RestoreBackup(s, now), Accepted)
    case _ =>
      match Authorise(s, now, op.task, op.token, op.credential)
      case Denied(reply) => (s, reply)
      case Lapsed => (Expire(cfg, s, now), Gone)
      case Granted => Serve(cfg, s, now, op)
  }
}
