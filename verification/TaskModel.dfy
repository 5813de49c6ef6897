/** Tasks, attempts, events and images, and what one handler does to the rows it locks (pyfog/tasking.py). */
module TaskModel {
  import opened Bytes
  import opened Messages
  import opened Storage

  datatype Operation = Capture | Restore | Clone

  datatype Status = Draft | Approved | Assigned | Running | Verifying
                  | Succeeded | Failed | Cancelled | InterventionRequired

  /** `Unrecognised` stands for any phase text outside the protocol. */
  datatype Phase = Queued | Assigned | Running | Inspecting | Freezing | Capturing | Uploading | Downloading
                 | Restoring | Personalizing | Finalizing | Thawing | Cancelling | Verifying
                 | Completed | Failed | Unrecognised

  datatype EventKind = CreatedEvent | ReservedEvent | AssignedEvent | ProgressEvent | LeaseExpiredEvent
                     | CancellationRequestedEvent | CancelledEvent | ReconciledEvent | ErrorEvent | CompletedEvent

  datatype Reason = NoReason | LeaseExpired | ServerRestored | Reported(text: string)

  datatype ImageStatus = Draft | Capturing | Ready | Failed

  datatype Task = Task(
    operation: Operation, status: Status, requestedBy: nat, host: nat, image: nat, report: nat, key: nat,
    reservationKey: Option<nat>, holdsSlot: bool, phase: Phase, bytesProcessed: nat, totalBytes: Option<nat>,
    createdAt: nat, cancelRequestedAt: Option<nat>, cancelAcknowledgedAt: Option<nat>)

  datatype Attempt = Attempt(
    task: nat, number: nat, session: nat, leaseExpiresAt: nat, lastSequence: nat, phase: Phase,
    bytesProcessed: nat, totalBytes: Option<nat>, finishedAt: Option<nat>, failureReason: Reason)

  datatype Image = Image(status: ImageStatus, manifest: Option<ImageManifest>, manifestSha256: Option<Digest>,
                         verifiedAt: Option<nat>, deletedAt: Option<nat>)

  datatype Event = Event(task: nat, attempt: Option<nat>, sequence: Option<nat>, kind: EventKind, phase: Phase,
                         bytesProcessed: nat, totalBytes: Option<nat>, message: string)

  /** Settings are refused unless the lease lasts at least one second. */
  type Seconds = n: nat | 0 < n witness 1

  /** `newestOnly` restricts the expiry query to each task's newest attempt; the query as written does not. */
  datatype Config = Config(leaseSeconds: Seconds, limits: Limits, hash: Hash, newestOnly: bool)

  predicate InFlight(s: Status) { s == Status.Assigned || s == Status.Running || s == Status.Verifying }

  predicate Terminal(s: Status) { s == Succeeded || s == Status.Failed || s == Cancelled }

  predicate Active(s: Status) { s == Approved || InFlight(s) || s == InterventionRequired }

  /** Statuses in which no task capability is honoured. */
  predicate Closed(s: Status) { Terminal(s) || s == InterventionRequired }

  predicate Allowed(from: Status, to: Status) {
    match from
    case Draft => to == Approved || to == Cancelled
    case Approved => to == Status.Assigned || to == Cancelled || to == InterventionRequired
    case Assigned => to == Status.Running || to == Status.Failed || to == Cancelled || to == InterventionRequired
    case Running => to == Status.Verifying || to == Status.Failed || to == Cancelled || to == InterventionRequired
    case Verifying => to == Succeeded || to == Status.Failed || to == Cancelled || to == InterventionRequired
    case InterventionRequired => to == Approved || to == Cancelled
    case _ => false
  }

  function PhaseRank(p: Phase): nat {
    match p
    case Queued => 0
    case Assigned => 1
    case Running => 2
    case Inspecting => 3
    case Freezing => 4
    case Capturing => 5
    case Uploading => 6
    case Downloading => 6
    case Restoring => 7
    case Personalizing => 8
    case Finalizing => 9
    case Thawing => 10
    case Cancelling => 11
    case Verifying => 12
    case Completed => 13
    case Failed => 14
    case Unrecognised => 0
  }

  /** Phases an agent may report. */
  predicate AgentPhase(p: Phase) {
    p != Queued && p != Completed && p != Phase.Failed && p != Unrecognised
  }

  predicate Settled(p: Phase) { p == Completed || p == Phase.Failed }

  function Max(a: nat, b: nat): nat { if a < b then b else a }

  /* ----- handlers, on the task, attempt and image rows they change ----- */

  /** One task, one of its attempts, the task's image, and the events a handler adds. */
  datatype Rows = Rows(task: Task, attempt: Attempt, image: Image, events: seq<Event>)

  function Transition(task: Task, status: Status, phase: Phase): Option<Task> {
    if status != task.status && !Allowed(task.status, status) then None
    else if Terminal(status) then
      Some(task.(status := status, phase := phase, reservationKey := None, holdsSlot := false))
    else Some(task.(status := status, phase := phase))
  }

  function FailCapturing(image: Image): Image {
    if image.status == ImageStatus.Capturing then image.(status := ImageStatus.Failed) else image
  }

  function AttemptEvent(t: nat, a: nat, attempt: Attempt, sequence: nat, kind: EventKind, phase: Phase): Event {
    Event(t, Some(a), Some(sequence), kind, phase, attempt.bytesProcessed, attempt.totalBytes, "")
  }

  /** The body of the expiry loop for one stale attempt. */
  function ExpireRows(now: nat, t: nat, a: nat, r: Rows): Rows {
    match Transition(r.task, InterventionRequired, Phase.Failed)
    case None => r
    case Some(task) =>
      Rows(task.(holdsSlot := false),
           r.attempt.(finishedAt := Some(now), failureReason := LeaseExpired, phase := Phase.Failed,
                      lastSequence := r.attempt.lastSequence + 1),
           FailCapturing(r.image),
           [AttemptEvent(t, a, r.attempt, r.attempt.lastSequence + 1, LeaseExpiredEvent, Phase.Failed)])
  }

  /** `touch_attempt`: a heartbeat that may not move phase, bytes or total backwards. */
  function TouchRows(cfg: Config, now: nat, r: Rows, phase: Phase, bytes: nat, total: Option<nat>): Option<Rows> {
    if !AgentPhase(phase) || PhaseRank(phase) < PhaseRank(r.attempt.phase) then None
    else if bytes < r.attempt.bytesProcessed then None
    else if total.Some? && r.attempt.totalBytes.Some? && total.value < r.attempt.totalBytes.value then None
    else if total.Some? && total.value < bytes then None
    else
      var attempt := r.attempt.(leaseExpiresAt := now + cfg.leaseSeconds, phase := phase, bytesProcessed := bytes,
                                totalBytes := if total.Some? then total else r.attempt.totalBytes);
      var counted := r.task.(bytesProcessed := bytes, totalBytes := if total.Some? then total else r.task.totalBytes);
      var task := if r.task.cancelRequestedAt.Some? then counted.(phase := Cancelling)
                  else if r.task.status == Status.Assigned then r.task.(status := Status.Running, phase := phase)
                  else counted.(phase := phase);
      Some(r.(task := task, attempt := attempt))
  }

  /** The accepting path of `record_progress`. */
  function ProgressRows(cfg: Config, now: nat, t: nat, a: nat, r: Rows,
                        sequence: nat, phase: Phase, bytes: nat, total: Option<nat>, message: string): Option<Rows> {
    match TouchRows(cfg, now, r, phase, bytes, total)
    case None => None
    case Some(r1) =>
      var task := if phase == Phase.Verifying && r1.task.status == Status.Running
                  then r1.task.(status := Status.Verifying, phase := phase) else r1.task;
      Some(r1.(task := task, attempt := r1.attempt.(lastSequence := sequence),
               events := r1.events + [Event(t, Some(a), Some(sequence), ProgressEvent, phase, bytes, total, SafeMessage(message))]))
  }

  /** `fail_agent_task`; None is the transition error that rolls the request back. */
  function FailRows(now: nat, t: nat, a: nat, r: Rows, sequence: nat, reason: string): Option<Rows> {
    match Transition(r.task, Status.Failed, Phase.Failed)
    case None => None
    case Some(task) =>
      Some(Rows(task,
                r.attempt.(lastSequence := Max(r.attempt.lastSequence, sequence), finishedAt := Some(now),
                           phase := Phase.Failed, failureReason := Reported(reason)),
                FailCapturing(r.image),
                if r.attempt.lastSequence < sequence
                then r.events + [AttemptEvent(t, a, r.attempt, sequence, ErrorEvent, Phase.Failed)] else r.events))
  }

  /** `acknowledge_task_cancellation`. */
  function AcknowledgeRows(now: nat, t: nat, a: nat, r: Rows, reason: string): Option<Rows> {
    if r.task.cancelRequestedAt.None? then None
    else
      match Transition(r.task.(cancelAcknowledgedAt := Some(now)), Cancelled, Phase.Failed)
      case None => None
      case Some(task) =>
        Some(Rows(task,
                  r.attempt.(lastSequence := r.attempt.lastSequence + 1, finishedAt := Some(now),
                             phase := Phase.Failed, failureReason := Reported(reason)),
                  if r.task.operation == Capture then FailCapturing(r.image) else r.image,
                  r.events + [AttemptEvent(t, a, r.attempt, r.attempt.lastSequence + 1, CancelledEvent, Phase.Failed)]))
  }

  /** The last step of both successful results. */
  function CompleteRows(now: nat, t: nat, a: nat, r: Rows): Option<Rows> {
    match Transition(r.task, Succeeded, Completed)
    case None => None
    case Some(task) =>
      Some(r.(task := task,
              attempt := r.attempt.(lastSequence := r.attempt.lastSequence + 1, finishedAt := Some(now), phase := Completed),
              events := r.events + [AttemptEvent(t, a, r.attempt, r.attempt.lastSequence + 1, CompletedEvent, Completed)]))
  }

  /** What a cancellation request does to the task row; None when it changes nothing. */
  function CancelTask(now: nat, task: Task): Option<Task> {
    if Terminal(task.status) || task.status == InterventionRequired || task.cancelRequestedAt.Some? then None
    else
      var asked := task.(cancelRequestedAt := Some(now));
      if task.status == Approved then
        Some(asked.(status := Cancelled, reservationKey := None, holdsSlot := false, cancelAcknowledgedAt := Some(now)))
      else Some(asked.(phase := Cancelling))
  }

  /** `reconcile_task` on a task that requires intervention. */
  function ReconcileTask(task: Task): Task {
    task.(cancelRequestedAt := None, cancelAcknowledgedAt := None, holdsSlot := false, bytesProcessed := 0,
          status := Approved, phase := Queued)
  }
}
