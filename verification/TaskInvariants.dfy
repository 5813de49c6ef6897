/** The joint invariant of tasks, attempts and events, and that every transaction keeps it. */
module TaskInvariants {
  import opened Bytes
  import opened TaskModel
  import opened TaskSteps

  /* ----- the invariant ----- */

  /** Slot, reservation and cancellation marks of a task agree with its status. */
  predicate TaskOk(task: Task) {
    && task.status != Status.Draft
    && (InFlight(task.status) <==> task.holdsSlot)
    && task.reservationKey == (if Terminal(task.status) then None else Some(task.host))
    && (task.cancelRequestedAt.Some? ==> InFlight(task.status) || task.status == Cancelled || task.status == InterventionRequired)
  }

  /** An attempt is finished exactly when its phase is settled; only a succeeded task has a completed one. */
  predicate AttemptOk(attempt: Attempt, task: Task) {
    && (attempt.finishedAt.Some? <==> Settled(attempt.phase))
    && (attempt.phase == Completed ==> task.status == Succeeded)
  }

  predicate OneSlot(tasks: seq<Task>) {
    forall t, u :: 0 <= t < |tasks| && 0 <= u < |tasks| && tasks[t].holdsSlot && tasks[u].holdsSlot ==> t == u
  }

  predicate OneTaskPerHost(tasks: seq<Task>) {
    forall t, u :: 0 <= t < u < |tasks| && !Terminal(tasks[t].status) && !Terminal(tasks[u].status) ==>
                     tasks[t].host != tasks[u].host
  }

  /** The attempt now working on a task: its newest one, not finished. */
  predicate Working(s: State, t: nat, a: nat) {
    Owns(s, t, a) && IsNewest(s.attempts, a) && s.attempts[a].finishedAt.None?
  }

  ghost predicate NewestUnfinished(s: State) {
    forall t: nat :: t < |s.tasks| && InFlight(s.tasks[t].status) ==> exists a :: Working(s, t, a)
  }

  function CountOf(attempts: seq<Attempt>, t: nat, n: nat): nat
    requires n <= |attempts|
  {
    if n == 0 then 0 else CountOf(attempts, t, n - 1) + if attempts[n - 1].task == t then 1 else 0
  }

  /** The attempts of a task are numbered 1, 2, 3, ... in the order they were made. */
  predicate Numbered(attempts: seq<Attempt>) {
    forall a :: 0 <= a < |attempts| ==> attempts[a].number == CountOf(attempts, attempts[a].task, a) + 1
  }

  predicate EventOk(attempts: seq<Attempt>, e: Event) {
    e.attempt.Some? ==> e.attempt.value < |attempts| && e.sequence.Some?
                        && e.sequence.value <= attempts[e.attempt.value].lastSequence
  }

  /** Per attempt, event sequences strictly increase in insertion order and stay below the high-water mark. */
  predicate EventsOk(attempts: seq<Attempt>, events: seq<Event>) {
    && (forall i :: 0 <= i < |events| ==> EventOk(attempts, events[i]))
    && forall i, j :: 0 <= i < j < |events| && events[i].attempt.Some? && events[i].attempt == events[j].attempt ==>
                        events[i].sequence.value < events[j].sequence.value
  }

  ghost predicate Inv(s: State) {
    && Linked(s)
    && (forall t :: 0 <= t < |s.tasks| ==> TaskOk(s.tasks[t]))
    && (forall a :: 0 <= a < |s.attempts| ==> AttemptOk(s.attempts[a], s.tasks[s.attempts[a].task]))
    && OneSlot(s.tasks)
    && OneTaskPerHost(s.tasks)
    && NewestUnfinished(s)
    && Numbered(s.attempts)
    && EventsOk(s.attempts, s.events)
  }

  /* ----- what a handler may do to its rows ----- */

  function StatusRank(s: Status): nat {
    match s
    case Draft => 0
    case Approved => 1
    case Assigned => 2
    case Running => 3
    case Verifying => 4
    case InterventionRequired => 5
    case _ => 6
  }

  /** Every allowed status change climbs, except reopening a task that required intervention. */
  lemma TransitionsClimb(from: Status, to: Status)
    requires Allowed(from, to)
    ensures StatusRank(from) < StatusRank(to) <==> !(from == InterventionRequired && to == Approved)
  {
  }

  /** What a task keeps for life. */
  predicate SameTask(task: Task, task': Task) {
    && task'.operation == task.operation && task'.host == task.host && task'.image == task.image
    && task'.report == task.report && task'.key == task.key && task'.requestedBy == task.requestedBy
    && task'.createdAt == task.createdAt
  }

  predicate Climbs(task: Task, task': Task) {
    task'.status == task.status || StatusRank(task.status) < StatusRank(task'.status)
  }

  predicate StaysCancelled(task: Task, task': Task) {
    task.cancelRequestedAt.Some? ==> task'.cancelRequestedAt.Some?
  }

  /** An attempt never goes back: phase, bytes, total and sequence grow, and the end is final. */
  predicate Grows(x: Attempt, x': Attempt) {
    && x'.task == x.task && x'.number == x.number && x'.session == x.session
    && PhaseRank(x.phase) <= PhaseRank(x'.phase)
    && x.bytesProcessed <= x'.bytesProcessed
    && (x.totalBytes.Some? ==> x'.totalBytes.Some? && x.totalBytes.value <= x'.totalBytes.value)
    && x.lastSequence <= x'.lastSequence
    && (x.finishedAt.Some? ==> x'.finishedAt.Some? && x'.leaseExpiresAt == x.leaseExpiresAt)
  }

  /** The events a handler adds continue its attempt's sequence. */
  predicate EventsContinue(events: seq<Event>, a: nat, low: nat, high: nat) {
    && (forall k :: 0 <= k < |events| ==>
                      && events[k].attempt == Some(a) && events[k].sequence.Some?
                      && low < events[k].sequence.value <= high)
    && forall j, k :: 0 <= j < k < |events| ==> events[j].sequence.value < events[k].sequence.value
  }

  /** The capability of this attempt passes the status and lease checks. */
  predicate Honoured(task: Task, attempt: Attempt, now: nat) {
    !Closed(task.status) && now < attempt.leaseExpiresAt
  }

  /** What every handler guarantees about the rows it writes back. */
  predicate SoundChange(now: nat, a: nat, r: Rows, r': Rows) {
    && SameTask(r.task, r'.task) && Climbs(r.task, r'.task) && StaysCancelled(r.task, r'.task) && TaskOk(r'.task)
    && (r'.task.holdsSlot ==> r.task.holdsSlot)
    && Grows(r.attempt, r'.attempt) && AttemptOk(r'.attempt, r'.task)
    && (InFlight(r'.task.status) && r'.attempt.finishedAt.Some? ==> r.attempt.finishedAt.Some?)
    && (Honoured(r'.task, r'.attempt, now) ==> Honoured(r.task, r.attempt, now))
    && EventsContinue(r'.events, a, r.attempt.lastSequence, r'.attempt.lastSequence)
  }

  /** A capture in the queue or in flight that nobody asked to cancel. */
  predicate Pending(task: Task) {
    (task.status == Approved || InFlight(task.status)) && task.cancelRequestedAt.None?
  }

  /** A handler leaves the image alone, or fails it with its capture. */
  predicate ImageFollows(r: Rows, r': Rows) {
    && (r'.image == r.image || (r.image.status == ImageStatus.Capturing && r'.image == r.image.(status := ImageStatus.Failed)))
    && (r.task.operation == Capture && (r.image.status == ImageStatus.Capturing <==> Pending(r.task)) ==>
          (r'.image.status == ImageStatus.Capturing <==> Pending(r'.task)))
  }

  /* ----- generic preservation: one commit ----- */

  lemma {:induction false} CountFrame(attempts: seq<Attempt>, attempts': seq<Attempt>, t: nat, n: nat)
    requires n <= |attempts| && n <= |attempts'|
    requires forall a :: 0 <= a < n ==> attempts'[a].task == attempts[a].task
    ensures CountOf(attempts', t, n) == CountOf(attempts, t, n)
  {
    if n > 0 { CountFrame(attempts, attempts', t, n - 1); }
  }

  lemma NumberedFrame(attempts: seq<Attempt>, attempts': seq<Attempt>)
    requires Numbered(attempts) && |attempts'| == |attempts|
    requires forall a :: 0 <= a < |attempts| ==> attempts'[a].task == attempts[a].task && attempts'[a].number == attempts[a].number
    ensures Numbered(attempts')
  {
    forall a | 0 <= a < |attempts| ensures attempts'[a].number == CountOf(attempts', attempts'[a].task, a) + 1 {
      CountFrame(attempts, attempts', attempts[a].task, a);
    }
  }

  lemma EventsExtend(attempts: seq<Attempt>, attempts': seq<Attempt>, events: seq<Event>, more: seq<Event>, a: nat)
    requires EventsOk(attempts, events) && a < |attempts| == |attempts'|
    requires forall b :: 0 <= b < |attempts| ==> attempts[b].lastSequence <= attempts'[b].lastSequence
    requires EventsContinue(more, a, attempts[a].lastSequence, attempts'[a].lastSequence)
    ensures EventsOk(attempts', events + more)
  {
    var all := events + more;
    forall i | 0 <= i < |all| ensures EventOk(attempts', all[i]) {
      if i < |events| { assert EventOk(attempts, events[i]); }
    }
    forall i, j | 0 <= i < j < |all| && all[i].attempt.Some? && all[i].attempt == all[j].attempt
      ensures all[i].sequence.value < all[j].sequence.value
    {
      if i < |events| { assert EventOk(attempts, events[i]); }
    }
  }

  lemma NewestKept(s: State, t: nat, a: nat, r': Rows)
    requires Linked(s) && NewestUnfinished(s) && Owns(s, t, a) && TaskOk(s.tasks[t])
    requires r'.task.holdsSlot ==> s.tasks[t].holdsSlot
    requires SameTask(s.tasks[t], r'.task) && TaskOk(r'.task) && r'.attempt.task == t
    requires InFlight(r'.task.status) && r'.attempt.finishedAt.Some? ==> s.attempts[a].finishedAt.Some?
    ensures NewestUnfinished(Commit(s, t, a, r'))
  {
    var s' := Commit(s, t, a, r');
    forall u: nat | u < |s'.tasks| && InFlight(s'.tasks[u].status) ensures exists b :: Working(s', u, b) {
      assert InFlight(s.tasks[u].status);
      var b :| Working(s, u, b);
      assert Working(s', u, b);
    }
  }

  lemma CommitKeepsInv(s: State, now: nat, t: nat, a: nat, r': Rows)
    requires Inv(s) && Owns(s, t, a) && SoundChange(now, a, RowsOf(s, t, a), r')
    ensures Inv(Commit(s, t, a, r'))
  {
    hide NewestUnfinished, Numbered, EventsOk, EventsContinue;
    var s' := Commit(s, t, a, r');
    NewestKept(s, t, a, r');
    NumberedFrame(s.attempts, s'.attempts);
    EventsExtend(s.attempts, s'.attempts, s.events, r'.events, a);
  }

  /* ----- each handler makes a sound change ----- */

  predicate RowsOk(t: nat, a: nat, r: Rows) {
    TaskOk(r.task) && AttemptOk(r.attempt, r.task) && r.events == []
  }

  lemma ExpireIsSound(now: nat, t: nat, a: nat, r: Rows)
    requires RowsOk(t, a, r) && (InFlight(r.task.status) || r.task.status == InterventionRequired)
    ensures SoundChange(now, a, r, ExpireRows(now, t, a, r)) && ImageFollows(r, ExpireRows(now, t, a, r))
    ensures var r' := ExpireRows(now, t, a, r);
            r'.task.status == InterventionRequired && r'.attempt.leaseExpiresAt == r.attempt.leaseExpiresAt
  {
  }

  lemma TouchIsSound(cfg: Config, now: nat, t: nat, a: nat, r: Rows, phase: Phase, bytes: nat, total: Option<nat>)
    requires RowsOk(t, a, r) && Honoured(r.task, r.attempt, now)
    ensures var r' := TouchRows(cfg, now, r, phase, bytes, total);
            r'.Some? ==> && SoundChange(now, a, r, r'.value) && ImageFollows(r, r'.value)
                         && r.attempt.finishedAt.None? && !Closed(r'.value.task.status)
                         && r'.value.attempt.leaseExpiresAt == now + cfg.leaseSeconds
  {
  }

  lemma ProgressIsSound(cfg: Config, now: nat, t: nat, a: nat, r: Rows,
                        sequence: nat, phase: Phase, bytes: nat, total: Option<nat>, message: string)
    requires RowsOk(t, a, r) && Honoured(r.task, r.attempt, now) && r.attempt.lastSequence < sequence
    ensures var r' := ProgressRows(cfg, now, t, a, r, sequence, phase, bytes, total, message);
            r'.Some? ==> && SoundChange(now, a, r, r'.value) && ImageFollows(r, r'.value)
                         && r.attempt.finishedAt.None? && !Closed(r'.value.task.status)
                         && r'.value.attempt.lastSequence == sequence && r'.value.attempt.phase == phase
                         && r'.value.task.cancelRequestedAt == r.task.cancelRequestedAt
  {
    TouchIsSound(cfg, now, t, a, r, phase, bytes, total);
  }

  lemma FailIsSound(now: nat, t: nat, a: nat, r: Rows, sequence: nat, reason: string)
    requires RowsOk(t, a, r) && r.task.cancelRequestedAt.None?
    ensures var r' := FailRows(now, t, a, r, sequence, reason);
            r'.Some? ==> SoundChange(now, a, r, r'.value) && ImageFollows(r, r'.value) && Terminal(r'.value.task.status)
  {
  }

  lemma AcknowledgeIsSound(now: nat, t: nat, a: nat, r: Rows, reason: string)
    requires RowsOk(t, a, r) && !Closed(r.task.status)
    ensures var r' := AcknowledgeRows(now, t, a, r, reason);
            r'.Some? ==> SoundChange(now, a, r, r'.value) && ImageFollows(r, r'.value) && Terminal(r'.value.task.status)
  {
  }

  /** Completion after a recorded verification is sound with respect to the rows before both. */
  lemma CompleteIsSound(now: nat, t: nat, a: nat, r: Rows, r1: Rows)
    requires RowsOk(t, a, r) && SoundChange(now, a, r, r1) && r1.attempt.phase == Phase.Verifying
    requires r1.task.cancelRequestedAt.None?
    ensures var r' := CompleteRows(now, t, a, r1);
            r'.Some? ==> && SoundChange(now, a, r, r'.value) && r'.value.task.status == Succeeded
                         && r'.value.image == r1.image && r'.value.task.cancelRequestedAt.None?
  {
  }

  /** With sequences in order, a number above the high-water mark was never used. */
  lemma FreshSequence(s: State, a: nat, sequence: nat)
    requires Inv(s) && a < |s.attempts| && s.attempts[a].lastSequence < sequence
    ensures FindEvent(s.events, a, sequence).None?
  {
    forall k | 0 <= k < |s.events| && s.events[k].attempt == Some(a) ensures s.events[k].sequence != Some(sequence) {
      assert EventOk(s.attempts, s.events[k]);
    }
  }
}
